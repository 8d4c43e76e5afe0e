/** Collapsing edges (`mark_dead_ents`, `find_coarsen_domains`, `coarsen_topology`): what dies with a rail, and
    why what is built instead is never degenerate. */
module Coarsening {
  import opened Align
  import opened Canonical
  import opened Inversion
  import opened ReflectDown
  import Graphs

  // ----- element templates -----

  /** Edges, triangles and tetrahedra. */
  type Dim = d: nat | 1 <= d <= 3 witness 1

  function NEdges(d: Dim): nat {
    if d == 3 then 6 else if d == 2 then 3 else 1
  }

  /** The vertices of edge `which` of a simplex (`simplex_down_template` for edges). */
  function EdgeVert(d: Dim, which: nat, vert: nat): nat
    requires which < NEdges(d) && vert < 2
  {
    if which < 3 && d > 1 then
      if vert == 0 then which else (which + 1) % 3
    else if d == 1 then vert
    else if vert == 0 then which - 3 else 3
  }

  /** The side opposite to a vertex (`simplex_opposite_template` for vertices). */
  function OppositeSide(d: Dim, vert: nat): nat
    requires vert <= d
  {
    if d == 3 then
      if vert == 0 then 2 else if vert == 1 then 3 else if vert == 2 then 1 else 0
    else if d == 2 then (vert + 1) % 3
    else 1 - vert
  }

  /** The vertices of side `which` of a cell (`simplex_down_template` for sides). */
  function SideUse(d: Dim, cell: Verts, which: nat): Verts
    requires |cell| == d + 1 && which <= d
  {
    if d == 3 then
      if which == 0 then [cell[0], cell[2], cell[1]]
      else if which == 1 then [cell[0], cell[1], cell[3]]
      else if which == 2 then [cell[1], cell[2], cell[3]]
      else [cell[2], cell[0], cell[3]]
    else if d == 2 then [cell[which], cell[(which + 1) % 3]]
    else [cell[which]]
  }

  /** The side opposite to a vertex has all other vertices, and not that one. */
  lemma OppositeIsOpposite(d: Dim, cell: Verts, vert: nat, v: int)
    requires |cell| == d + 1 && AreDistinct(cell) && vert <= d
    ensures OppositeSide(d, vert) <= d
    ensures v in SideUse(d, cell, OppositeSide(d, vert)) <==> v in cell && v != cell[vert]
  {
    var s := SideUse(d, cell, OppositeSide(d, vert));
    if d == 3 {
      assert cell == [cell[0], cell[1], cell[2], cell[3]];
      assert s == [s[0], s[1], s[2]];
    } else if d == 2 {
      assert cell == [cell[0], cell[1], cell[2]];
      assert s == [s[0], s[1]];
    } else {
      assert cell == [cell[0], cell[1]];
    }
  }

  /** The sides of a triangle are its edges. */
  lemma SidesOfTriangles(cell: Verts, which: nat)
    requires |cell| == 3 && which < 3
    ensures SideUse(2, cell, which) == EdgeUse(2, cell, which)
  {
  }

  /** Any two vertices of a simplex have an edge. */
  lemma EdgeBetween(d: Dim, i: nat, j: nat) returns (which: nat)
    requires i <= d && j <= d && i != j
    ensures which < NEdges(d)
    ensures {EdgeVert(d, which, 0), EdgeVert(d, which, 1)} == {i, j}
  {
    if d == 1 {
      which := 0;
    } else if i == 3 {
      which := j + 3;
    } else if j == 3 {
      which := i + 3;
    } else {
      which := if (i + 1) % 3 == j then i else j;
    }
  }

  function EdgeUse(d: Dim, cell: Verts, which: nat): Verts
    requires which < NEdges(d) && |cell| == d + 1
  {
    EdgeVertsExist(d, which);
    [cell[EdgeVert(d, which, 0)], cell[EdgeVert(d, which, 1)]]
  }

  lemma EdgeVertsExist(d: Dim, which: nat)
    requires which < NEdges(d)
    ensures EdgeVert(d, which, 0) <= d && EdgeVert(d, which, 1) <= d
  {
  }

  // ----- the mesh -----

  /** The entities of one dimension: their vertices, the entities of each vertex, and, above edges, their
      edges, the entities of each edge and their sides. */
  datatype Layer = Layer(
    cells: seq<Verts>, v2c: Adj, ghost vLows: seq<nat>, ghost vSlots: seq<nat>,
    ghost down: Down, e2c: Adj, ghost eSlots: seq<nat>, cellSides: seq<seq<nat>>)
  {
    ghost predicate HasEdgeAt(d: Dim, edges: seq<Verts>, slot: nat) {
      slot < |down.lows| ==>
        && slot < |down.codes| && down.lows[slot] < |edges| && slot / NEdges(d) < |cells|
        && |cells[slot / NEdges(d)]| == d + 1
        && IsAlignment(2, edges[down.lows[slot]], down.codes[slot],
             EdgeUse(d, cells[slot / NEdges(d)], slot % NEdges(d)))
    }

    ghost predicate Valid(d: Dim, nv: nat, edges: seq<Verts>, nsides: nat) {
      && AreVerts(cells, d + 1, nv) && AreUses(d + 1, cells)
      && IsUpFrom(d + 1, cells, nv, vLows, vSlots, v2c)
      && (d > 1 ==>
            && |down.lows| == |cells| * NEdges(d) && down.nlowsPerHigh == NEdges(d) && down.Valid(|edges|)
            && (forall slot: nat {:trigger HasEdgeAt(d, edges, slot)} :: HasEdgeAt(d, edges, slot))
            && IsUpward(down, |edges|, eSlots, e2c)
            && |cellSides| == |cells|
            && forall c :: 0 <= c < |cells| ==>
              |cellSides[c]| == d + 1 && forall s :: 0 <= s <= d ==> cellSides[c][s] < nsides)
    }
  }

  /** No two edges have the same ends. */
  ghost predicate HasUniqueEdges(edges: seq<Verts>) {
    forall d, e :: 0 <= d < e < |edges| ==> !SameEntity(2, edges[d], edges[e])
  }

  /** A mark for the cells of a rail, and for the sides opposite to the vertex it collapses onto. */
  ghost predicate CellHasEdge(layer: Layer, d: Dim, e: nat, c: nat) {
    exists slot: nat :: IsEdgeOf(layer, d, e, c, slot)
  }

  ghost predicate IsEdgeOf(layer: Layer, d: Dim, e: nat, c: nat, slot: nat) {
    slot < |layer.down.lows| && layer.down.lows[slot] == e && slot / NEdges(d) == c
  }

  ghost predicate IsOppositeTo(layer: Layer, d: Dim, edges: seq<Verts>, e: nat, onto: int, s: nat) {
    exists c: nat, pos: nat :: IsOppositeIn(layer, d, edges, e, onto, s, c, pos)
  }

  ghost predicate IsOppositeIn(layer: Layer, d: Dim, edges: seq<Verts>, e: nat, onto: int, s: nat, c: nat, pos: nat) {
    && CellHasEdge(layer, d, e, c) && c < |layer.cells| && c < |layer.cellSides| && pos <= d
    && pos < |layer.cells[c]| && layer.cells[c][pos] == onto
    && OppositeSide(d, pos) < |layer.cellSides[c]| && layer.cellSides[c][OppositeSide(d, pos)] == s
  }

  /** The rails: edges, and which end collapses. */
  datatype RailSet = RailSet(edges: seq<nat>, dirs: seq<nat>) {
    ghost predicate Valid(lists: seq<Verts>) {
      && |edges| == |dirs| && forall k :: 0 <= k < |edges| ==>
        edges[k] < |lists| && |lists[edges[k]]| == 2 && dirs[k] < 2
    }
  }

  function Onto(lists: seq<Verts>, rails: RailSet, k: nat): int
    requires k < |rails.edges| == |rails.dirs| && rails.edges[k] < |lists| && |lists[rails.edges[k]]| == 2
    requires rails.dirs[k] < 2
  {
    lists[rails.edges[k]][1 - rails.dirs[k]]
  }

  ghost predicate CellDies(layer: Layer, d: Dim, rails: RailSet, n: nat, c: nat) {
    n <= |rails.edges| && exists k :: 0 <= k < n && CellHasEdge(layer, d, rails.edges[k], c)
  }

  ghost predicate SideDies(layer: Layer, d: Dim, lists: seq<Verts>, rails: RailSet, n: nat, s: nat)
    requires rails.Valid(lists)
  {
    n <= |rails.edges| && exists k ::
      0 <= k < n && IsOppositeTo(layer, d, lists, rails.edges[k], Onto(lists, rails, k), s)
  }

  /** The place in a cell of an end of one of its edges. */
  lemma EndOfEdge(
      layer: Layer, d: Dim, nv: nat, edges: seq<Verts>, nsides: nat, e: nat, ec: nat, end: nat)
    returns (slot: nat)
    requires layer.Valid(d, nv, edges, nsides) && d > 1 && e < |edges| && end < 2
    requires layer.e2c.a2ab[e] <= ec < layer.e2c.a2ab[e + 1]
    ensures ec < |layer.e2c.ab2b| == |layer.e2c.codes| && IsEdgeOf(layer, d, e, layer.e2c.ab2b[ec], slot)
    ensures var code, c := layer.e2c.codes[ec], layer.e2c.ab2b[ec];
      && CodeWhichDown(code) < NEdges(d) && CodeRotation(code) < 2 && c < |layer.cells| && |edges[e]| == 2
      && var pos := EdgeVert(d, CodeWhichDown(code), (CodeRotation(code) + end) % 2);
        pos <= d && |layer.cells[c]| == d + 1 && layer.cells[c][pos] == edges[e][end]
  {
    Graphs.OffsetsAscend(layer.e2c.a2ab, |edges|, |layer.eSlots|, e, e + 1);
    assert HasBucket(Graphs.Graph(layer.e2c.a2ab, layer.eSlots), layer.down.lows, e, ec);
    slot := layer.eSlots[ec];
    assert layer.HasEdgeAt(d, edges, slot);
    var which := slot % NEdges(d);
    var downCode := layer.down.codes[slot];
    CodeUnpacks(CodeIsFlipped(downCode), CodeRotation(downCode), which);
    EdgeVertsExist(d, which);
    VertsAreAligned(2, edges[e], downCode, end);
    EndIsRotated(downCode, end);
  }

  /** For edges a flip does nothing. */
  lemma EndIsRotated(code: nat, end: nat)
    requires IsCode(2, code) && end < 2
    ensures AlignVertIndex(2, end, code) == (CodeRotation(code) + end) % 2
  {
    AlignVertIndexIs(2, end, code);
    SmallRemainder(2, CodeRotation(code) + end);
  }

  /** The side that an entry of an edge's row kills: opposite to the given end of the edge. */
  ghost predicate KillsSide(layer: Layer, d: Dim, edges: seq<Verts>, e: nat, end: nat, ec: nat, s: nat) {
    && ec < |layer.e2c.ab2b| && ec < |layer.e2c.codes| && end < 2 && e < |edges| && end < |edges[e]|
    && IsOppositeAt(layer, d, layer.e2c.ab2b[ec], edges[e][end], s)
  }

  ghost predicate IsOppositeAt(layer: Layer, d: Dim, c: nat, onto: int, s: nat) {
    exists pos: nat :: IsOppositePlace(layer, d, c, onto, s, pos)
  }

  ghost predicate IsOppositePlace(layer: Layer, d: Dim, c: nat, onto: int, s: nat, pos: nat) {
    && c < |layer.cells| && c < |layer.cellSides| && pos <= d && pos < |layer.cells[c]| && layer.cells[c][pos] == onto
    && OppositeSide(d, pos) < |layer.cellSides[c]| && layer.cellSides[c][OppositeSide(d, pos)] == s
  }

  ghost predicate IsMarked(layer: Layer, from: nat, to: nat, c: nat) {
    exists ec: nat :: from <= ec < to && ec < |layer.e2c.ab2b| && layer.e2c.ab2b[ec] == c
  }

  ghost predicate IsKilled(layer: Layer, d: Dim, edges: seq<Verts>, e: nat, end: nat, from: nat, to: nat, s: nat) {
    exists ec: nat :: from <= ec < to && KillsSide(layer, d, edges, e, end, ec, s)
  }

  lemma EntryKills(layer: Layer, d: Dim, nv: nat, edges: seq<Verts>, nsides: nat, e: nat, end: nat,
      from: nat, ec: nat, s: nat)
    requires layer.Valid(d, nv, edges, nsides) && d > 1 && e < |edges| && end < 2
    requires from == layer.e2c.a2ab[e] <= ec < layer.e2c.a2ab[e + 1]
    ensures ec < |layer.e2c.ab2b| == |layer.e2c.codes| && layer.e2c.ab2b[ec] < |layer.cells| && |edges[e]| == 2
    ensures var code, c := layer.e2c.codes[ec], layer.e2c.ab2b[ec];
      CodeWhichDown(code) < NEdges(d)
      && var pos := EdgeVert(d, CodeWhichDown(code), (CodeRotation(code) + end) % 2);
        pos <= d && OppositeSide(d, pos) <= d && c < |layer.cellSides| && |layer.cellSides[c]| == d + 1
        && layer.cellSides[c][OppositeSide(d, pos)] < nsides
        && (KillsSide(layer, d, edges, e, end, ec, s) <==> s == layer.cellSides[c][OppositeSide(d, pos)])
    ensures IsKilled(layer, d, edges, e, end, from, ec + 1, s) <==>
      IsKilled(layer, d, edges, e, end, from, ec, s) || KillsSide(layer, d, edges, e, end, ec, s)
  {
    var slot := EndOfEdge(layer, d, nv, edges, nsides, e, ec, end);
    var code, c := layer.e2c.codes[ec], layer.e2c.ab2b[ec];
    var pos := EdgeVert(d, CodeWhichDown(code), (CodeRotation(code) + end) % 2);
    assert AreDistinct(layer.cells[c]);
    OppositeIsOpposite(d, layer.cells[c], pos, 0);
    if s == layer.cellSides[c][OppositeSide(d, pos)] {
      assert IsOppositePlace(layer, d, c, edges[e][end], s, pos);
    }
    if KillsSide(layer, d, edges, e, end, ec, s) {
      var other: nat :| IsOppositePlace(layer, d, c, edges[e][end], s, other);
      assert other == pos;
    }
  }

  lemma RowHasCells(layer: Layer, d: Dim, nv: nat, edges: seq<Verts>, nsides: nat, e: nat, c: nat)
    requires layer.Valid(d, nv, edges, nsides) && d > 1 && e < |edges|
    ensures e + 1 < |layer.e2c.a2ab|
    ensures IsMarked(layer, layer.e2c.a2ab[e], layer.e2c.a2ab[e + 1], c) <==> CellHasEdge(layer, d, e, c)
  {
    var from, to := layer.e2c.a2ab[e], layer.e2c.a2ab[e + 1];
    if ec: nat :| from <= ec < to && ec < |layer.e2c.ab2b| && layer.e2c.ab2b[ec] == c {
      var slot := EndOfEdge(layer, d, nv, edges, nsides, e, ec, 0);
    }
    if CellHasEdge(layer, d, e, c) {
      var slot: nat :| IsEdgeOf(layer, d, e, c, slot);
      RowHasSlot(layer.down, |edges|, layer.eSlots, layer.e2c.a2ab, e, slot);
      assert IsIn(layer.down.lows, e, slot);
      var row := layer.eSlots[from..to];
      var i :| 0 <= i < |row| && row[i] == slot;
      assert layer.eSlots[from + i] == slot && layer.e2c.ab2b[from + i] == c;
    }
  }

  lemma RowKillsSides(
      layer: Layer, d: Dim, nv: nat, edges: seq<Verts>, nsides: nat, e: nat, end: nat, s: nat)
    requires layer.Valid(d, nv, edges, nsides) && d > 1 && e < |edges| && |edges[e]| == 2 && end < 2
    ensures e + 1 < |layer.e2c.a2ab|
    ensures IsKilled(layer, d, edges, e, end, layer.e2c.a2ab[e], layer.e2c.a2ab[e + 1], s) <==>
      IsOppositeTo(layer, d, edges, e, edges[e][end], s)
  {
    var from, to := layer.e2c.a2ab[e], layer.e2c.a2ab[e + 1];
    RowHasCells(layer, d, nv, edges, nsides, e, 0);
    if ec: nat :| from <= ec < to && KillsSide(layer, d, edges, e, end, ec, s) {
      var c := layer.e2c.ab2b[ec];
      assert IsMarked(layer, from, to, c);
      RowHasCells(layer, d, nv, edges, nsides, e, c);
      var pos: nat :| IsOppositePlace(layer, d, c, edges[e][end], s, pos);
      assert IsOppositeIn(layer, d, edges, e, edges[e][end], s, c, pos);
    }
    if c: nat, pos: nat :| IsOppositeIn(layer, d, edges, e, edges[e][end], s, c, pos) {
      RowHasCells(layer, d, nv, edges, nsides, e, c);
      var ec: nat :| from <= ec < to && ec < |layer.e2c.ab2b| && layer.e2c.ab2b[ec] == c;
      assert IsOppositePlace(layer, d, c, edges[e][end], s, pos);
      var slot := EndOfEdge(layer, d, nv, edges, nsides, e, ec, end);
      assert KillsSide(layer, d, edges, e, end, ec, s);
    }
  }

  /** Marks the cells of one rail and the sides that they leave. */
  method MarkRail(layer: Layer, d: Dim, ghost nv: nat, edges: seq<Verts>, e: nat, dir: nat,
      deadCells: seq<bool>, deadSides: seq<bool>)
    returns (deadCells': seq<bool>, deadSides': seq<bool>)
    requires layer.Valid(d, nv, edges, |deadSides|) && d > 1 && |deadCells| == |layer.cells|
    requires e < |edges| && |edges[e]| == 2 && dir < 2
    ensures |deadCells'| == |deadCells| && |deadSides'| == |deadSides|
    ensures forall c: nat :: c < |deadCells| ==> (deadCells'[c] <==> deadCells[c] || CellHasEdge(layer, d, e, c))
    ensures forall s: nat :: s < |deadSides| ==>
      (deadSides'[s] <==> deadSides[s] || IsOppositeTo(layer, d, edges, e, edges[e][1 - dir], s))
  {
    hide EdgeVert;
    deadCells', deadSides' := deadCells, deadSides;
    var end := 1 - dir;
    RowHasCells(layer, d, nv, edges, |deadSides|, e, 0);
    Graphs.OffsetsAscend(layer.e2c.a2ab, |edges|, |layer.eSlots|, e, e + 1);
    var from, to := layer.e2c.a2ab[e], layer.e2c.a2ab[e + 1];
    for ec := from to to
      invariant |deadCells'| == |deadCells| && |deadSides'| == |deadSides|
      invariant forall c: nat :: c < |deadCells| ==> (deadCells'[c] <==> deadCells[c] || IsMarked(layer, from, ec, c))
      invariant forall s: nat :: s < |deadSides| ==>
        (deadSides'[s] <==> deadSides[s] || IsKilled(layer, d, edges, e, end, from, ec, s))
    {
      EntryKills(layer, d, nv, edges, |deadSides|, e, end, from, ec, 0);
      var c, code := layer.e2c.ab2b[ec], layer.e2c.codes[ec];
      var ccvOnto := EdgeVert(d, CodeWhichDown(code), (CodeRotation(code) + end) % 2);
      var sOpp := layer.cellSides[c][OppositeSide(d, ccvOnto)];
      ghost var next: nat := ec + 1;
      forall s: nat | s < |deadSides|
        ensures IsKilled(layer, d, edges, e, end, from, next, s) <==>
          IsKilled(layer, d, edges, e, end, from, ec, s) || s == sOpp
      {
        EntryKills(layer, d, nv, edges, |deadSides|, e, end, from, ec, s);
      }
      deadCells' := deadCells'[c := true];
      deadSides' := deadSides'[sOpp := true];
    }
    forall c: nat | c < |deadCells|
      ensures IsMarked(layer, from, to, c) <==> CellHasEdge(layer, d, e, c)
    {
      RowHasCells(layer, d, nv, edges, |deadSides|, e, c);
    }
    forall s: nat | s < |deadSides|
      ensures IsKilled(layer, d, edges, e, end, from, to, s) <==> IsOppositeTo(layer, d, edges, e, edges[e][end], s)
    {
      RowKillsSides(layer, d, nv, edges, |deadSides|, e, end, s);
    }
  }

  /** All rails: the cells that have one die, and the sides opposite to where they collapse. */
  method MarkDeadEnts(layer: Layer, d: Dim, ghost nv: nat, edges: seq<Verts>, rails: RailSet,
      deadCells: seq<bool>, deadSides: seq<bool>)
    returns (deadCells': seq<bool>, deadSides': seq<bool>)
    requires layer.Valid(d, nv, edges, |deadSides|) && d > 1 && |deadCells| == |layer.cells| && rails.Valid(edges)
    ensures |deadCells'| == |deadCells| && |deadSides'| == |deadSides|
    ensures forall c: nat :: c < |deadCells| ==>
      (deadCells'[c] <==> deadCells[c] || CellDies(layer, d, rails, |rails.edges|, c))
    ensures forall s: nat :: s < |deadSides| ==>
      (deadSides'[s] <==> deadSides[s] || SideDies(layer, d, edges, rails, |rails.edges|, s))
  {
    deadCells', deadSides' := deadCells, deadSides;
    for k := 0 to |rails.edges|
      invariant |deadCells'| == |deadCells| && |deadSides'| == |deadSides|
      invariant forall c: nat :: c < |deadCells| ==>
        (deadCells'[c] <==> deadCells[c] || CellDies(layer, d, rails, k, c))
      invariant forall s: nat :: s < |deadSides| ==>
        (deadSides'[s] <==> deadSides[s] || SideDies(layer, d, edges, rails, k, s))
    {
      ghost var wasCells, wasSides := deadCells', deadSides';
      deadCells', deadSides' := MarkRail(layer, d, nv, edges, rails.edges[k], rails.dirs[k], deadCells', deadSides');
      forall c: nat | c < |deadCells|
        ensures deadCells'[c] <==> deadCells[c] || CellDies(layer, d, rails, k + 1, c)
      {
        CellDiesNext(layer, d, rails, k, c);
      }
      forall s: nat | s < |deadSides|
        ensures deadSides'[s] <==> deadSides[s] || SideDies(layer, d, edges, rails, k + 1, s)
      {
        SideDiesNext(layer, d, edges, rails, k, s);
      }
    }
  }

  lemma CellDiesNext(layer: Layer, d: Dim, rails: RailSet, k: nat, c: nat)
    requires k < |rails.edges|
    ensures CellDies(layer, d, rails, k + 1, c) <==>
      CellDies(layer, d, rails, k, c) || CellHasEdge(layer, d, rails.edges[k], c)
  {
  }

  lemma SideDiesNext(layer: Layer, d: Dim, lists: seq<Verts>, rails: RailSet, k: nat, s: nat)
    requires rails.Valid(lists) && k < |rails.edges|
    ensures SideDies(layer, d, lists, rails, k + 1, s) <==>
      SideDies(layer, d, lists, rails, k, s) || IsOppositeTo(layer, d, lists, rails.edges[k], Onto(lists, rails, k), s)
  {
  }

  // ----- keys -----

  /** Each key collapses along its rail; no edge joins two keys. */
  ghost predicate AreKeys(edges: seq<Verts>, keys: seq<nat>, rails: RailSet) {
    && |keys| == |rails.edges| && rails.Valid(edges)
    && (forall k :: 0 <= k < |keys| ==> edges[rails.edges[k]][rails.dirs[k]] == keys[k])
    && (forall e :: 0 <= e < |edges| ==> |edges[e]| == 2 && !(IsKey(keys, edges[e][0]) && IsKey(keys, edges[e][1])))
  }

  ghost predicate IsKey(keys: seq<nat>, v: int) {
    exists k :: 0 <= k < |keys| && keys[k] == v
  }

  lemma OntoIsNoKey(edges: seq<Verts>, keys: seq<nat>, rails: RailSet, k: nat)
    requires AreKeys(edges, keys, rails) && k < |keys|
    ensures !IsKey(keys, Onto(edges, rails, k))
  {
    assert IsKey(keys, keys[k]);
  }

  /** The edge of a cell between two of its vertices. */
  lemma EdgeOfCell(
      layer: Layer, d: Dim, nv: nat, edges: seq<Verts>, nsides: nat, c: nat, i: nat, j: nat)
    returns (e: nat)
    requires layer.Valid(d, nv, edges, nsides) && d > 1 && AreVerts(edges, 2, nv) && c < |layer.cells| && i <= d
    requires j <= d && i != j
    ensures e < |edges| && CellHasEdge(layer, d, e, c) && |layer.cells[c]| == d + 1 && |edges[e]| == 2
    ensures edges[e] == [layer.cells[c][i], layer.cells[c][j]] || edges[e] == [layer.cells[c][j], layer.cells[c][i]]
  {
    var which := EdgeBetween(d, i, j);
    EdgeVertsExist(d, which);
    var a, b := EdgeVert(d, which, 0), EdgeVert(d, which, 1);
    assert a in {i, j} && b in {i, j} && i in {a, b} && j in {a, b};
    var slot := c * NEdges(d) + which;
    QuotientAndRest(NEdges(d), c, which, slot);
    SlotIsSmall(NEdges(d), c, which, |layer.cells|);
    assert layer.HasEdgeAt(d, edges, slot);
    e := layer.down.lows[slot];
    assert IsEdgeOf(layer, d, e, c, slot);
    EdgeListIs(edges[e], layer.down.codes[slot], EdgeUse(d, layer.cells[c], which));
  }

  /** An edge has its vertices in one order or the other. */
  lemma EdgeListIs(edge: Verts, code: nat, use: Verts)
    requires IsAlignment(2, edge, code, use)
    ensures |use| == 2 && |edge| == 2 && (edge == use || edge == [use[1], use[0]])
  {
    VertsAreAligned(2, edge, code, 0);
    VertsAreAligned(2, edge, code, 1);
    EndIsRotated(code, 0);
    EndIsRotated(code, 1);
    assert edge == [edge[0], edge[1]];
  }

  lemma SameEdge(a: Verts, b: Verts)
    requires |a| == 2 == |b| && (a == b || a == [b[1], b[0]])
    ensures SameEntity(2, a, b)
  {
    if a == b {
      IsReflexive(2, b);
    } else {
      var code := TurnedEdge(a, b);
    }
  }

  lemma TurnedEdge(a: Verts, b: Verts) returns (code: nat)
    requires |a| == 2 == |b| && a == [b[1], b[0]]
    ensures IsAlignment(2, a, code, b)
  {
    code := MakeCode(false, 1, 0);
    TurnCode();
    EndIsRotated(code, 0);
    EndIsRotated(code, 1);
    assert AlignVertIndex(2, 0, code) == 1 && AlignVertIndex(2, 1, code) == 0;
    AlignedIs(2, a, code, b);
  }

  lemma TurnCode()
    ensures IsCode(2, MakeCode(false, 1, 0)) && CodeRotation(MakeCode(false, 1, 0)) == 1
  {
    CodeUnpacks(false, 1, 0);
  }

  /** A cell with a key and the vertex it collapses onto has its rail, and dies. */
  lemma BothEndsMeanDead(layer: Layer, d: Dim, nv: nat, edges: seq<Verts>, nsides: nat,
      keys: seq<nat>, rails: RailSet, k: nat, c: nat, i: nat, j: nat)
    requires layer.Valid(d, nv, edges, nsides) && d > 1 && AreVerts(edges, 2, nv) && HasUniqueEdges(edges)
    requires AreKeys(edges, keys, rails) && k < |keys| && c < |layer.cells| && i <= d && j <= d
    requires layer.cells[c][i] == keys[k] && layer.cells[c][j] == Onto(edges, rails, k)
    ensures CellDies(layer, d, rails, |rails.edges|, c)
  {
    OntoIsNoKey(edges, keys, rails, k);
    assert IsKey(keys, keys[k]);
    var e := EdgeOfCell(layer, d, nv, edges, nsides, c, i, j);
    var rail := rails.edges[k];
    assert edges[rail] == [edges[rail][0], edges[rail][1]];
    SameEdge(edges[e], edges[rail]);
    SameEdge(edges[rail], edges[e]);
    assert e == rail;
  }

  /** No two vertices of a cell are keys. */
  lemma OneKeyPerCell(layer: Layer, d: Dim, nv: nat, edges: seq<Verts>, nsides: nat,
      keys: seq<nat>, rails: RailSet, c: nat, i: nat, j: nat)
    requires layer.Valid(d, nv, edges, nsides) && d > 1 && AreVerts(edges, 2, nv) && AreKeys(edges, keys, rails)
    requires c < |layer.cells| && i <= d && j <= d && i != j && IsKey(keys, layer.cells[c][i])
    ensures !IsKey(keys, layer.cells[c][j])
  {
    var e := EdgeOfCell(layer, d, nv, edges, nsides, c, i, j);
  }

  // ----- domains and products -----

  /** A live cell and the place of the key in it. */
  ghost predicate IsDomain(layer: Layer, d: Dim, key: nat, dead: seq<bool>, dom: (nat, nat)) {
    && dom.0 < |layer.cells| == |dead| && !dead[dom.0] && dom.1 <= d && |layer.cells[dom.0]| == d + 1
    && layer.cells[dom.0][dom.1] == key
  }

  /** All live cells of a key, each once. */
  ghost predicate AreDomains(layer: Layer, d: Dim, key: nat, dead: seq<bool>, doms: seq<(nat, nat)>) {
    && (forall x :: 0 <= x < |doms| ==> IsDomain(layer, d, key, dead, doms[x]))
    && (forall x, y :: 0 <= x < y < |doms| ==> doms[x].0 != doms[y].0)
    && (forall c: nat {:trigger HasVert(layer, c, key)} :: HasVert(layer, c, key) && c < |dead| && !dead[c] ==>
          IsListed(doms, c))
  }

  ghost predicate IsListed(doms: seq<(nat, nat)>, c: nat) {
    exists x :: 0 <= x < |doms| && doms[x].0 == c
  }

  ghost predicate WasSeen(layer: Layer, from: nat, to: nat, c: nat) {
    exists p: nat :: from <= p < to && p < |layer.v2c.ab2b| && layer.v2c.ab2b[p] == c
  }

  ghost predicate HasVert(layer: Layer, c: nat, v: int) {
    c < |layer.cells| && v in layer.cells[c]
  }

  method FindDomains(
      layer: Layer, d: Dim, ghost nv: nat, ghost edges: seq<Verts>, ghost nsides: nat, key: nat, dead: seq<bool>)
    returns (doms: seq<(nat, nat)>)
    requires layer.Valid(d, nv, edges, nsides) && key < nv && |dead| == |layer.cells|
    ensures AreDomains(layer, d, key, dead, doms)
  {
    doms := [];
    Graphs.OffsetsAscend(layer.v2c.a2ab, nv, |layer.vSlots|, key, key + 1);
    var from, to := layer.v2c.a2ab[key], layer.v2c.a2ab[key + 1];
    for ke := from to to
      invariant forall x :: 0 <= x < |doms| ==> IsDomain(layer, d, key, dead, doms[x])
      invariant forall x :: 0 <= x < |doms| ==> WasSeen(layer, from, ke, doms[x].0)
      invariant forall x, y :: 0 <= x < y < |doms| ==> doms[x].0 != doms[y].0
      invariant forall b: nat {:trigger WasSeen(layer, from, ke, b)} ::
        WasSeen(layer, from, ke, b) && b < |dead| && !dead[b] ==> IsListed(doms, b)
    {
      ghost var was := doms;
      ghost var slot := EntryIs(d + 1, layer.cells, nv, layer.vLows, layer.vSlots, layer.v2c, key, ke);
      var c, which := layer.v2c.ab2b[ke], CodeWhichDown(layer.v2c.codes[ke]);
      if !dead[c] {
        NotSeenBefore(layer, d, nv, edges, nsides, key, from, ke);
        doms := doms + [(c, which)];
      }
      ghost var next: nat := ke + 1;
      forall b: nat
        ensures WasSeen(layer, from, next, b) <==> WasSeen(layer, from, ke, b) || b == c
        ensures IsListed(was, b) ==> IsListed(doms, b)
        ensures !dead[c] ==> IsListed(doms, c)
      {
        SeenNext(layer, from, ke, b);
        ListedGrows(was, doms, b);
        assert !dead[c] ==> doms[|was|].0 == c;
      }
    }
    forall c: nat | HasVert(layer, c, key) && c < |dead| && !dead[c]
      ensures IsListed(doms, c)
    {
      var p := CellInRow(layer, d, nv, edges, nsides, c, key);
      assert WasSeen(layer, from, to, c);
    }
  }

  lemma SeenNext(layer: Layer, from: nat, ke: nat, b: nat)
    requires from <= ke < |layer.v2c.ab2b|
    ensures WasSeen(layer, from, ke + 1, b) <==> WasSeen(layer, from, ke, b) || b == layer.v2c.ab2b[ke]
  {
  }

  lemma ListedGrows(was: seq<(nat, nat)>, doms: seq<(nat, nat)>, b: nat)
    requires was <= doms
    ensures IsListed(was, b) ==> IsListed(doms, b)
  {
  }

  lemma NotSeenBefore(
      layer: Layer, d: Dim, nv: nat, edges: seq<Verts>, nsides: nat, key: nat, from: nat, ke: nat)
    requires layer.Valid(d, nv, edges, nsides) && key < nv
    requires from == layer.v2c.a2ab[key] <= ke < layer.v2c.a2ab[key + 1]
    ensures ke < |layer.v2c.ab2b| && !WasSeen(layer, from, ke, layer.v2c.ab2b[ke])
  {
    var slot := EntryIs(d + 1, layer.cells, nv, layer.vLows, layer.vSlots, layer.v2c, key, ke);
    forall p: nat | from <= p < ke && p < |layer.v2c.ab2b|
      ensures layer.v2c.ab2b[p] != layer.v2c.ab2b[ke]
    {
      if layer.v2c.ab2b[p] == layer.v2c.ab2b[ke] {
        PlaceIsUnique(d + 1, layer.cells, nv, layer.vLows, layer.vSlots, layer.v2c, key, p, ke);
      }
    }
  }

  lemma CellInRow(layer: Layer, d: Dim, nv: nat, edges: seq<Verts>, nsides: nat, c: nat, v: nat)
    returns (p: nat)
    requires layer.Valid(d, nv, edges, nsides) && v < nv && HasVert(layer, c, v)
    ensures layer.v2c.a2ab[v] <= p < layer.v2c.a2ab[v + 1] && p < |layer.v2c.ab2b| && layer.v2c.ab2b[p] == c
  {
    var i :| 0 <= i < |layer.cells[c]| && layer.cells[c][i] == v;
    var deg := d + 1;
    var slot := c * deg + i;
    QuotientAndRest(deg, c, i, slot);
    SlotIsSmall(deg, c, i, |layer.cells|);
    assert IsSlotOf(layer.cells, deg, layer.vLows, slot);
    RowHasSlot(Down(layer.vLows, [], deg), nv, layer.vSlots, layer.v2c.a2ab, v, slot);
    assert IsIn(layer.vLows, v, slot);
    var from := layer.v2c.a2ab[v];
    var row := layer.vSlots[from..layer.v2c.a2ab[v + 1]];
    var k :| 0 <= k < |row| && row[k] == slot;
    p := from + k;
    assert layer.vSlots[p] == slot;
  }

  /** The new numbers of the vertices that stay. */
  ghost predicate IsRenumbering(nv: nat, keys: seq<nat>, old2new: seq<int>) {
    && |old2new| == nv
    && (forall v: nat :: v < nv && !IsKey(keys, v) ==> old2new[v] >= 0)
    && (forall u: nat, v: nat :: u < nv && v < nv && u != v && !IsKey(keys, u) && !IsKey(keys, v) ==>
      old2new[u] != old2new[v])
  }

  /** The vertices of a product, by their old numbers: the key is replaced by what it collapses onto. */
  function OldVerts(cell: Verts, which: nat, onto: int): Verts
    requires which < |cell|
  {
    cell[which := onto]
  }

  /** A product has as many different vertices as its dimension asks for, all of them vertices that stay. */
  ghost predicate IsSound(d: Dim, nv: nat, keys: seq<nat>, old2new: seq<int>, from: Verts, prod: Verts) {
    && |from| == d + 1 == |prod| && AreDistinct(prod) && |old2new| == nv
    && forall i :: 0 <= i <= d ==>
      0 <= from[i] < nv && !IsKey(keys, from[i]) && prod[i] == old2new[from[i]] && prod[i] >= 0
  }

  method BuildProduct(
      layer: Layer, d: Dim, ghost nv: nat, ghost keys: seq<nat>, old2new: seq<int>, c: nat, which: nat, onto: nat)
    returns (prod: Verts)
    requires c < |layer.cells| && |layer.cells[c]| == d + 1 && which <= d && |old2new| == nv
    requires forall i :: 0 <= i <= d ==> 0 <= OldVerts(layer.cells[c], which, onto)[i] < nv
    ensures |prod| == d + 1 && forall i :: 0 <= i <= d ==> prod[i] == old2new[OldVerts(layer.cells[c], which, onto)[i]]
  {
    prod := [];
    for ccv := 0 to d + 1
      invariant |prod| == ccv && forall i :: 0 <= i < ccv ==>
        prod[i] == old2new[OldVerts(layer.cells[c], which, onto)[i]]
    {
      assert 0 <= OldVerts(layer.cells[c], which, onto)[ccv] < nv;
      var oldV;
      if ccv == which {
        oldV := onto as int;
      } else {
        oldV := layer.cells[c][ccv];
      }
      prod := prod + [old2new[oldV]];
    }
  }

  lemma ProductIsSound(d: Dim, nv: nat, keys: seq<nat>, old2new: seq<int>, cell: Verts, which: nat,
      onto: nat, prod: Verts)
    requires |cell| == d + 1 && AreDistinct(cell) && which <= d && onto < nv && IsRenumbering(nv, keys, old2new)
    requires !IsKey(keys, onto) && onto !in cell
    requires forall i :: 0 <= i <= d && i != which ==> 0 <= cell[i] < nv && !IsKey(keys, cell[i])
    requires |prod| == d + 1 && forall i :: 0 <= i <= d ==>
      var v := OldVerts(cell, which, onto)[i];
      0 <= v < nv && prod[i] == old2new[v]
    ensures IsSound(d, nv, keys, old2new, OldVerts(cell, which, onto), prod)
  {
    var from := OldVerts(cell, which, onto);
    forall i, j | 0 <= i < j < |prod|
      ensures prod[i] != prod[j]
    {
      assert from[i] != from[j];
    }
  }

  // ----- all dimensions -----

  /** A mesh of triangles or tetrahedra: `layers[d - 1]` are the entities of dimension `d`, edges first. */
  ghost predicate IsComplex(nv: nat, edges: seq<Verts>, layers: seq<Layer>) {
    && 2 <= |layers| <= 3 && layers[0].cells == edges && AreVerts(edges, 2, nv) && HasUniqueEdges(edges)
    && layers[0].Valid(1, nv, edges, 0)
    && layers[1].Valid(2, nv, edges, |edges|)
    && (|layers| == 3 ==> layers[2].Valid(3, nv, edges, |layers[1].cells|))
  }

  /** How many sides the entities of one dimension refer to; edges have none to refer to. */
  ghost function NSides(edges: seq<Verts>, layers: seq<Layer>, d: Dim): nat
    requires 2 <= |layers|
  {
    if d == 1 then 0 else if d == 2 then |edges| else |layers[1].cells|
  }

  lemma LayerIsValid(nv: nat, edges: seq<Verts>, layers: seq<Layer>, d: Dim)
    requires IsComplex(nv, edges, layers) && d <= |layers|
    ensures layers[d - 1].Valid(d, nv, edges, NSides(edges, layers, d))
  {
  }

  ghost predicate HasMarks(layers: seq<Layer>, dead: seq<seq<bool>>) {
    |dead| == |layers| && forall i :: 0 <= i < |layers| ==> |dead[i]| == |layers[i].cells|
  }

  /** Why an entity of dimension `d` dies: it has a rail, or a cell that has one leaves it behind. */
  ghost predicate Dies(layers: seq<Layer>, edges: seq<Verts>, rails: RailSet, d: nat, c: nat)
    requires rails.Valid(edges)
  {
    && 1 <= d <= |layers| <= 3
    && ((if d == 1 then c in rails.edges else CellDies(layers[d - 1], d, rails, |rails.edges|, c))
        || (d < |layers| && SideDies(layers[d], d + 1, edges, rails, |rails.edges|, c)))
  }

  /** The marks of one dimension say exactly what dies. */
  ghost predicate MarksTheDead(layers: seq<Layer>, edges: seq<Verts>, rails: RailSet, dead: seq<seq<bool>>, d: Dim)
    requires rails.Valid(edges)
  {
    d <= |dead| && forall c: nat :: c < |dead[d - 1]| ==> (dead[d - 1][c] <==> Dies(layers, edges, rails, d, c))
  }

  method MarkAllDead(nv: nat, edges: seq<Verts>, layers: seq<Layer>, rails: RailSet) returns (dead: seq<seq<bool>>)
    requires IsComplex(nv, edges, layers) && rails.Valid(edges)
    ensures HasMarks(layers, dead)
    ensures forall d: Dim :: d <= |layers| ==> MarksTheDead(layers, edges, rails, dead, d)
  {
    hide CellDies, SideDies, AreVerts, HasUniqueEdges, Layer.Valid, RailSet.Valid;
    var deadEdges: seq<bool> := seq(|edges|, e requires 0 <= e < |edges| => e in rails.edges);
    var deadTris: seq<bool> := seq(|layers[1].cells|, _ => false);
    var deadTets: seq<bool> := [];
    if |layers| == 3 {
      deadTets := seq(|layers[2].cells|, _ => false);
      deadTets, deadTris := MarkDeadEnts(layers[2], 3, nv, edges, rails, deadTets, deadTris);
    }
    deadTris, deadEdges := MarkDeadEnts(layers[1], 2, nv, edges, rails, deadTris, deadEdges);
    dead := if |layers| == 3 then [deadEdges, deadTris, deadTets] else [deadEdges, deadTris];
  }

  /** A live entity of a key does not have the vertex that the key collapses onto. */
  lemma LiveLacksOnto(nv: nat, edges: seq<Verts>, layers: seq<Layer>, keys: seq<nat>, rails: RailSet,
      d: Dim, k: nat, c: nat, which: nat, j: nat)
    requires IsComplex(nv, edges, layers) && AreKeys(edges, keys, rails) && k < |keys| && d <= |layers|
    requires c < |layers[d - 1].cells| && which <= d && j <= d && |layers[d - 1].cells[c]| == d + 1
    requires layers[d - 1].cells[c][which] == keys[k] && layers[d - 1].cells[c][j] == Onto(edges, rails, k)
    ensures Dies(layers, edges, rails, d, c)
  {
    if d == 1 {
      OntoIsNoKey(edges, keys, rails, k);
      assert IsKey(keys, keys[k]);
      var rail := rails.edges[k];
      assert edges[c] == [edges[c][0], edges[c][1]] && edges[rail] == [edges[rail][0], edges[rail][1]];
      SameEdge(edges[c], edges[rail]);
      SameEdge(edges[rail], edges[c]);
      assert c == rail;
    } else {
      LayerIsValid(nv, edges, layers, d);
      var nsides := NSides(edges, layers, d);
      BothEndsMeanDead(layers[d - 1], d, nv, edges, nsides, keys, rails, k, c, which, j);
    }
  }

  lemma OthersAreNoKeys(
      nv: nat, edges: seq<Verts>, layers: seq<Layer>, keys: seq<nat>, rails: RailSet,
      d: Dim, k: nat, c: nat, which: nat, j: nat)
    requires IsComplex(nv, edges, layers) && AreKeys(edges, keys, rails) && k < |keys| && d <= |layers|
    requires c < |layers[d - 1].cells| && which <= d && j <= d && j != which && |layers[d - 1].cells[c]| == d + 1
    requires layers[d - 1].cells[c][which] == keys[k]
    ensures !IsKey(keys, layers[d - 1].cells[c][j])
  {
    assert IsKey(keys, keys[k]);
    if d > 1 {
      LayerIsValid(nv, edges, layers, d);
      var nsides := NSides(edges, layers, d);
      OneKeyPerCell(layers[d - 1], d, nv, edges, nsides, keys, rails, c, which, j);
    }
  }

  /** The product of a live entity is never degenerate and names no key. */
  lemma DomainIsSound(nv: nat, edges: seq<Verts>, layers: seq<Layer>, keys: seq<nat>, rails: RailSet,
      d: Dim, k: nat, dead: seq<seq<bool>>, dom: (nat, nat), old2new: seq<int>)
    requires IsComplex(nv, edges, layers) && AreKeys(edges, keys, rails) && k < |keys| && d <= |layers|
    requires HasMarks(layers, dead) && IsDomain(layers[d - 1], d, keys[k], dead[d - 1], dom)
    requires MarksTheDead(layers, edges, rails, dead, d)
    ensures var cell := layers[d - 1].cells[dom.0];
      && |cell| == d + 1 && AreDistinct(cell) && Onto(edges, rails, k) !in cell && !IsKey(keys, Onto(edges, rails, k))
      && forall i :: 0 <= i <= d && i != dom.1 ==> 0 <= cell[i] < nv && !IsKey(keys, cell[i])
  {
    var cell := layers[d - 1].cells[dom.0];
    OntoIsNoKey(edges, keys, rails, k);
    forall i: nat | i <= d && i != dom.1
      ensures 0 <= cell[i] < nv && !IsKey(keys, cell[i])
    {
      OthersAreNoKeys(nv, edges, layers, keys, rails, d, k, dom.0, dom.1, i);
    }
    forall j: nat | j <= d
      ensures cell[j] != Onto(edges, rails, k)
    {
      if cell[j] == Onto(edges, rails, k) {
        LiveLacksOnto(nv, edges, layers, keys, rails, d, k, dom.0, dom.1, j);
      }
    }
  }

  /** The products of one key. */
  ghost predicate AreProducts(layer: Layer, d: Dim, nv: nat, keys: seq<nat>, old2new: seq<int>, onto: int,
      doms: seq<(nat, nat)>, prods: seq<Verts>)
  {
    && |prods| == |doms|
    && forall x :: 0 <= x < |doms| ==> IsProduct(layer, d, nv, keys, old2new, onto, doms[x], prods[x])
  }

  ghost predicate IsProduct(layer: Layer, d: Dim, nv: nat, keys: seq<nat>, old2new: seq<int>, onto: int,
      dom: (nat, nat), prod: Verts)
  {
    && dom.0 < |layer.cells| && dom.1 < |layer.cells[dom.0]|
    && IsSound(d, nv, keys, old2new, OldVerts(layer.cells[dom.0], dom.1, onto), prod)
  }

  method CoarsenDomain(
      ghost nv: nat, ghost edges: seq<Verts>, layers: seq<Layer>, ghost keys: seq<nat>, ghost rails: RailSet,
      d: Dim, ghost k: nat, ghost dead: seq<seq<bool>>, old2new: seq<int>, dom: (nat, nat), onto: int)
    returns (prod: Verts)
    requires IsComplex(nv, edges, layers) && AreKeys(edges, keys, rails) && k < |keys| && d <= |layers|
    requires HasMarks(layers, dead) && IsRenumbering(nv, keys, old2new)
    requires MarksTheDead(layers, edges, rails, dead, d)
    requires IsDomain(layers[d - 1], d, keys[k], dead[d - 1], dom) && onto == Onto(edges, rails, k) && 0 <= onto < nv
    ensures IsProduct(layers[d - 1], d, nv, keys, old2new, onto, dom, prod)
  {
    DomainIsSound(nv, edges, layers, keys, rails, d, k, dead, dom, old2new);
    prod := BuildProduct(layers[d - 1], d, nv, keys, old2new, dom.0, dom.1, onto);
    ProductIsSound(d, nv, keys, old2new, layers[d - 1].cells[dom.0], dom.1, onto, prod);
  }

  lemma OntoIsVertex(nv: nat, edges: seq<Verts>, keys: seq<nat>, rails: RailSet, k: nat)
    requires AreVerts(edges, 2, nv) && AreKeys(edges, keys, rails) && k < |keys|
    ensures 0 <= keys[k] < nv && 0 <= Onto(edges, rails, k) < nv
  {
    assert |edges[rails.edges[k]]| == 2;
  }

  method CoarsenTopology(nv: nat, edges: seq<Verts>, layers: seq<Layer>, keys: seq<nat>, rails: RailSet, d: Dim, k: nat,
      dead: seq<seq<bool>>, old2new: seq<int>)
    returns (doms: seq<(nat, nat)>, prods: seq<Verts>)
    requires IsComplex(nv, edges, layers) && AreKeys(edges, keys, rails) && k < |keys| && d <= |layers|
    requires HasMarks(layers, dead) && IsRenumbering(nv, keys, old2new)
    requires MarksTheDead(layers, edges, rails, dead, d)
    ensures AreDomains(layers[d - 1], d, keys[k], dead[d - 1], doms)
    ensures AreProducts(layers[d - 1], d, nv, keys, old2new, Onto(edges, rails, k), doms, prods)
  {
    var onto := Onto(edges, rails, k);
    OntoIsVertex(nv, edges, keys, rails, k);
    LayerIsValid(nv, edges, layers, d);
    doms := FindDomains(layers[d - 1], d, nv, edges, NSides(edges, layers, d), keys[k], dead[d - 1]);
    prods := BuildProducts(nv, edges, layers, keys, rails, d, k, dead, old2new, doms, onto);
  }

  method BuildProducts(ghost nv: nat, ghost edges: seq<Verts>, layers: seq<Layer>, ghost keys: seq<nat>,
      ghost rails: RailSet, d: Dim, ghost k: nat, ghost dead: seq<seq<bool>>, old2new: seq<int>,
      doms: seq<(nat, nat)>, onto: int)
    returns (prods: seq<Verts>)
    requires IsComplex(nv, edges, layers) && AreKeys(edges, keys, rails) && k < |keys| && d <= |layers|
    requires HasMarks(layers, dead) && IsRenumbering(nv, keys, old2new)
    requires MarksTheDead(layers, edges, rails, dead, d)
    requires AreDomains(layers[d - 1], d, keys[k], dead[d - 1], doms) && onto == Onto(edges, rails, k) && 0 <= onto < nv
    ensures AreProducts(layers[d - 1], d, nv, keys, old2new, onto, doms, prods)
  {
    prods := [];
    for x := 0 to |doms|
      invariant |prods| == x
      invariant forall y :: 0 <= y < x ==> IsProduct(layers[d - 1], d, nv, keys, old2new, onto, doms[y], prods[y])
    {
      var prod := CoarsenDomain(nv, edges, layers, keys, rails, d, k, dead, old2new, doms[x], onto);
      prods := prods + [prod];
    }
  }
}
