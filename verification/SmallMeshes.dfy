/** Three meshes that collapse: a triangle, a tetrahedron, and three triangles around a vertex. */
module SmallMeshes {
  import opened Align
  import opened Canonical
  import opened Containers
  import opened Inversion
  import opened ReflectDown
  import opened Rails
  import opened Coarsening
  import opened LiveEntities
  import opened MeshLayers
  import opened Collapse

  /** The edges between the first `nv` of four vertices. */
  function EdgesOf(nv: nat): seq<Verts>
    requires 3 <= nv <= 4
  {
    if nv == 3 then [[0, 1], [1, 2], [2, 0]] else [[0, 1], [1, 2], [2, 0], [0, 3], [1, 3], [2, 3]]
  }

  /** The number of the edge between two vertices. */
  function EdgeNumber(a: int, b: int): nat {
    if a == 3 then (if b == 0 then 3 else if b == 1 then 4 else 5)
    else if b == 3 then (if a == 0 then 3 else if a == 1 then 4 else 5)
    else if a + b == 1 then 0 else if a + b == 3 then 1 else 2
  }

  lemma PairSet(list: Verts)
    requires |list| == 2
    ensures VertSet(list) == {list[0], list[1]}
  {
    assert list == [list[0], list[1]];
  }

  lemma TripleSet(list: Verts)
    requires |list| == 3
    ensures VertSet(list) == {list[0], list[1], list[2]}
  {
    assert list == [list[0], list[1], list[2]];
  }

  lemma EdgeIsNumbered(nv: nat, e: nat)
    requires 3 <= nv <= 4 && e < |EdgesOf(nv)|
    ensures |EdgesOf(nv)[e]| == 2 && 0 <= EdgesOf(nv)[e][0] < nv && 0 <= EdgesOf(nv)[e][1] < nv
    ensures EdgesOf(nv)[e][0] != EdgesOf(nv)[e][1]
    ensures EdgeNumber(EdgesOf(nv)[e][0], EdgesOf(nv)[e][1]) == e == EdgeNumber(EdgesOf(nv)[e][1], EdgesOf(nv)[e][0])
  {
  }

  lemma NumberIsEdge(nv: nat, a: int, b: int)
    requires 3 <= nv <= 4 && 0 <= a < nv && 0 <= b < nv && a != b
    ensures EdgeNumber(a, b) < |EdgesOf(nv)|
    ensures EdgesOf(nv)[EdgeNumber(a, b)] == [a, b] || EdgesOf(nv)[EdgeNumber(a, b)] == [b, a]
  {
  }

  lemma EdgesAreLists(nv: nat)
    requires 3 <= nv <= 4
    ensures AreLists(1, EdgesOf(nv), nv) && HasUniqueEdges(EdgesOf(nv))
  {
    var edges := EdgesOf(nv);
    forall e | 0 <= e < |edges|
      ensures |edges[e]| == 2 && AreDistinct(edges[e]) && forall j :: 0 <= j < 2 ==> 0 <= edges[e][j] < nv
    {
      EdgeIsNumbered(nv, e);
    }
    forall d, e | 0 <= d < e < |edges|
      ensures !SameEntity(2, edges[d], edges[e])
    {
      EdgeIsNumbered(nv, d);
      EdgeIsNumbered(nv, e);
      EdgesDiffer(nv, d, edges[e]);
    }
  }

  /** Only the edge with that number has two given vertices. */
  lemma EdgesDiffer(nv: nat, d: nat, use: Verts)
    requires 3 <= nv <= 4 && d < |EdgesOf(nv)| && |use| == 2 && 0 <= use[0] < nv && 0 <= use[1] < nv && use[0] != use[1]
    requires d != EdgeNumber(use[0], use[1])
    ensures !SameEntity(2, EdgesOf(nv)[d], use) && VertSet(EdgesOf(nv)[d]) != VertSet(use)
  {
    EdgeIsNumbered(nv, d);
    var edge := EdgesOf(nv)[d];
    if code :| IsAlignment(2, edge, code, use) {
      EdgeListIs(edge, code, use);
    }
    PairSet(edge);
    PairSet(use);
    assert use[0] in VertSet(use) && use[1] in VertSet(use);
  }

  /** Every pair of vertices has its edge. */
  lemma EdgeIsFound(nv: nat, use: Verts)
    requires 3 <= nv <= 4 && |use| == 2 && 0 <= use[0] < nv && 0 <= use[1] < nv && use[0] != use[1]
    ensures HasOnlyOne(2, EdgesOf(nv), use)
  {
    var e := EdgeNumber(use[0], use[1]);
    NumberIsEdge(nv, use[0], use[1]);
    assert use == [use[0], use[1]];
    SameEdge(EdgesOf(nv)[e], use);
    forall d | 0 <= d < |EdgesOf(nv)| && d != e
      ensures !SameEntity(2, EdgesOf(nv)[d], use)
    {
      EdgesDiffer(nv, d, use);
    }
    assert HasOnly(2, EdgesOf(nv), use, e);
  }

  lemma EdgesAreFound(nv: nat, d: Dim, cells: seq<Verts>)
    requires 3 <= nv <= 4 && d > 1 && AreLists(d, cells, nv)
    ensures AllFound(2, EdgesOf(nv), EdgeUses(d, cells))
    ensures d == 2 ==> AllFound(2, EdgesOf(nv), SideUses(d, cells))
  {
    forall u | 0 <= u < |cells| * NEdges(d)
      ensures HasOnlyOne(2, EdgesOf(nv), EdgeUses(d, cells)[u])
    {
      UseIsInCell(|cells|, NEdges(d), u);
      UseIsPair(d, cells[u / NEdges(d)], nv, u % NEdges(d));
      EdgeIsFound(nv, EdgeUses(d, cells)[u]);
    }
    if d == 2 {
      forall u | 0 <= u < |cells| * 3
        ensures HasOnlyOne(2, EdgesOf(nv), SideUses(d, cells)[u])
      {
        UseIsInCell(|cells|, 3, u);
        UseIsPair(d, cells[u / 3], nv, u % 3);
        SidesOfTriangles(cells[u / 3], u % 3);
        EdgeIsFound(nv, SideUses(d, cells)[u]);
      }
    }
  }

  lemma UseIsPair(d: Dim, cell: Verts, nv: nat, which: nat)
    requires |cell| == d + 1 && AreDistinct(cell) && which < NEdges(d)
    requires forall j :: 0 <= j <= d ==> 0 <= cell[j] < nv
    ensures var use := EdgeUse(d, cell, which); 0 <= use[0] < nv && 0 <= use[1] < nv && use[0] != use[1]
  {
    EdgeVertsExist(d, which);
    assert EdgeVert(d, which, 0) != EdgeVert(d, which, 1);
  }

  lemma NoTwinEdges(nv: nat, b: nat, c: nat)
    requires 3 <= nv <= 4 && b < |EdgesOf(nv)| && c < |EdgesOf(nv)|
    requires VertSet(EdgesOf(nv)[b]) == VertSet(EdgesOf(nv)[c])
    ensures b == c
  {
    EdgeIsNumbered(nv, c);
    if b != c {
      EdgesDiffer(nv, b, EdgesOf(nv)[c]);
    }
  }

  // ----- a triangle -----

  /** A triangle, whichever of its edges collapses: exactly the edges that have the vertex that goes die with it. */
  method CollapseTriangle(rail: nat, dir: nat) returns (layers: seq<Layer>, dead: seq<seq<bool>>)
    requires rail < 3 && dir < 2
    ensures |layers| == 2 && layers[0].cells == [[0, 1], [1, 2], [2, 0]] && layers[1].cells == [[0, 1, 2]]
    ensures layers[1].cellSides == [[0, 1, 2]]
    ensures |dead| == 2 && |dead[0]| == 3 && dead[1] == [true]
    ensures forall e: nat :: e < 3 ==> (dead[0][e] <==> EdgesOf(3)[rail][dir] in EdgesOf(3)[e])
  {
    hide IsComplex, HasItsSides, HasNoTwins, HasUniqueEdges, AllFound, IsDoomed, MarksTheDead;
    var edges, tris: seq<Verts> := EdgesOf(3), [[0, 1, 2]];
    EdgesAreLists(3);
    EdgesAreFound(3, 2, tris);
    var ok;
    ok, layers := MakeComplex(3, edges, tris, [], 2);
    TriangleHasNoTwins(layers);
    TriangleHasSides(layers);
    var rails := RailSet([rail], [dir]);
    EdgeIsNumbered(3, rail);
    dead := MarkAllDead(3, edges, layers, rails);
    MarksAreByVerts(3, edges, layers, rails, dead, 1);
    MarksAreByVerts(3, edges, layers, rails, dead, 2);
    forall e: nat | e < 3
      ensures dead[0][e] <==> edges[rail][dir] in edges[e]
    {
      EdgeOfTriangleDies(layers, rails, e);
    }
    WholeDies(layers, 3, rails, 2);
  }

  /** The rail of an edge is collapsed from one of its ends to the other. */
  lemma RailHasKey(nv: nat, rails: RailSet)
    requires 3 <= nv <= 4 && |rails.edges| == 1 == |rails.dirs| && rails.edges[0] < |EdgesOf(nv)| && rails.dirs[0] < 2
    ensures var key: nat := EdgesOf(nv)[rails.edges[0]][rails.dirs[0]];
      AreKeys(EdgesOf(nv), [key], rails) && key < nv && 0 <= Onto(EdgesOf(nv), rails, 0) < nv
  {
    EdgeIsNumbered(nv, rails.edges[0]);
    var key: nat := EdgesOf(nv)[rails.edges[0]][rails.dirs[0]];
    forall e | 0 <= e < |EdgesOf(nv)|
      ensures |EdgesOf(nv)[e]| == 2 && !(IsKey([key], EdgesOf(nv)[e][0]) && IsKey([key], EdgesOf(nv)[e][1]))
    {
      EdgeIsNumbered(nv, e);
    }
  }

  /** An entity with all vertices has every rail. */
  lemma WholeDies(layers: seq<Layer>, nv: nat, rails: RailSet, d: Dim)
    requires 3 <= nv <= 4 && |rails.edges| == 1 == |rails.dirs| && rails.edges[0] < |EdgesOf(nv)| && rails.dirs[0] < 2
    requires rails.Valid(EdgesOf(nv)) && d <= |layers| && |layers[d - 1].cells| == 1
    requires var cell := layers[d - 1].cells[0]; forall v :: 0 <= v < nv ==> v in cell
    ensures IsDoomed(layers, EdgesOf(nv), rails, d, 0)
  {
    EdgeIsNumbered(nv, rails.edges[0]);
    assert HasRail(EdgesOf(nv), rails, 0, layers[d - 1].cells[0]);
    assert DiesBy(layers, EdgesOf(nv), rails, d, 0, 0);
  }

  /** What has the vertex that goes dies, if adding the one that it goes to gives an entity. */
  lemma DiesWithKey(layers: seq<Layer>, nv: nat, rails: RailSet, d: Dim, c: nat)
    requires 3 <= nv <= 4 && |rails.edges| == 1 == |rails.dirs| && rails.edges[0] < |EdgesOf(nv)| && rails.dirs[0] < 2
    requires rails.Valid(EdgesOf(nv)) && d <= |layers| && c < |layers[d - 1].cells|
    requires var onto := Onto(EdgesOf(nv), rails, 0);
      onto in layers[d - 1].cells[c] || EdgesOf(nv)[rails.edges[0]][rails.dirs[0]] !in layers[d - 1].cells[c]
      || HasFilling(layers, d, onto, c)
    ensures IsDoomed(layers, EdgesOf(nv), rails, d, c) <==>
      EdgesOf(nv)[rails.edges[0]][rails.dirs[0]] in layers[d - 1].cells[c]
  {
    RailHasKey(nv, rails);
    var edges := EdgesOf(nv);
    var key: nat := edges[rails.edges[0]][rails.dirs[0]];
    EndsOfRail(edges, [key], rails, 0, layers[d - 1].cells[c]);
    if IsDoomed(layers, edges, rails, d, c) {
      var k: nat :| k < |rails.edges| && DiesBy(layers, edges, rails, d, c, k);
      KilledHasKey(layers, edges, [key], rails, d, c, k);
    } else if key in layers[d - 1].cells[c] {
      assert !DiesBy(layers, edges, rails, d, c, 0);
      FilledDies(layers, edges, [key], rails, d, c, 0);
    }
  }

  lemma EdgeOfTriangleDies(layers: seq<Layer>, rails: RailSet, e: nat)
    requires |layers| == 2 && layers[0].cells == EdgesOf(3) && layers[1].cells == [[0, 1, 2]] && e < 3
    requires |rails.edges| == 1 == |rails.dirs| && rails.edges[0] < 3 && rails.dirs[0] < 2 && rails.Valid(EdgesOf(3))
    ensures IsDoomed(layers, EdgesOf(3), rails, 1, e) <==> EdgesOf(3)[rails.edges[0]][rails.dirs[0]] in EdgesOf(3)[e]
  {
    RailHasKey(3, rails);
    EdgeIsNumbered(3, e);
    var edge, onto := EdgesOf(3)[e], Onto(EdgesOf(3), rails, 0);
    if onto !in edge {
      PairSet(edge);
      TripleSet([0, 1, 2]);
      var whole := layers[1].cells[0];
      assert VertSet(whole) == VertSet(edge) + {onto};
      assert HasFilling(layers, 1, onto, e);
    }
    DiesWithKey(layers, 3, rails, 1, e);
  }

  lemma TriangleHasNoTwins(layers: seq<Layer>)
    requires |layers| == 2 && layers[0].cells == EdgesOf(3) && layers[1].cells == [[0, 1, 2]]
    ensures HasNoTwins(layers)
  {
    forall d: Dim, b: nat, c: nat | AreTwins(layers, d, b, c)
      ensures b == c
    {
      if d == 1 {
        NoTwinEdges(3, b, c);
      }
    }
  }

  lemma TriangleHasSides(layers: seq<Layer>)
    requires IsComplex(3, EdgesOf(3), layers) && HasItsSides(layers)
    requires |layers| == 2 && layers[0].cells == EdgesOf(3) && layers[1].cells == [[0, 1, 2]]
    ensures layers[1].cellSides == [[0, 1, 2]]
  {
    LayerIsValid(3, EdgesOf(3), layers, 2);
    forall s: nat | s < 3
      ensures layers[1].cellSides[0][s] == s
    {
      assert IsItsSide(layers, 2, 0, s);
      var use := SideUse(2, [0, 1, 2], s);
      assert EdgeNumber(use[0], use[1]) == s;
      if layers[1].cellSides[0][s] != s {
        EdgesDiffer(3, layers[1].cellSides[0][s], use);
      }
    }
    assert layers[1].cellSides[0] == [0, 1, 2];
  }

  // ----- a tetrahedron -----

  /** The sides of a tetrahedron, in order. */
  function FourTris(): seq<Verts> {
    [[0, 2, 1], [0, 1, 3], [1, 2, 3], [2, 0, 3]]
  }

  /** The side that lacks a vertex. */
  function SideWithout(v: int): nat {
    if v == 0 then 2 else if v == 1 then 3 else if v == 2 then 1 else 0
  }

  lemma TriHas(t: nat, v: int)
    requires t < 4
    ensures |FourTris()[t]| == 3 && AreDistinct(FourTris()[t])
    ensures v in FourTris()[t] <==> 0 <= v < 4 && t != SideWithout(v)
    ensures v in VertSet(FourTris()[t]) <==> v in FourTris()[t]
  {
    var tri := FourTris()[t];
    assert tri == [tri[0], tri[1], tri[2]];
  }

  lemma TriVert(t: nat, v: int)
    requires t < 4 && v in FourTris()[t]
    ensures 0 <= v < 4
  {
    TriHas(t, v);
  }

  lemma TrisAreLists()
    ensures AreLists(2, FourTris(), 4)
  {
    var tris := FourTris();
    forall t | 0 <= t < |tris|
      ensures |tris[t]| == 3 && AreDistinct(tris[t]) && forall j :: 0 <= j < 3 ==> 0 <= tris[t][j] < 4
    {
      TriHas(t, 0);
      forall j | 0 <= j < 3
        ensures 0 <= tris[t][j] < 4
      {
        TriVert(t, tris[t][j]);
      }
    }
  }

  lemma NoTwinTris(b: nat, c: nat)
    requires b < 4 && c < 4 && VertSet(FourTris()[b]) == VertSet(FourTris()[c])
    ensures b == c
  {
    var v := if b == 2 then 0 else if b == 3 then 1 else if b == 1 then 2 else 3;
    TriHas(b, v);
    TriHas(c, v);
  }

  lemma SidesAreTris(s: nat)
    requires s < 4
    ensures SideUse(3, [0, 1, 2, 3], s) == FourTris()[s]
  {
  }

  lemma TrisAreFound()
    ensures AllFound(3, FourTris(), SideUses(3, [[0, 1, 2, 3]]))
  {
    var tris, cells: seq<Verts> := FourTris(), [[0, 1, 2, 3]];
    forall u: nat | u < 4
      ensures HasOnlyOne(3, tris, SideUses(3, cells)[u])
    {
      UseIsInCell(1, 4, u);
      SidesAreTris(u);
      assert SideUses(3, cells)[u] == tris[u];
      TriHas(u, 0);
      IsReflexive(3, tris[u]);
      forall t | 0 <= t < |tris| && t != u
        ensures !SameEntity(3, tris[t], tris[u])
      {
        if code :| IsAlignment(3, tris[t], code, tris[u]) {
          SameVertSet(3, tris[t], code, tris[u]);
          NoTwinTris(t, u);
        }
      }
      assert HasOnly(3, tris, tris[u], u);
    }
  }

  ghost predicate IsTetrahedron(layers: seq<Layer>) {
    && |layers| == 3 && layers[0].cells == EdgesOf(4) && layers[1].cells == FourTris()
    && layers[2].cells == [[0, 1, 2, 3]]
  }

  lemma TetrahedronHasNoTwins(layers: seq<Layer>)
    requires IsTetrahedron(layers)
    ensures HasNoTwins(layers)
  {
    hide VertSet;
    forall d: Dim, b: nat, c: nat | AreTwins(layers, d, b, c)
      ensures b == c
    {
      if d == 1 {
        NoTwinEdges(4, b, c);
      } else if d == 2 {
        NoTwinTris(b, c);
      }
    }
  }

  lemma TetrahedronHasSides(layers: seq<Layer>)
    requires IsComplex(4, EdgesOf(4), layers) && HasItsSides(layers) && IsTetrahedron(layers)
    ensures layers[2].cellSides == [[0, 1, 2, 3]]
  {
    LayerIsValid(4, EdgesOf(4), layers, 3);
    hide IsComplex, VertSet;
    forall s: nat | s < 4
      ensures layers[2].cellSides[0][s] == s
    {
      assert IsItsSide(layers, 3, 0, s);
      SidesAreTris(s);
      NoTwinTris(layers[2].cellSides[0][s], s);
    }
    assert layers[2].cellSides[0] == [0, 1, 2, 3];
  }

  lemma EdgeOfTetrahedronDies(layers: seq<Layer>, rails: RailSet, e: nat)
    requires IsTetrahedron(layers) && e < 6
    requires |rails.edges| == 1 == |rails.dirs| && rails.edges[0] < 6 && rails.dirs[0] < 2 && rails.Valid(EdgesOf(4))
    ensures IsDoomed(layers, EdgesOf(4), rails, 1, e) <==> EdgesOf(4)[rails.edges[0]][rails.dirs[0]] in EdgesOf(4)[e]
  {
    RailHasKey(4, rails);
    EdgeIsNumbered(4, e);
    var edge, onto := EdgesOf(4)[e], Onto(EdgesOf(4), rails, 0);
    if onto !in edge {
      PairSet(edge);
      var left := 6 - edge[0] - edge[1] - onto;
      var t := SideWithout(left);
      assert edge[0] in edge && edge[1] in edge;
      forall v
        ensures v in VertSet(FourTris()[t]) <==> v in VertSet(edge) + {onto}
      {
        TriHas(t, v);
      }
      assert HasFilling(layers, 1, onto, e);
    }
    DiesWithKey(layers, 4, rails, 1, e);
  }

  lemma SideOfTetrahedronDies(layers: seq<Layer>, rails: RailSet, t: nat)
    requires IsTetrahedron(layers) && t < 4
    requires |rails.edges| == 1 == |rails.dirs| && rails.edges[0] < 6 && rails.dirs[0] < 2 && rails.Valid(EdgesOf(4))
    ensures IsDoomed(layers, EdgesOf(4), rails, 2, t) <==> EdgesOf(4)[rails.edges[0]][rails.dirs[0]] in FourTris()[t]
  {
    RailHasKey(4, rails);
    var tri, onto := FourTris()[t], Onto(EdgesOf(4), rails, 0);
    if onto !in tri {
      var whole: Verts := layers[2].cells[0];
      forall v
        ensures v in VertSet(whole) <==> v in VertSet(tri) + {onto}
      {
        TriHas(t, v);
        TriHas(t, onto);
      }
      assert HasFilling(layers, 2, onto, t);
    }
    DiesWithKey(layers, 4, rails, 2, t);
  }

  /** A tetrahedron, whichever of its edges collapses: exactly what has the vertex that goes dies with it. */
  method CollapseTetrahedron(rail: nat, dir: nat) returns (layers: seq<Layer>, dead: seq<seq<bool>>)
    requires rail < 6 && dir < 2
    ensures |layers| == 3 && layers[0].cells == [[0, 1], [1, 2], [2, 0], [0, 3], [1, 3], [2, 3]]
    ensures layers[1].cells == [[0, 2, 1], [0, 1, 3], [1, 2, 3], [2, 0, 3]] && layers[2].cells == [[0, 1, 2, 3]]
    ensures layers[2].cellSides == [[0, 1, 2, 3]]
    ensures |dead| == 3 && |dead[0]| == 6 && |dead[1]| == 4 && dead[2] == [true]
    ensures forall e: nat :: e < 6 ==> (dead[0][e] <==> EdgesOf(4)[rail][dir] in EdgesOf(4)[e])
    ensures forall t: nat :: t < 4 ==> (dead[1][t] <==> EdgesOf(4)[rail][dir] in FourTris()[t])
  {
    hide IsComplex, HasItsSides, HasNoTwins, HasUniqueEdges, AllFound, IsDoomed, MarksTheDead;
    var edges, tris, tets: seq<Verts> := EdgesOf(4), FourTris(), [[0, 1, 2, 3]];
    EdgesAreLists(4);
    TrisAreLists();
    EdgesAreFound(4, 2, tris);
    EdgesAreFound(4, 3, tets);
    TrisAreFound();
    var ok;
    ok, layers := MakeComplex(4, edges, tris, tets, 3);
    TetrahedronHasNoTwins(layers);
    TetrahedronHasSides(layers);
    var rails := RailSet([rail], [dir]);
    EdgeIsNumbered(4, rail);
    dead := MarkAllDead(4, edges, layers, rails);
    MarksAreByVerts(4, edges, layers, rails, dead, 1);
    MarksAreByVerts(4, edges, layers, rails, dead, 2);
    MarksAreByVerts(4, edges, layers, rails, dead, 3);
    forall e: nat | e < 6
      ensures dead[0][e] <==> edges[rail][dir] in edges[e]
    {
      EdgeOfTetrahedronDies(layers, rails, e);
    }
    forall t: nat | t < 4
      ensures dead[1][t] <==> edges[rail][dir] in tris[t]
    {
      SideOfTetrahedronDies(layers, rails, t);
    }
    WholeDies(layers, 4, rails, 3);
  }

  // ----- three triangles around a vertex -----

  function ThreeTris(): seq<Verts> {
    [[0, 1, 3], [1, 2, 3], [2, 0, 3]]
  }

  ghost predicate IsFan(layers: seq<Layer>) {
    |layers| == 2 && layers[0].cells == EdgesOf(4) && layers[1].cells == ThreeTris()
  }

  lemma FanTriHas(t: nat, v: int)
    requires t < 3
    ensures |ThreeTris()[t]| == 3 && AreDistinct(ThreeTris()[t])
    ensures v in ThreeTris()[t] <==> 0 <= v < 4 && v != (t + 2) % 3
    ensures v in VertSet(ThreeTris()[t]) <==> v in ThreeTris()[t]
  {
    var tri := ThreeTris()[t];
    assert tri == [tri[0], tri[1], tri[2]];
  }

  lemma FanTriVert(t: nat, v: int)
    requires t < 3 && v in ThreeTris()[t]
    ensures 0 <= v < 4
  {
    FanTriHas(t, v);
  }

  lemma FanIsList()
    ensures AreLists(2, ThreeTris(), 4)
  {
    var tris := ThreeTris();
    forall t | 0 <= t < |tris|
      ensures |tris[t]| == 3 && AreDistinct(tris[t]) && forall j :: 0 <= j < 3 ==> 0 <= tris[t][j] < 4
    {
      FanTriHas(t, 0);
      forall j | 0 <= j < 3
        ensures 0 <= tris[t][j] < 4
      {
        FanTriVert(t, tris[t][j]);
      }
    }
  }

  lemma FanHasNoTwins(layers: seq<Layer>)
    requires IsFan(layers)
    ensures HasNoTwins(layers)
  {
    hide VertSet;
    forall d: Dim, b: nat, c: nat | AreTwins(layers, d, b, c)
      ensures b == c
    {
      if d == 1 {
        NoTwinEdges(4, b, c);
      } else {
        FanTriHas(b, (b + 2) % 3);
        FanTriHas(c, (b + 2) % 3);
      }
    }
  }

  /** Vertices 0, 1 and 2 have all edges between them, and no triangle. */
  lemma FanBreaksLink(layers: seq<Layer>)
    requires IsFan(layers)
    ensures !LinkHolds(layers, 1, 1, 0)
  {
    PairSet(layers[0].cells[1]);
    PairSet(layers[0].cells[2]);
    assert IsLink(layers, 1, 1, 0, 1, 2);
    if HasFilling(layers, 1, 0, 1) {
      var a: nat :| a < |layers[1].cells| && VertSet(layers[1].cells[a]) == VertSet(layers[0].cells[1]) + {0};
      FanTriHas(a, 3);
    }
  }

  ghost predicate IsFanMesh(m: EdgeMesh, c: Cands) {
    && m.nv == 4 && m.edges == EdgesOf(4) && m.lengths == [1.0, 1.0, 1.0, 1.0, 1.0, 1.0]
    && m.globals == [0, 1, 2, 3, 4, 5] && IsUpFrom(2, m.edges, 4, m.lows, m.slots, m.v2e)
    && c == Cands([Some(0), None, None, None, None, None], [COLLAPSE_RIGHT], [0.0, 1.0])
  }

  lemma FanMeshIsValid(m: EdgeMesh, c: Cands)
    requires IsFanMesh(m, c)
    ensures m.Valid() && m.HasUniqueGlobals() && c.Valid(6)
  {
    EdgesAreLists(4);
  }

  /** Vertex 1 may collapse onto vertex 0. */
  lemma FanHasCandidate(m: EdgeMesh, c: Cands)
    requires IsFanMesh(m, c)
    ensures IsCandidate(m, c, 1)
  {
    FanMeshIsValid(m, c);
    assert IsSlotOf(m.edges, 2, m.lows, 1);
    RowHasSlot(Down(m.lows, [], 2), 4, m.slots, m.v2e.a2ab, 1, 1);
    assert IsIn(m.lows, 1, 1);
    var from := m.v2e.a2ab[1];
    var row := m.slots[from..m.v2e.a2ab[2]];
    var k :| 0 <= k < |row| && row[k] == 1;
    var p: nat := from + k;
    assert m.slots[p] == 1;
    CodeUnpacks(false, 0, 1);
    assert c.Collapses(0, 1);
    assert IsPermitted(m, c, 1, p);
  }

  lemma FanIsIndependent(m: EdgeMesh, c: Cands, marks: seq<bool>)
    requires IsFanMesh(m, c) && marks == [false, true, false, false]
    ensures IsIndependent(m, c, marks)
  {
    FanHasCandidate(m, c);
    forall e | 0 <= e < |m.edges|
      ensures |m.edges[e]| == 2 && !(IsChosen(marks, m.edges[e][0]) && IsChosen(marks, m.edges[e][1]))
    {
      EdgeIsNumbered(4, e);
    }
  }

  lemma KeysDiffer(marks: seq<bool>, keys: seq<nat>, i: nat, j: nat)
    requires AreChosen(marks, keys) && i < j < |keys|
    ensures keys[i] != keys[j]
  {
  }

  lemma FanRail(m: EdgeMesh, c: Cands, marks: seq<bool>, keys: seq<nat>, rails: RailSet)
    requires IsFanMesh(m, c) && marks == [false, true, false, false]
    requires AreChosen(marks, keys) && AreRails(m, c, keys, rails)
    ensures keys == [1] && rails == RailSet([0], [1])
  {
    assert IsChosen(marks, 1) && !IsChosen(marks, 0) && !IsChosen(marks, 2) && !IsChosen(marks, 3);
    forall k | 0 <= k < |keys|
      ensures keys[k] == 1 && rails.edges[k] == 0 && rails.dirs[k] == 1
    {
      assert IsKey(keys, keys[k]);
      assert IsChosen(marks, keys[k]);
      assert IsRailOf(m, c, keys[k], rails.edges[k], rails.dirs[k]);
      var ve: nat :| IsRailEntry(m, c, keys[k], rails.edges[k], rails.dirs[k], ve);
    }
    assert IsKey(keys, 1);
    if 1 < |keys| {
      KeysDiffer(marks, keys, 0, 1);
    }
    assert rails.edges == [0] && rails.dirs == [1];
  }

  /** Vertex 1 collapses onto vertex 0, and the edge from 1 to 2 becomes one from 0 to 2, which there is already. */
  method CollapseFan()
    returns (layers: seq<Layer>, keys: seq<nat>, rails: RailSet, dead: seq<seq<bool>>, prods: seq<seq<seq<Verts>>>)
    ensures layers != [] && IsFan(layers) && keys == [1] && rails == RailSet([0], [1])
    ensures |prods| == 2 && |prods[0]| == 1
    ensures var built := prods[0][0];
      exists x :: 0 <= x < |built| && IsThere(layers, keys, [0, -1, 1, 2], dead, 1, built[x])
  {
    hide IsComplex, HasItsSides, HasNoTwins, HasUniqueEdges, AllFound, IsUpFrom, AreRails, IsThere, LinkHolds,
      IsIndependent;
    var edges, tris: seq<Verts> := EdgesOf(4), ThreeTris();
    EdgesAreLists(4);
    FanIsList();
    EdgesAreFound(4, 2, tris);
    var ok;
    ok, layers := MakeComplex(4, edges, tris, [], 2);
    FanHasNoTwins(layers);
    FanBreaksLink(layers);
    var v2e;
    ghost var lows, slots;
    v2e, lows, slots := VertsUp(1, edges, 4);
    var m := EdgeMesh(4, edges, [1.0, 1.0, 1.0, 1.0, 1.0, 1.0], [0, 1, 2, 3, 4, 5], v2e, lows, slots);
    var c := Cands([Some(0), None, None, None, None, None], [COLLAPSE_RIGHT], [0.0, 1.0]);
    FanMeshIsValid(m, c);
    var marks := [false, true, false, false];
    FanIsIndependent(m, c, marks);
    var doms;
    keys, rails, dead, doms, prods := CollapseEdges(m, c, layers, marks, [0, -1, 1, 2]);
    FanRail(m, c, marks, keys, rails);
    assert IsSoundIn(m, layers, keys, rails, [0, -1, 1, 2], dead, 1, prods);
    assert AreFresh(layers, edges, keys, rails, [0, -1, 1, 2], dead, 1, 0, prods[0][0]);
  }
}
