/** The adjacencies of a mesh of triangles or tetrahedra, derived from the vertices of its entities (`form_uses`,
    `reflect_down`, `invert_adj`): what the collapse is given. */
module MeshLayers {
  import opened Align
  import opened Canonical
  import opened Inversion
  import opened ReflectDown
  import opened Coarsening
  import opened LiveEntities

  /** The edges of all cells, as lists of vertices. */
  function EdgeUses(d: Dim, cells: seq<Verts>): (uses: seq<Verts>)
    requires forall c :: 0 <= c < |cells| ==> |cells[c]| == d + 1
    ensures |uses| == |cells| * NEdges(d)
  {
    var n := NEdges(d);
    seq(|cells| * n, u requires 0 <= u < |cells| * n =>
      UseIsInCell(|cells|, n, u);
      EdgeUse(d, cells[u / n], u % n))
  }

  /** The sides of all cells. */
  function SideUses(d: Dim, cells: seq<Verts>): (uses: seq<Verts>)
    requires forall c :: 0 <= c < |cells| ==> |cells[c]| == d + 1
    ensures |uses| == |cells| * (d + 1)
  {
    var n := d + 1;
    seq(|cells| * n, u requires 0 <= u < |cells| * n =>
      UseIsInCell(|cells|, n, u);
      SideUse(d, cells[u / n], u % n))
  }

  lemma UseIsInCell(ncells: nat, n: nat, u: nat)
    requires 0 < n && u < ncells * n
    ensures u / n < ncells && u % n < n
  {
    var q := u / n;
    assert q * n <= u;
    assert q >= ncells ==> q * n >= ncells * n;
  }

  lemma UsesAreVerts(d: Dim, cells: seq<Verts>, nv: nat)
    requires AreVerts(cells, d + 1, nv)
    ensures AreVerts(EdgeUses(d, cells), 2, nv) && AreVerts(SideUses(d, cells), d, nv)
  {
    forall u | 0 <= u < |cells| * NEdges(d)
      ensures |EdgeUses(d, cells)[u]| == 2 && forall j :: 0 <= j < 2 ==> 0 <= EdgeUses(d, cells)[u][j] < nv
    {
      UseIsInCell(|cells|, NEdges(d), u);
      EdgeVertsExist(d, u % NEdges(d));
    }
    forall u | 0 <= u < |cells| * (d + 1)
      ensures |SideUses(d, cells)[u]| == d && forall j :: 0 <= j < d ==> 0 <= SideUses(d, cells)[u][j] < nv
    {
      UseIsInCell(|cells|, d + 1, u);
    }
  }

  /** Lists of one entity have the same vertices. */
  lemma SameVertSet(deg: Degree, a: Verts, code: nat, b: Verts)
    requires IsAlignment(deg, a, code, b)
    ensures VertSet(a) == VertSet(b)
  {
    forall v
      ensures v in VertSet(a) <==> v in VertSet(b)
    {
      if v in a {
        var j: nat :| j < |a| && a[j] == v;
        VertsAreAligned(deg, a, code, j);
      }
      if v in b {
        var i: nat :| i < |b| && b[i] == v;
        var j := Source(deg, code, i);
        VertsAreAligned(deg, a, code, j);
      }
    }
  }

  ghost predicate AllFound(deg: Degree, lists: seq<Verts>, uses: seq<Verts>) {
    forall u :: 0 <= u < |uses| ==> HasOnlyOne(deg, lists, uses[u])
  }

  /** The upward adjacency of the vertices. */
  method VertsUp(d: Dim, cells: seq<Verts>, nv: nat) returns (v2c: Adj, ghost lows: seq<nat>, ghost slots: seq<nat>)
    requires AreVerts(cells, d + 1, nv)
    ensures IsUpFrom(d + 1, cells, nv, lows, slots, v2c)
  {
    var flat := Flatten(cells, d + 1, nv);
    lows := flat;
    v2c, slots := InvertAdj(Down(flat, [], d + 1), nv);
  }

  method EdgeLayer(edges: seq<Verts>, nv: nat) returns (layer: Layer)
    requires AreVerts(edges, 2, nv) && AreUses(2, edges)
    ensures layer.cells == edges && layer.Valid(1, nv, edges, 0)
  {
    var v2c;
    ghost var lows, slots;
    v2c, lows, slots := VertsUp(1, edges, nv);
    layer := Layer(edges, v2c, lows, slots, Down([], [], 1), Adj([], [], []), [], []);
  }

  /** What is asked of the lists: vertices of the mesh, none twice in a list. */
  ghost predicate AreLists(d: Dim, lists: seq<Verts>, nv: nat) {
    AreVerts(lists, d + 1, nv) && AreUses(d + 1, lists)
  }

  ghost predicate HasSidesIn(layer: Layer, d: Dim, lower: seq<Verts>) {
    forall c: nat, s: nat {:trigger IsSideIn(layer, d, lower, c, s)} :: IsSideIn(layer, d, lower, c, s)
  }

  ghost predicate IsSideIn(layer: Layer, d: Dim, lower: seq<Verts>, c: nat, s: nat) {
    c < |layer.cells| && s <= d ==>
      && |layer.cells[c]| == d + 1 && c < |layer.cellSides| && s < |layer.cellSides[c]|
      && layer.cellSides[c][s] < |lower|
      && VertSet(lower[layer.cellSides[c][s]]) == VertSet(SideUse(d, layer.cells[c], s))
  }

  lemma SideSlot(ncells: nat, n: nat, c: nat, s: nat)
    requires c < ncells && s < n
    ensures c * n + s < ncells * n
  {
    assert (c + 1) * n <= ncells * n;
  }

  /** A flat list cut into rows of `n`. */
  function RowsOf(flat: seq<nat>, nrows: nat, n: nat): (rows: seq<seq<nat>>)
    requires |flat| == nrows * n
    ensures |rows| == nrows && forall c :: 0 <= c < nrows ==> |rows[c]| == n
  {
    seq(nrows, c requires 0 <= c < nrows => seq(n, s requires 0 <= s < n => SideSlot(nrows, n, c, s); flat[c * n + s]))
  }

  ghost predicate IsCutAt(rows: seq<seq<nat>>, flat: seq<nat>, n: nat, c: nat, s: nat) {
    c < |rows| && s < n ==> |rows[c]| == n && c * n + s < |flat| && rows[c][s] == flat[c * n + s]
  }

  ghost predicate IsCut(rows: seq<seq<nat>>, flat: seq<nat>, n: nat) {
    forall c: nat, s: nat {:trigger IsCutAt(rows, flat, n, c, s)} :: IsCutAt(rows, flat, n, c, s)
  }

  lemma RowsAreCut(flat: seq<nat>, nrows: nat, n: nat)
    requires |flat| == nrows * n
    ensures IsCut(RowsOf(flat, nrows, n), flat, n)
  {
    forall c: nat, s: nat
      ensures IsCutAt(RowsOf(flat, nrows, n), flat, n, c, s)
    {
      if c < nrows && s < n {
        SideSlot(nrows, n, c, s);
      }
    }
  }

  /** The entities of dimension `d` over their edges and their sides; refused exactly if some edge or side of a cell
      is not among them, or more than once. */
  method MakeLayer(d: Dim, cells: seq<Verts>, lower: seq<Verts>, edges: seq<Verts>, nv: nat)
    returns (ok: bool, layer: Layer)
    requires d > 1 && AreLists(d, cells, nv) && AreLists(d - 1, lower, nv) && AreLists(1, edges, nv)
    ensures ok <==> AllFound(2, edges, EdgeUses(d, cells)) && AllFound(d, lower, SideUses(d, cells))
    ensures ok ==> layer.cells == cells && layer.Valid(d, nv, edges, |lower|) && HasSidesIn(layer, d, lower)
  {
    hide EdgeUses, SideUses, HasSidesIn, RowsOf, IsCut;
    UsesAreVerts(d, cells, nv);
    var v2c;
    ghost var lows, slots, eSlots;
    v2c, lows, slots := VertsUp(d, cells, nv);
    layer := Layer(cells, v2c, lows, slots, Down([], [], 1), Adj([], [], []), [], []);
    var found, ce2e, codes := ReflectDown.ReflectDown(2, EdgeUses(d, cells), edges, nv);
    var found', cs2s, sideCodes := ReflectDown.ReflectDown(d, SideUses(d, cells), lower, nv);
    ok := found && found';
    if ok {
      var down := Down(ce2e, codes, NEdges(d));
      var e2c;
      e2c, eSlots := InvertAdj(down, |edges|);
      layer := Layer(cells, v2c, lows, slots, down, e2c, eSlots, RowsOf(cs2s, |cells|, d + 1));
      EdgesAreInPlace(layer, d, edges, nv);
      RowsAreCut(cs2s, |cells|, d + 1);
      SidesAreInPlace(layer, d, lower, cs2s, sideCodes);
    }
  }

  lemma EdgesAreInPlace(layer: Layer, d: Dim, edges: seq<Verts>, nv: nat)
    requires AreLists(d, layer.cells, nv) && layer.down.nlowsPerHigh == NEdges(d)
    requires |layer.down.lows| == |layer.down.codes| == |layer.cells| * NEdges(d)
    requires forall u :: 0 <= u < |layer.down.lows| ==>
      layer.down.lows[u] < |edges|
      && IsAlignment(2, edges[layer.down.lows[u]], layer.down.codes[u], EdgeUses(d, layer.cells)[u])
    ensures forall slot: nat {:trigger layer.HasEdgeAt(d, edges, slot)} :: layer.HasEdgeAt(d, edges, slot)
  {
    forall slot: nat
      ensures layer.HasEdgeAt(d, edges, slot)
    {
      if slot < |layer.down.lows| {
        UseIsInCell(|layer.cells|, NEdges(d), slot);
      }
    }
  }

  lemma SidesAreInPlace(layer: Layer, d: Dim, lower: seq<Verts>, cs2s: seq<nat>, codes: seq<nat>)
    requires d > 1 && (forall c :: 0 <= c < |layer.cells| ==> |layer.cells[c]| == d + 1)
    requires |cs2s| == |codes| == |layer.cells| * (d + 1) && |layer.cellSides| == |layer.cells|
    requires forall u :: 0 <= u < |cs2s| ==>
      cs2s[u] < |lower| && IsAlignment(d, lower[cs2s[u]], codes[u], SideUses(d, layer.cells)[u])
    requires IsCut(layer.cellSides, cs2s, d + 1)
    ensures HasSidesIn(layer, d, lower)
    ensures forall c :: 0 <= c < |layer.cells| ==>
      |layer.cellSides[c]| == d + 1 && forall s :: 0 <= s <= d ==> layer.cellSides[c][s] < |lower|
  {
    forall c: nat, s: nat
      ensures IsSideIn(layer, d, lower, c, s)
    {
      if c < |layer.cells| && s <= d {
        var u := c * (d + 1) + s;
        assert IsCutAt(layer.cellSides, cs2s, d + 1, c, s);
        QuotientAndRest(d + 1, c, s, u);
        SameVertSet(d, lower[cs2s[u]], codes[u], SideUses(d, layer.cells)[u]);
      }
    }
    forall c | 0 <= c < |layer.cells|
      ensures |layer.cellSides[c]| == d + 1 && forall s :: 0 <= s <= d ==> layer.cellSides[c][s] < |lower|
    {
      assert IsCutAt(layer.cellSides, cs2s, d + 1, c, 0);
      forall s | 0 <= s <= d
        ensures layer.cellSides[c][s] < |lower|
      {
        assert IsSideIn(layer, d, lower, c, s);
      }
    }
  }

  /** A mesh of triangles, or of tetrahedra with their triangles, over its edges. */
  method MakeComplex(nv: nat, edges: seq<Verts>, tris: seq<Verts>, tets: seq<Verts>, dim: nat)
    returns (ok: bool, layers: seq<Layer>)
    requires 2 <= dim <= 3 && AreLists(1, edges, nv) && AreLists(2, tris, nv) && AreLists(3, tets, nv)
    requires HasUniqueEdges(edges)
    ensures ok <==>
      && AllFound(2, edges, EdgeUses(2, tris)) && AllFound(2, edges, SideUses(2, tris))
      && (dim == 3 ==> AllFound(2, edges, EdgeUses(3, tets)) && AllFound(3, tris, SideUses(3, tets)))
    ensures ok ==> IsComplex(nv, edges, layers) && HasItsSides(layers) && |layers| == dim
    ensures ok ==> layers[0].cells == edges && layers[1].cells == tris && (dim == 3 ==> layers[2].cells == tets)
  {
    var edgeLayer := EdgeLayer(edges, nv);
    var triLayer;
    ok, triLayer := MakeLayer(2, tris, edges, edges, nv);
    layers := [edgeLayer, triLayer];
    if ok && dim == 3 {
      var tetLayer;
      ok, tetLayer := MakeLayer(3, tets, tris, edges, nv);
      layers := layers + [tetLayer];
    }
    if ok {
      LayersHaveSides(layers);
    }
  }

  lemma LayersHaveSides(layers: seq<Layer>)
    requires 2 <= |layers| <= 3
    requires HasSidesIn(layers[1], 2, layers[0].cells)
    requires |layers| == 3 ==> HasSidesIn(layers[2], 3, layers[1].cells)
    ensures HasItsSides(layers)
  {
    forall d: Dim, c: nat, s: nat
      ensures IsItsSide(layers, d, c, s)
    {
      if 1 < d <= |layers| {
        assert IsSideIn(layers[d - 1], d, layers[d - 2].cells, c, s);
      }
    }
  }
}
