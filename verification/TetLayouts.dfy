/** What the numbering of control points means for curved tetrahedra: the map of a tetrahedron by the list of its
    control points, and the check of a straight tetrahedron. */
module TetLayouts {
  import opened Polynomials
  import opened Bernstein
  import opened NodeNumbering
  import opened Surfaces
  import opened Layouts
  import opened TetValidity
  import opened TetCheck
  import Vandermonde

  // ----- the map -----

  /** Coordinate `d` of the points, in their order. */
  function Coordinates(nodes: seq<real>, d: nat): (cs: seq<real>)
    requires d < 3
    ensures |cs| == |nodes| / 3 && forall t :: 0 <= t < |cs| ==> cs[t] == nodes[3 * t + d]
  {
    seq(|nodes| / 3, t requires 0 <= t < |nodes| / 3 => nodes[3 * t + d])
  }

  /** Coordinate `d` of the point of the tetrahedron at `x`. */
  ghost function TetMap(nodes: seq<real>, p: nat, d: nat, x: Point): real
    requires HoldsTetrahedron(nodes, p)
  {
    Form(p, Weighted(p, Values(nodes, p, d)), x)
  }

  lemma PointInList(nodes: seq<real>, p: nat, d: nat, i: int, j: int, k: int)
    requires HoldsTetrahedron(nodes, p) && InTetrahedron(p, i, j, k) && d < 3
    ensures 0 <= ComputeTetNodeIndex(p, i, j, k) < |nodes| / 3
    ensures Component(ControlPoint(nodes, p, i, j, k), d) == Coordinates(nodes, d)[ComputeTetNodeIndex(p, i, j, k)]
    ensures Values(nodes, p, d)(i, j, k) == Coordinates(nodes, d)[ComputeTetNodeIndex(p, i, j, k)]
  {
    hide ComputeTetNodeIndex;
    TetIndexInverts(p, i, j, k);
    assert IsControlValue(Values(nodes, p, d), nodes, p, d, i, j, k);
  }

  /** An edge is the Bezier curve of the corners at its ends and the run of points listed for it. */
  lemma EdgeIsCurveOfRun(nodes: seq<real>, p: nat, d: nat, e: nat, u: real, v: real)
    requires HoldsTetrahedron(nodes, p) && d < 3 && e < 6
    ensures TetMap(nodes, p, d, OnEdge(e, u, v)) == Curve(TetEdge(Coordinates(nodes, d), p, e), u, v)
  {
    hide TetEdge, Curve, Form, ComputeTetNodeIndex, ControlPoint, Values, AlongEdge;
    var edge := TetEdge(Coordinates(nodes, d), p, e);
    forall m: nat | m <= p
      ensures edge[m] == ValueAt(Values(nodes, p, d), AlongEdge(p, e, m))
    {
      var at := AlongEdge(p, e, m);
      AlongEdgeIsInside(p, e, m);
      TetEdgeAt(Coordinates(nodes, d), p, e, m);
      PointInList(nodes, p, d, at.i, at.j, at.k);
    }
    EdgeIsCurve(p, Values(nodes, p, d), e, u, v, edge);
  }

  lemma AlongEdgeIsInside(p: nat, e: nat, m: nat)
    requires m <= p
    ensures var at := AlongEdge(p, e, m); InTetrahedron(p, at.i, at.j, at.k)
  {
  }

  /** A face is the Bezier triangle of its corners, its sides and the run of points listed for it. */
  lemma FaceIsSurfaceOfRun(nodes: seq<real>, p: nat, d: nat, f: nat, u: real, v: real, w: real)
    requires HoldsTetrahedron(nodes, p) && d < 3 && f < 4
    ensures TetMap(nodes, p, d, OnFace(f, u, v, w)) ==
      Surface(TriRows(FaceList(Coordinates(nodes, d), p, f), p), u, v, w)
  {
    hide FaceList, TriRow, Surface, Form, ComputeTetNodeIndex, ControlPoint, Values;
    var rows := TriRows(FaceList(Coordinates(nodes, d), p, f), p);
    forall k: nat, j: nat | k <= p && j < |rows[k]|
      ensures rows[k][j] == ValueAt(Values(nodes, p, d), InFace(p, f, k, j))
    {
      var at := InFace(p, f, k, j);
      FaceRowAt(Coordinates(nodes, d), p, f, k, j);
      PointInList(nodes, p, d, at.i, at.j, at.k);
    }
    FaceIsSurface(p, Values(nodes, p, d), f, u, v, w, rows);
  }

  lemma CornerWeight(p: nat, t: nat)
    requires 1 <= p && t < 4
    ensures var at := CornerPlace(p, t);
      InTetrahedron(p, at.i, at.j, at.k) && Quadnomial(p, at.i, at.j, at.k) == 1
      && ComputeTetNodeIndex(p, at.i, at.j, at.k) == t
  {
  }

  /** The corners are the first four points of the list. */
  lemma CornersAreFirst(nodes: seq<real>, p: nat, d: nat, t: nat)
    requires HoldsTetrahedron(nodes, p) && d < 3 && t < 4
    ensures TetMap(nodes, p, d, CornerAt(t)) == nodes[3 * t + d]
  {
    hide ComputeTetNodeIndex, Form, Quadnomial, Values, Weighted;
    var b, at := Values(nodes, p, d), CornerPlace(p, t);
    CornerWeight(p, t);
    PointInList(nodes, p, d, at.i, at.j, at.k);
    WeightedFrom(p, b, at.i, at.j, at.k, 1.0, ValueAt(b, at));
    FormAtCorner(p, Weighted(p, b), t);
  }

  /** The point of layer `q`, row `l` and column `k` inside. */
  function InsideValue(list: seq<real>, p: nat, q: nat, l: nat, k: nat): real
    requires 1 <= p && TetCount(p) <= |list| && q < p && 0 < l && 0 < k && l + k < q
  {
    TriplesGrow(q, p - 1);
    InnerRow(InnerLayer(Inside(list, p), 3, q), q - 2, l)[k - 1]
  }

  /** Inside, the control values are the layers of the run listed last. */
  lemma InsideIsLayers(nodes: seq<real>, p: nat, d: nat, i: nat, j: nat, k: nat, l: nat)
    requires HoldsTetrahedron(nodes, p) && d < 3 && 0 < i && 0 < j && 0 < k && 0 < l && i + j + k + l == p
    ensures Values(nodes, p, d)(i, j, k) == InsideValue(Coordinates(nodes, d), p, p - i, l, k)
  {
    hide Values, ComputeTetNodeIndex, InnerRow, InnerLayer;
    InsideAt(Coordinates(nodes, d), p, i, j, k);
    PointInList(nodes, p, d, i, j, k);
  }

  /** The codes 2 to 5 tell of the sign of the determinant at the four corners. */
  lemma CornerDeterminants(nodes: seq<real>, p: nat, n: nat, t: nat)
    requires HoldsTetrahedron(nodes, p) && n == 3 * (p - 1) && t < 4
    ensures TetJacobian(nodes, p, CornerAt(t)) == ValueAt(TetCoefficients(nodes, p), CornerPlace(n, t))
    ensures 1 <= n ==> var at := CornerPlace(n, t); GroupOf(n, at.i, at.j, at.k) == 2 + t
  {
    hide TetJacobian, TetCoefficients, Form;
    JacobianHasCoefficients(nodes, p, CornerAt(t), n);
    FormAtCorner(n, TetCoefficients(nodes, p), t);
  }

  // ----- straight tetrahedra -----

  /** `y` is where a straight element of order `p` has the point with these exponents. */
  ghost predicate IsBlend(p: nat, i: nat, j: nat, k: nat, l: nat, y: real, a: real, b: real, c: real, d: real) {
    p as real * y == i as real * a + j as real * b + k as real * c + l as real * d
  }

  /** The rows of the faces divide the triangles of their corners evenly. */
  ghost predicate HasStraightFaces(list: seq<real>, p: nat)
    requires 1 <= p && TetCount(p) <= |list|
  {
    forall f: nat, k: nat, j: nat {:trigger TriRow(FaceList(list, p, f), p, k)[j]} :: f < 4 && k + j <= p ==>
      var c := FaceCorners(list, f);
      IsBlend(p, p - k - j, j, k, 0, TriRow(FaceList(list, p, f), p, k)[j], c[0], c[1], c[2], 0.0)
  }

  /** The layers inside divide the tetrahedron of the corners evenly. */
  ghost predicate HasStraightInside(list: seq<real>, p: nat)
    requires 1 <= p && TetCount(p) <= |list|
  {
    forall q: nat, l: nat, k: nat :: q < p && 0 < l && 0 < k && l + k < q ==>
      IsBlend(p, p - q, q - l - k, k, l, InsideValue(list, p, q, l, k), list[0], list[1], list[2], list[3])
  }

  ghost predicate IsStraight(nodes: seq<real>, p: nat)
    requires HoldsTetrahedron(nodes, p)
  {
    forall d: nat :: d < 3 ==>
      HasStraightFaces(Coordinates(nodes, d), p) && HasStraightInside(Coordinates(nodes, d), p)
  }

  lemma FacePointIsBlend(list: seq<real>, p: nat, f: nat, i: nat, j: nat, k: nat, l: nat)
    requires 1 <= p && TetCount(p) <= |list| && HasStraightFaces(list, p) && f < 4 && i + j + k + l == p
    requires if f == 0 then l == 0 else if f == 1 then k == 0 else if f == 2 then i == 0 else j == 0
    ensures 0 <= ComputeTetNodeIndex(p, i, j, k) < |list|
    ensures IsBlend(p, i, j, k, l, list[ComputeTetNodeIndex(p, i, j, k)], list[0], list[1], list[2], list[3])
  {
    hide ComputeTetNodeIndex, FaceList, TriRow;
    var row, column := if f == 0 then k else l, if f <= 1 then j else k;
    FaceRowAt(list, p, f, row, column);
    var c := FaceCorners(list, f);
    var y := TriRow(FaceList(list, p, f), p, row)[column];
    assert IsBlend(p, p - row - column, column, row, 0, y, c[0], c[1], c[2], 0.0);
  }

  lemma InsidePointIsBlend(list: seq<real>, p: nat, i: nat, j: nat, k: nat, l: nat)
    requires 1 <= p && TetCount(p) <= |list| && HasStraightInside(list, p)
    requires 0 < i && 0 < j && 0 < k && 0 < l && i + j + k + l == p
    ensures 0 <= ComputeTetNodeIndex(p, i, j, k) < |list|
    ensures IsBlend(p, i, j, k, l, list[ComputeTetNodeIndex(p, i, j, k)], list[0], list[1], list[2], list[3])
  {
    hide ComputeTetNodeIndex, InnerRow, InnerLayer, IsBlend;
    InsideAt(list, p, i, j, k);
    var q := p - i;
    assert IsBlend(p, p - q, q - l - k, k, l, InsideValue(list, p, q, l, k), list[0], list[1], list[2], list[3]);
  }

  /** Coordinate `d` of corner `t`. */
  function Corner(nodes: seq<real>, t: nat, d: nat): real
    requires 12 <= |nodes| && t < 4 && d < 3
  {
    nodes[3 * t + d]
  }

  lemma PointIsBlend(nodes: seq<real>, p: nat, d: nat, i: nat, j: nat, k: nat, l: nat)
    requires HoldsTetrahedron(nodes, p) && IsStraight(nodes, p) && d < 3 && i + j + k + l == p
    ensures IsBlend(p, i, j, k, l, Component(ControlPoint(nodes, p, i, j, k), d),
      Corner(nodes, 0, d), Corner(nodes, 1, d), Corner(nodes, 2, d), Corner(nodes, 3, d))
  {
    hide IsBlend, ControlPoint, HasStraightFaces, HasStraightInside;
    var list := Coordinates(nodes, d);
    PointInList(nodes, p, d, i, j, k);
    if l == 0 {
      FacePointIsBlend(list, p, 0, i, j, k, l);
    } else if k == 0 {
      FacePointIsBlend(list, p, 1, i, j, k, l);
    } else if i == 0 {
      FacePointIsBlend(list, p, 2, i, j, k, l);
    } else if j == 0 {
      FacePointIsBlend(list, p, 3, i, j, k, l);
    } else {
      InsidePointIsBlend(list, p, i, j, k, l);
    }
  }

  /** One step from the first corner towards corner `v`. */
  lemma BlendSteps(
      p: nat, v: nat, i: nat, j: nat, k: nat, l: nat, high: real, low: real, a: real, b: real, c: real, d: real)
    requires 1 <= v < 4 && i + j + k + l == p - 1 && IsBlend(p, i + 1, j, k, l, low, a, b, c, d)
    requires IsBlend(p, i, j + Unit(v, 1), k + Unit(v, 2), l + Unit(v, 3), high, a, b, c, d)
    ensures p as real * (high - low) == (if v == 1 then b else if v == 2 then c else d) - a
  {
    var q := p as real;
    assert q * (high - low) == q * high - q * low;
    assert (i + 1) as real * a == i as real * a + a;
    if v == 1 {
      assert (j + 1) as real * b == j as real * b + b;
    } else if v == 2 {
      assert (k + 1) as real * c == k as real * c + c;
    } else {
      assert (l + 1) as real * d == l as real * d + d;
    }
  }

  /** Corner `v` less the first. */
  function Edge(nodes: seq<real>, v: nat): Vector3
    requires 12 <= |nodes| && v < 4
  {
    Minus3(GetVector3(nodes, v), GetVector3(nodes, 0))
  }

  lemma StepIsShare(nodes: seq<real>, p: nat, v: nat, e: Exps, d: nat, high: real, low: real)
    requires HoldsTetrahedron(nodes, p) && IsStraight(nodes, p) && IsLegal(p, e) && 1 <= v < 4 && d < 3
    requires high == Component(PointAlong(nodes, p, v, e), d) && low == Component(PointAlong(nodes, p, 0, e), d)
    ensures p as real * (high - low) == Component(Edge(nodes, v), d)
  {
    hide IsBlend, ControlPoint, IsStraight;
    var i, j, k: int := e.i, e.j, e.k;
    var l := p - 1 - i - j - k;
    PointIsBlend(nodes, p, d, i + 1, j, k, l);
    PointIsBlend(nodes, p, d, i, j + Unit(v, 1), k + Unit(v, 2), l + Unit(v, 3));
    BlendSteps(p, v, i, j, k, l, high, low,
      Corner(nodes, 0, d), Corner(nodes, 1, d), Corner(nodes, 2, d), Corner(nodes, 3, d));
  }

  lemma DifferenceIsShare(nodes: seq<real>, p: nat, v: nat, e: Exps, q: real) returns (a: Vector3)
    requires HoldsTetrahedron(nodes, p) && IsStraight(nodes, p) && IsLegal(p, e) && 1 <= v < 4 && q == p as real
    ensures a == Minus3(PointAlong(nodes, p, v, e), PointAlong(nodes, p, 0, e))
    ensures q * a.x == Edge(nodes, v).x && q * a.y == Edge(nodes, v).y && q * a.z == Edge(nodes, v).z
  {
    hide ControlPoint, IsStraight, Edge;
    var high, low := PointAlong(nodes, p, v, e), PointAlong(nodes, p, 0, e);
    a := Minus3(high, low);
    StepIsShare(nodes, p, v, e, 0, high.x, low.x);
    StepIsShare(nodes, p, v, e, 1, high.y, low.y);
    StepIsShare(nodes, p, v, e, 2, high.z, low.z);
  }

  /** Six times the volume of the tetrahedron of the corners, with its sign. */
  function Volume(nodes: seq<real>): real
    requires 12 <= |nodes|
  {
    Dot3(Cross3(Edge(nodes, 1), Edge(nodes, 2)), Edge(nodes, 3))
  }

  lemma DeterminantScales(q: real, s: real, a: Vector3, b: Vector3, c: Vector3, a': Vector3, b': Vector3, c': Vector3)
    requires a'.x == q * a.x && a'.y == q * a.y && a'.z == q * a.z
    requires b'.x == q * b.x && b'.y == q * b.y && b'.z == q * b.z
    requires c'.x == q * c.x && c'.y == q * c.y && c'.z == q * c.z && s == Cube(q)
    ensures Dot3(Cross3(a', b'), c') == s * Dot3(Cross3(a, b), c)
  {
    hide Times3, Dot3, Cross3, Cube;
    TripleExpands(a, b, c);
    TripleScales(q, s, a', a, b', b, c', c, Times3(a.y, b.z, c.x), Times3(a.z, b.y, c.x), Times3(a.z, b.x, c.y),
      Times3(a.x, b.z, c.y), Times3(a.x, b.y, c.z), Times3(a.y, b.x, c.z), Dot3(Cross3(a, b), c));
  }

  /** All partial determinants are the same share of the volume. */
  lemma DeterminantIsShare(nodes: seq<real>, p: nat, e1: Exps, e2: Exps, e3: Exps)
    requires HoldsTetrahedron(nodes, p) && IsStraight(nodes, p)
    requires IsLegal(p, e1) && IsLegal(p, e2) && IsLegal(p, e3)
    ensures Cube(p as real) * GetTetPartialJacobianDet(nodes, p, e1, e2, e3) == Volume(nodes)
  {
    hide ControlPoint, IsStraight, Cross3, Dot3, Cube, Edge;
    var q := p as real;
    var a := DifferenceIsShare(nodes, p, 1, e1, q);
    var b := DifferenceIsShare(nodes, p, 2, e2, q);
    var c := DifferenceIsShare(nodes, p, 3, e3, q);
    PartialDetFrom(nodes, p, e1, e2, e3, a, b, c);
    DeterminantScales(q, Cube(q), a, b, c, Edge(nodes, 1), Edge(nodes, 2), Edge(nodes, 3));
  }

  lemma CubeIsPositive(p: nat)
    requires 1 <= p
    ensures Cube(p as real) > 0.0
  {
    var q := p as real;
    assert q * q > 0.0;
  }

  lemma HasCorners(nodes: seq<real>, p: nat)
    requires HoldsTetrahedron(nodes, p)
    ensures 1 <= p && 12 <= |nodes|
  {
  }

  lemma SharesAgree(s: real, det: real, partial: real, volume: real)
    requires s > 0.0 && s * partial == volume && s * det == volume
    ensures partial == det
  {
    assert s * (partial - det) == 0.0;
  }

  lemma OneDeterminant(nodes: seq<real>, p: nat, det: real, s: real)
    requires HoldsTetrahedron(nodes, p) && IsStraight(nodes, p)
    requires s == Cube(p as real) > 0.0 && s * det == Volume(nodes)
    ensures Vandermonde.HasOneDeterminant(nodes, p, det)
  {
    hide IsStraight, Volume, Cube, GetTetPartialJacobianDet, HoldsTetrahedron;
    HasCorners(nodes, p);
    forall e1, e2, e3 | IsLegal(p, e1) && IsLegal(p, e2) && IsLegal(p, e3)
      ensures GetTetPartialJacobianDet(nodes, p, e1, e2, e3) == det
    {
      var partial := GetTetPartialJacobianDet(nodes, p, e1, e2, e3);
      DeterminantIsShare(nodes, p, e1, e2, e3);
      SharesAgree(s, det, partial, Volume(nodes));
    }
  }

  lemma ShareOf(s: real, volume: real) returns (det: real)
    requires s > 0.0
    ensures s * det == volume
  {
    det := volume / s;
  }

  /** Every value that the check of a straight tetrahedron looks at is its volume, six times. */
  lemma StraightValues(nodes: seq<real>, p: nat, c: Exps, node: real)
    requires HoldsTetrahedron(nodes, p) && IsStraight(nodes, p)
    requires InTetrahedron(3 * (p - 1), c.i, c.j, c.k) && IsTetNode(nodes, p, c, node)
    ensures node == Volume(nodes)
  {
    hide IsStraight, Volume, Cube, IsTetNode, Vandermonde.HasOneDeterminant, HoldsTetrahedron, InTetrahedron;
    HasCorners(nodes, p);
    var s := Cube(p as real);
    CubeIsPositive(p);
    var det := ShareOf(s, Volume(nodes));
    OneDeterminant(nodes, p, det, s);
    Vandermonde.OneDeterminantOneValue(nodes, p, det, c, node);
  }

  lemma NodeOf(c: real, whole: real) returns (node: real)
    requires 0.0 < c
    ensures IsShareOf(node, c, whole)
  {
    node := whole / c;
  }

  lemma StraightSign(nodes: seq<real>, p: nat, c: Exps)
    requires HoldsTetrahedron(nodes, p) && IsStraight(nodes, p) && InTetrahedron(3 * (p - 1), c.i, c.j, c.k)
    ensures 0.0 <= TetCoefficients(nodes, p)(c.i, c.j, c.k) <==> 0.0 <= Volume(nodes)
  {
    hide IsStraight, Volume, TetCoefficients, Quadnomial, IsShareOf;
    var n := 3 * (p - 1);
    QuadnomialIsPositive(n, c.i, c.j, c.k);
    var node := NodeOf(Quadnomial(n, c.i, c.j, c.k) as real, TetCoefficients(nodes, p)(c.i, c.j, c.k));
    StraightValues(nodes, p, c, node);
    SignOfNode(nodes, p, c, node);
  }

  /** So a straight tetrahedron is accepted, in both modes, exactly if its volume is not negative, and the first corner
      is what is reported otherwise. */
  lemma StraightVerdict(nodes: seq<real>, p: nat, n: nat, groups: nat, code: int)
    requires 2 <= p && HoldsTetrahedron(nodes, p) && IsStraight(nodes, p) && n == 3 * (p - 1) && 2 <= groups
    requires IsFirstBadGroup(TetCoefficients(nodes, p), n, groups, code)
    ensures code == if Volume(nodes) < 0.0 then 2 else -1
  {
    hide IsStraight, Volume, TetCoefficients, HoldsTetrahedron;
    HasCorners(nodes, p);
    var c := TetCoefficients(nodes, p);
    forall i, j, k | InTetrahedron(n, i, j, k)
      ensures 0.0 <= c(i, j, k) <==> 0.0 <= Volume(nodes)
    {
      StraightSign(nodes, p, Exps(i, j, k));
    }
    assert IsInOneOf(n, 2, n, 0, 0) && IsInOneOf(n, groups, n, 0, 0);
  }

  /** Of order 2, an element with the middles of its edges is straight. */
  lemma MiddlesAreStraight(list: seq<real>)
    requires |list| == 10
    requires forall e: nat :: e < 6 ==> 2.0 * list[4 + e] == list[FromCorner(e)] + list[ToCorner(e)]
    ensures TetCount(2) == 10 && HasStraightFaces(list, 2) && HasStraightInside(list, 2)
  {
    assert TetCount(2) == 10;
    forall f: nat, k: nat, j: nat | f < 4 && k + j <= 2
      ensures var c := FaceCorners(list, f);
        IsBlend(2, 2 - k - j, j, k, 0, TriRow(FaceList(list, 2, f), 2, k)[j], c[0], c[1], c[2], 0.0)
    {
      RowOfMiddles(list, f, k, j);
    }
  }

  lemma RowsOfSix<T>(face: seq<T>)
    requires |face| == 6
    ensures TriCount(2) == 6 && TriRow(face, 2, 0) == [face[0], face[3], face[1]]
    ensures TriRow(face, 2, 1) == [face[5], face[4]] && TriRow(face, 2, 2) == [face[2]]
  {
    assert TriCount(2) == 6;
  }

  lemma SixOfFace(list: seq<real>, f: nat)
    requires |list| == 10 && TetCount(2) == 10 && f < 4
    ensures var face, c := FaceList(list, 2, f), FaceCorners(list, f);
      && |face| == 6 && face[0] == c[0] && face[1] == c[1] && face[2] == c[2] && face[3] == FaceSide(list, 2, f, 0)[0]
      && face[4] == FaceSide(list, 2, f, 1)[0] && face[5] == FaceSide(list, 2, f, 2)[0]
  {
    hide FaceCorners, FaceSide;
    assert TriCount(2) == 6;
  }

  lemma RowOfMiddles(list: seq<real>, f: nat, k: nat, j: nat)
    requires |list| == 10 && TetCount(2) == 10 && f < 4 && k + j <= 2
    requires forall e: nat :: e < 6 ==> 2.0 * list[4 + e] == list[FromCorner(e)] + list[ToCorner(e)]
    ensures var c := FaceCorners(list, f);
      IsBlend(2, 2 - k - j, j, k, 0, TriRow(FaceList(list, 2, f), 2, k)[j], c[0], c[1], c[2], 0.0)
  {
    hide TriRow, FaceList, FaceCorners, FaceSide, FromCorner, ToCorner, TetCount;
    var face, c := FaceList(list, 2, f), FaceCorners(list, f);
    SixOfFace(list, f);
    RowsOfSix(face);
    SideOfMiddles(list, f, 0);
    SideOfMiddles(list, f, 1);
    SideOfMiddles(list, f, 2);
    if k == 0 {
      assert TriRow(face, 2, 0)[j] == if j == 0 then face[0] else if j == 1 then face[3] else face[1];
      assert j == 0 || j == 1 || j == 2;
    } else if k == 1 {
      assert TriRow(face, 2, 1)[j] == if j == 0 then face[5] else face[4];
      assert j == 0 || j == 1;
    } else {
      assert k == 2 && j == 0 && TriRow(face, 2, 2)[0] == face[2];
    }
  }

  lemma EdgeOfMiddles(list: seq<real>, e: nat)
    requires |list| == 10 && TetCount(2) == 10 && e < 6
    requires forall e: nat :: e < 6 ==> 2.0 * list[4 + e] == list[FromCorner(e)] + list[ToCorner(e)]
    ensures EdgeRun(list, 2, e) == [list[4 + e]] == Reverse(EdgeRun(list, 2, e))
    ensures 2.0 * list[4 + e] == list[FromCorner(e)] + list[ToCorner(e)]
  {
  }

  lemma SideOfMiddles(list: seq<real>, f: nat, side: nat)
    requires |list| == 10 && TetCount(2) == 10 && f < 4 && side < 3
    requires forall e: nat :: e < 6 ==> 2.0 * list[4 + e] == list[FromCorner(e)] + list[ToCorner(e)]
    ensures var c := FaceCorners(list, f); 2.0 * FaceSide(list, 2, f, side)[0] == c[side] + c[(side + 1) % 3]
  {
    hide EdgeRun, Reverse;
    EdgeOfMiddles(list, 0);
    EdgeOfMiddles(list, 1);
    EdgeOfMiddles(list, 2);
    EdgeOfMiddles(list, 3);
    EdgeOfMiddles(list, 4);
    EdgeOfMiddles(list, 5);
    if side == 0 {
      assert FaceSide(list, 2, f, 0)[0] == list[4 + if f <= 1 then 0 else if f == 2 then 1 else 2];
    } else if side == 1 {
      assert FaceSide(list, 2, f, 1)[0] == list[4 + if f == 0 then 1 else if f == 1 then 4 else 5];
    } else {
      assert FaceSide(list, 2, f, 2)[0] == list[4 + if f == 0 then 2 else if f == 2 then 4 else 3];
    }
  }

  /** The tetrahedron with corners (0, 0, 0), (1, 0, 0), (0, 1, 0) and (0, 0, 1) and the middles of its edges, as they
      are listed. */
  function UnitTetrahedron(): seq<real> {
    [0.0, 0.0, 0.0, 1.0, 0.0, 0.0, 0.0, 1.0, 0.0, 0.0, 0.0, 1.0, 0.5, 0.0, 0.0, 0.5, 0.5, 0.0, 0.0, 0.5, 0.0,
     0.0, 0.0, 0.5, 0.5, 0.0, 0.5, 0.0, 0.5, 0.5]
  }

  method CheckUnitTetrahedron(size: nat, vertsOnly: int) returns (code: int)
    requires 20 <= size
    ensures code == -1
  {
    hide UnitTetrahedron, IsStraight, HoldsTetrahedron, TetCount, Volume;
    var points := UnitTetrahedron();
    UnitIsStraight();
    code := CheckTetrahedron(2, size, points, vertsOnly);
    StraightVerdict(points, 2, 3, if vertsOnly == -1 then 20 else 5, code);
  }

  lemma UnitVolume(points: seq<real>)
    requires 12 <= |points| && GetVector3(points, 0) == Vector3(0.0, 0.0, 0.0)
    requires GetVector3(points, 1) == Vector3(1.0, 0.0, 0.0) && GetVector3(points, 2) == Vector3(0.0, 1.0, 0.0)
    requires GetVector3(points, 3) == Vector3(0.0, 0.0, 1.0)
    ensures Volume(points) == 1.0
  {
    hide GetVector3;
  }

  lemma UnitCorner(points: seq<real>, t: nat)
    requires points == UnitTetrahedron() && t < 4
    ensures |points| == 30
    ensures GetVector3(points, t) ==
      Vector3(if t == 1 then 1.0 else 0.0, if t == 2 then 1.0 else 0.0, if t == 3 then 1.0 else 0.0)
  {
  }

  lemma UnitIsStraight()
    ensures TetCount(2) == 10 && TetCount(3) == 20
    ensures var points := UnitTetrahedron();
      HoldsTetrahedron(points, 2) && IsStraight(points, 2) && 12 <= |points| && Volume(points) == 1.0
  {
    hide HasStraightFaces, HasStraightInside, Volume, UnitTetrahedron, GetVector3;
    assert TetCount(2) == 10 && TetCount(3) == 20;
    UnitList(0);
    UnitList(1);
    UnitList(2);
    UnitCorner(UnitTetrahedron(), 0);
    UnitCorner(UnitTetrahedron(), 1);
    UnitCorner(UnitTetrahedron(), 2);
    UnitCorner(UnitTetrahedron(), 3);
    UnitVolume(UnitTetrahedron());
  }

  lemma UnitList(d: nat)
    requires d < 3 && TetCount(2) == 10
    ensures |UnitTetrahedron()| == 30
    ensures var list := Coordinates(UnitTetrahedron(), d); HasStraightFaces(list, 2) && HasStraightInside(list, 2)
  {
    var points := UnitTetrahedron();
    assert |points| == 30;
    hide HasStraightFaces, HasStraightInside, TetCount, FromCorner, ToCorner, UnitTetrahedron;
    var list := Coordinates(points, d);
    forall e: nat | e < 6
      ensures FromCorner(e) < 4 && ToCorner(e) < 4 && 2.0 * list[4 + e] == list[FromCorner(e)] + list[ToCorner(e)]
    {
      UnitEdge(points, d, e);
    }
    MiddlesAreStraight(list);
  }

  lemma UnitEdge(points: seq<real>, d: nat, e: nat)
    requires points == UnitTetrahedron() && d < 3 && e < 6
    ensures |points| == 30 && FromCorner(e) < 4 && ToCorner(e) < 4
    ensures 2.0 * points[3 * (4 + e) + d] == points[3 * FromCorner(e) + d] + points[3 * ToCorner(e) + d]
  {
  }
}
