/** What the numbering of control points means for curved triangles: the map of a triangle by the list of its control
    points, and the check of a straight triangle. */
module TriangleLayouts {
  import opened Forms
  import opened Polynomials
  import opened Bernstein
  import opened NodeNumbering
  import opened Surfaces
  import opened Layouts
  import opened TriangleValidity
  import Vandermonde

  // ----- the map -----

  /** The first coordinates of the points, in their order. */
  function XsOf(nodes: seq<real>): (xs: seq<real>)
    ensures |xs| == |nodes| / 2 && forall t :: 0 <= t < |xs| ==> xs[t] == nodes[2 * t]
  {
    seq(|nodes| / 2, t requires 0 <= t < |nodes| / 2 => nodes[2 * t])
  }

  function YsOf(nodes: seq<real>): (ys: seq<real>)
    ensures |ys| == |nodes| / 2 && forall t :: 0 <= t < |ys| ==> ys[t] == nodes[2 * t + 1]
  {
    seq(|nodes| / 2, t requires 0 <= t < |nodes| / 2 => nodes[2 * t + 1])
  }

  /** The point of the triangle at `x`. */
  ghost function TriMap(nodes: seq<real>, p: nat, x: Point): Vector2
    requires HoldsTriangle(nodes, p)
  {
    Vector2(Form(p, Weighted(p, Xs(nodes, p)), x), Form(p, Weighted(p, Ys(nodes, p)), x))
  }

  lemma PointInList(nodes: seq<real>, p: nat, i: int, j: int)
    requires HoldsTriangle(nodes, p) && InTriangle(p, i, j)
    ensures 0 <= ComputeTriNodeIndex(p, i, j) < |nodes| / 2
    ensures ControlPoint(nodes, p, i, j).x == XsOf(nodes)[ComputeTriNodeIndex(p, i, j)] == Xs(nodes, p)(i, j, 0)
    ensures ControlPoint(nodes, p, i, j).y == YsOf(nodes)[ComputeTriNodeIndex(p, i, j)] == Ys(nodes, p)(i, j, 0)
  {
    hide ComputeTriNodeIndex;
    TriIndexInverts(p, i, j);
  }

  lemma PointInRow(nodes: seq<real>, p: nat, k: nat, j: nat)
    requires HoldsTriangle(nodes, p) && k + j <= p
    ensures TriRow(XsOf(nodes), p, k)[j] == ControlPoint(nodes, p, p - k - j, j).x
    ensures TriRow(YsOf(nodes), p, k)[j] == ControlPoint(nodes, p, p - k - j, j).y
  {
    hide TriRow, ComputeTriNodeIndex, ControlPoint;
    TriRowAt(XsOf(nodes), p, k, j);
    TriRowAt(YsOf(nodes), p, k, j);
    PointInList(nodes, p, p - k - j, j);
  }

  /** The map is the Bezier triangle of the rows of the list. */
  lemma MapIsSurface(nodes: seq<real>, p: nat, u: real, v: real, w: real)
    requires HoldsTriangle(nodes, p)
    ensures TriMap(nodes, p, Point(u, v, 0.0, w)) ==
      Vector2(Surface(TriRows(XsOf(nodes), p), u, v, w), Surface(TriRows(YsOf(nodes), p), u, v, w))
  {
    hide TriRow, Surface, Form, ControlPoint, Xs, Ys;
    var xs, ys := TriRows(XsOf(nodes), p), TriRows(YsOf(nodes), p);
    forall k: nat, j: nat | k <= p && j < |xs[k]|
      ensures xs[k][j] == ValueAt(Xs(nodes, p), InFace(p, 1, k, j))
      ensures ys[k][j] == ValueAt(Ys(nodes, p), InFace(p, 1, k, j))
    {
      PointInRow(nodes, p, k, j);
      PointInList(nodes, p, p - k - j, j);
    }
    FaceIsSurface(p, Xs(nodes, p), 1, u, v, w, xs);
    FaceIsSurface(p, Ys(nodes, p), 1, u, v, w, ys);
  }

  /** A point between the ends of a side. */
  function OnSide(e: nat, u: real, v: real): Point {
    if e == 0 then Point(u, v, 0.0, 0.0) else if e == 1 then Point(0.0, u, 0.0, v) else Point(v, 0.0, 0.0, u)
  }

  /** A side is the Bezier curve of the corners at its ends and the run of points listed for it. */
  lemma SideIsCurve(nodes: seq<real>, p: nat, e: nat, u: real, v: real)
    requires HoldsTriangle(nodes, p) && e < 3
    ensures TriMap(nodes, p, OnSide(e, u, v)) ==
      Vector2(Curve(TriSide(XsOf(nodes), p, e), u, v), Curve(TriSide(YsOf(nodes), p, e), u, v))
  {
    hide TriSide, Curve, Form, ComputeTriNodeIndex, ControlPoint, Xs, Ys;
    var xs, ys, edge := TriSide(XsOf(nodes), p, e), TriSide(YsOf(nodes), p, e), [0, 4, 6][e];
    forall m: nat | m <= p
      ensures xs[m] == ValueAt(Xs(nodes, p), AlongEdge(p, edge, m))
      ensures ys[m] == ValueAt(Ys(nodes, p), AlongEdge(p, edge, m))
    {
      TriSideAt(XsOf(nodes), p, e, m);
      TriSideAt(YsOf(nodes), p, e, m);
      PointInList(nodes, p, AlongEdge(p, edge, m).i, AlongEdge(p, edge, m).j);
    }
    EdgeIsCurve(p, Xs(nodes, p), edge, u, v, xs);
    EdgeIsCurve(p, Ys(nodes, p), edge, u, v, ys);
  }

  /** The corners are the first three points of the list. */
  lemma CornersAreFirst(nodes: seq<real>, p: nat)
    requires HoldsTriangle(nodes, p)
    ensures TriMap(nodes, p, Point(1.0, 0.0, 0.0, 0.0)) == Vector2(nodes[0], nodes[1])
    ensures TriMap(nodes, p, Point(0.0, 1.0, 0.0, 0.0)) == Vector2(nodes[2], nodes[3])
    ensures TriMap(nodes, p, Point(0.0, 0.0, 0.0, 1.0)) == Vector2(nodes[4], nodes[5])
  {
    CornerIs(nodes, p, 0);
    CornerIs(nodes, p, 1);
    CornerIs(nodes, p, 2);
  }

  lemma SideStarts<T>(list: seq<T>, p: nat, e: nat)
    requires 1 <= p && TriCount(p) <= |list| && e < 3
    ensures TriSide(list, p, e)[0] == list[e]
  {
    hide Pairs;
  }

  lemma CornerIs(nodes: seq<real>, p: nat, e: nat)
    requires HoldsTriangle(nodes, p) && e < 3
    ensures TriMap(nodes, p, OnSide(e, 1.0, 0.0)) == Vector2(nodes[2 * e], nodes[2 * e + 1])
  {
    hide TriMap, Curve, TriSide, OnSide;
    SideIsCurve(nodes, p, e, 1.0, 0.0);
    CurveStarts(TriSide(XsOf(nodes), p, e));
    CurveStarts(TriSide(YsOf(nodes), p, e));
    SideStarts(XsOf(nodes), p, e);
    SideStarts(YsOf(nodes), p, e);
  }

  /** The codes 2, 3 and 4 tell of the sign of the determinant at the three corners. */
  lemma CornerDeterminants(nodes: seq<real>, p: nat, n: nat)
    requires HoldsTriangle(nodes, p) && n == 2 * (p - 1)
    ensures TriJacobian(nodes, p, Point(1.0, 0.0, 0.0, 0.0)) == TriCoefficients(nodes, p)(n, 0, 0)
    ensures TriJacobian(nodes, p, Point(0.0, 1.0, 0.0, 0.0)) == TriCoefficients(nodes, p)(0, n, 0)
    ensures TriJacobian(nodes, p, Point(0.0, 0.0, 0.0, 1.0)) == TriCoefficients(nodes, p)(0, 0, 0)
  {
    hide TriJacobian, TriCoefficients, Form;
    forall t: nat | t < 4
      ensures TriJacobian(nodes, p, CornerAt(t)) == ValueAt(TriCoefficients(nodes, p), CornerPlace(n, t))
    {
      JacobianHasCoefficients(nodes, p, CornerAt(t), n);
      FormAtCorner(n, TriCoefficients(nodes, p), t);
    }
    assert CornerAt(0) == Point(1.0, 0.0, 0.0, 0.0) && CornerAt(1) == Point(0.0, 1.0, 0.0, 0.0);
    assert CornerAt(3) == Point(0.0, 0.0, 0.0, 1.0);
  }

  // ----- straight triangles -----

  /** `y` is where a straight triangle of order `p` has the point of row `k` and column `j`. */
  predicate IsBlend(p: nat, k: nat, j: nat, y: real, a: real, b: real, c: real) {
    p as real * y == (p - k - j) as real * a + j as real * b + k as real * c
  }

  /** The rows divide the triangle of the corners evenly. */
  ghost predicate IsStraight(nodes: seq<real>, p: nat)
    requires HoldsTriangle(nodes, p)
  {
    forall k: nat, j: nat {:trigger TriRow(XsOf(nodes), p, k)[j]} :: k + j <= p ==>
      && IsBlend(p, k, j, TriRow(XsOf(nodes), p, k)[j], nodes[0], nodes[2], nodes[4])
      && IsBlend(p, k, j, TriRow(YsOf(nodes), p, k)[j], nodes[1], nodes[3], nodes[5])
  }

  /** Twice the area of the triangle of the corners, below zero if they go round clockwise. */
  function Area(nodes: seq<real>): real
    requires 6 <= |nodes|
  {
    Cross2(Vector2(nodes[2] - nodes[0], nodes[3] - nodes[1]), Vector2(nodes[4] - nodes[0], nodes[5] - nodes[1]))
  }

  lemma PointIsBlend(nodes: seq<real>, p: nat, i: int, j: int)
    requires HoldsTriangle(nodes, p) && IsStraight(nodes, p) && InTriangle(p, i, j)
    ensures IsBlend(p, p - i - j, j, ControlPoint(nodes, p, i, j).x, nodes[0], nodes[2], nodes[4])
    ensures IsBlend(p, p - i - j, j, ControlPoint(nodes, p, i, j).y, nodes[1], nodes[3], nodes[5])
  {
    hide IsBlend, ControlPoint, TriRow;
    var k := p - i - j;
    PointInRow(nodes, p, k, j);
    assert p - k - j == i;
    assert IsBlend(p, k, j, TriRow(XsOf(nodes), p, k)[j], nodes[0], nodes[2], nodes[4]);
  }

  /** One step from the first corner towards the second, or towards the third. */
  lemma BlendSteps(p: nat, k: nat, j: nat, high: real, low: real, a: real, b: real, c: real)
    requires k + j < p && IsBlend(p, k, j, low, a, b, c)
    ensures IsBlend(p, k, j + 1, high, a, b, c) ==> p as real * (high - low) == b - a
    ensures IsBlend(p, k + 1, j, high, a, b, c) ==> p as real * (high - low) == c - a
  {
    var i, y := (p - k - j) as real, (p - k - j - 1) as real;
    assert y == i - 1.0 && (j + 1) as real == j as real + 1.0 && (k + 1) as real == k as real + 1.0;
    assert p as real * (high - low) == p as real * high - p as real * low;
    assert y * a == i * a - a;
    assert (j as real + 1.0) * b == j as real * b + b;
    assert (k as real + 1.0) * c == k as real * c + c;
  }

  lemma DifferenceIsShare(nodes: seq<real>, p: nat, v: nat, i: int, j: int) returns (d: Vector2)
    requires HoldsTriangle(nodes, p) && IsStraight(nodes, p) && InTriangle(p - 1, i, j) && (v == 1 || v == 3)
    ensures d == Minus2(PointAlong(nodes, p, v, i, j), PointAlong(nodes, p, 0, i, j))
    ensures v == 1 ==> p as real * d.x == nodes[2] - nodes[0] && p as real * d.y == nodes[3] - nodes[1]
    ensures v == 3 ==> p as real * d.x == nodes[4] - nodes[0] && p as real * d.y == nodes[5] - nodes[1]
  {
    hide IsBlend, ControlPoint, IsStraight;
    var high, low := PointAlong(nodes, p, v, i, j), PointAlong(nodes, p, 0, i, j);
    d := Minus2(high, low);
    var k := p - 1 - i - j;
    PointIsBlend(nodes, p, i + 1, j);
    if v == 1 {
      PointIsBlend(nodes, p, i, j + 1);
    } else {
      PointIsBlend(nodes, p, i, j);
    }
    assert p - (i + 1) - j == k && p - i - (j + 1) == k && p - i - j == k + 1;
    BlendSteps(p, k, j, high.x, low.x, nodes[0], nodes[2], nodes[4]);
    BlendSteps(p, k, j, high.y, low.y, nodes[1], nodes[3], nodes[5]);
  }

  lemma CrossOfShares(q: real, a: Vector2, b: Vector2, a': Vector2, b': Vector2)
    requires a'.x == q * a.x && a'.y == q * a.y && b'.x == q * b.x && b'.y == q * b.y
    ensures Cross2(a', b') == Square(q) * Cross2(a, b)
  {
    assert (q * a.x) * (q * b.y) == (q * q) * (a.x * b.y);
    assert (q * a.y) * (q * b.x) == (q * q) * (a.y * b.x);
    assert (q * q) * (a.x * b.y - a.y * b.x) == (q * q) * (a.x * b.y) - (q * q) * (a.y * b.x);
  }

  /** All partial determinants are the same share of the area. */
  lemma DeterminantIsShare(nodes: seq<real>, p: nat, i1: int, j1: int, i2: int, j2: int)
    requires HoldsTriangle(nodes, p) && IsStraight(nodes, p)
    requires InTriangle(p - 1, i1, j1) && InTriangle(p - 1, i2, j2)
    ensures Square(p as real) * GetTriPartialJacobianDet(nodes, p, i1, j1, i2, j2) == Area(nodes)
  {
    hide ControlPoint, IsStraight, Cross2, Square;
    var a := DifferenceIsShare(nodes, p, 1, i1, j1);
    var b := DifferenceIsShare(nodes, p, 3, i2, j2);
    CrossOfShares(p as real, a, b, Vector2(nodes[2] - nodes[0], nodes[3] - nodes[1]),
                  Vector2(nodes[4] - nodes[0], nodes[5] - nodes[1]));
  }

  /** All ways to split the exponents, weighted. */
  ghost function Shares(m: int, ci: int, cj: int): Coefficients {
    Vandermonde.Shares(m, m, ci, cj, 0)
  }

  lemma SplitIsShare(nodes: seq<real>, p: nat, det: real, ci: int, cj: int, i: int, j: int, k: int)
    requires HoldsTriangle(nodes, p) && 0 <= k
    requires InTriangle(p - 1, i, j) && InTriangle(p - 1, ci - i, cj - j) ==>
      GetTriPartialJacobianDet(nodes, p, i, j, ci - i, cj - j) == det
    ensures CrossSplits(nodes, p, ci, cj)(i, j, k) == det * Shares(p - 1, ci, cj)(i, j, k)
  {
    hide Quadnomial, Trinomial, CrossSplits, GetTriPartialJacobianDet;
    var m := p - 1;
    var x, y := Vandermonde.W(m, i, j, k), Vandermonde.W(m, ci - i, cj - j, 0 - k);
    SplitsAreContributions(nodes, p, ci, cj);
    assert IsContribution(nodes, p, ci, cj, CrossSplits(nodes, p, ci, cj), i, j, k);
    assert Shares(m, ci, cj)(i, j, k) == x * y;
    if k == 0 && InTriangle(m, i, j) && InTriangle(m, ci - i, cj - j) {
      TrinomialIsQuadnomial(m, i, j);
      TrinomialIsQuadnomial(m, ci - i, cj - j);
      assert x * y * det == det * (x * y);
    } else {
      if !InSimplex(m, i, j, k) {
        Vandermonde.OutsideHasNoWeight(m, i, j, k);
      } else {
        Vandermonde.OutsideHasNoWeight(m, ci - i, cj - j, 0 - k);
      }
      assert x * y == 0.0;
    }
  }

  lemma OneShare(s: real, det: real, partial: real, area: real)
    requires s > 0.0 && s * partial == area && det == area / s
    ensures partial == det
  {
  }

  lemma SplitsAreShares(nodes: seq<real>, p: nat, det: real, s: real, i: int, j: int, w: real)
    requires HoldsTriangle(nodes, p) && IsStraight(nodes, p) && s == Square(p as real) > 0.0 && det == Area(nodes) / s
    requires w == Vandermonde.W(2 * (p - 1), i, j, 0)
    ensures Box(p, CrossSplits(nodes, p, i, j)) == det * w
  {
    hide IsStraight, Area, CrossSplits, Trinomial, Quadnomial, Square, GetTriPartialJacobianDet;
    var f, m := CrossSplits(nodes, p, i, j), p - 1;
    forall i1, j1, k1 | InBox(p, i1, j1, k1)
      ensures f(i1, j1, k1) == det * Shares(m, i, j)(i1, j1, k1)
    {
      if InTriangle(m, i1, j1) && InTriangle(m, i - i1, j - j1) {
        DeterminantIsShare(nodes, p, i1, j1, i - i1, j - j1);
        OneShare(s, det, GetTriPartialJacobianDet(nodes, p, i1, j1, i - i1, j - j1), Area(nodes));
      }
      SplitIsShare(nodes, p, det, i, j, i1, j1, k1);
    }
    Vandermonde.SharesAddUp(m, m, i, j, 0);
    BoxScalesTo(p, Shares(m, i, j), f, det, w);
  }

  /** Every value that the check of a straight triangle looks at is its area, twice. */
  lemma StraightValues(nodes: seq<real>, p: nat, i: int, j: int, node: real)
    requires HoldsTriangle(nodes, p) && IsStraight(nodes, p)
    requires InTriangle(2 * (p - 1), i, j) && IsTriNode(nodes, p, i, j, node)
    ensures node == Area(nodes)
  {
    hide IsStraight, Area, CrossSplits, Trinomial, Quadnomial, CrossDifference;
    var s, n := Square(p as real), 2 * (p - 1);
    assert s > 0.0;
    var det, w := Area(nodes) / s, Vandermonde.W(n, i, j, 0);
    SplitsAreShares(nodes, p, det, s, i, j, w);
    CrossSplitsSum(nodes, p, i, j, det * w);
    ScaledFrom(s, CrossDifference(nodes, p), i, j, 0, det * w);
    TrinomialIsQuadnomial(n, i, j);
    Vandermonde.Divide(w, node, s, det, det * w, TriCoefficients(nodes, p)(i, j, 0));
  }

  lemma ShareOf(c: real, whole: real) returns (node: real)
    requires 0.0 < c
    ensures IsShareOf(node, c, whole)
  {
    node := whole / c;
  }

  lemma StraightSign(nodes: seq<real>, p: nat, i: int, j: int)
    requires HoldsTriangle(nodes, p) && IsStraight(nodes, p) && InTriangle(2 * (p - 1), i, j)
    ensures 0.0 <= TriCoefficients(nodes, p)(i, j, 0) <==> 0.0 <= Area(nodes)
  {
    hide IsStraight, Area, TriCoefficients, Trinomial, IsShareOf;
    var n := 2 * (p - 1);
    TrinomialIsQuadnomial(n, i, j);
    var node := ShareOf(Trinomial(n, i, j) as real, TriCoefficients(nodes, p)(i, j, 0));
    StraightValues(nodes, p, i, j, node);
    SignOfNode(nodes, p, i, j, node);
  }

  /** So a straight triangle is accepted exactly if its corners do not go round clockwise, and the first corner is
      what is reported otherwise. */
  lemma StraightVerdict(nodes: seq<real>, p: nat, n: nat, code: int)
    requires 2 <= p && HoldsTriangle(nodes, p) && IsStraight(nodes, p) && n == 2 * (p - 1)
    requires IsFirstBadGroup(TriCoefficients(nodes, p), n, code)
    ensures code == if Area(nodes) < 0.0 then 2 else -1
  {
    hide IsStraight, Area, TriCoefficients;
    var c := TriCoefficients(nodes, p);
    forall i, j | InTriangle(n, i, j)
      ensures 0.0 <= c(i, j, 0) <==> 0.0 <= Area(nodes)
    {
      StraightSign(nodes, p, i, j);
    }
    assert InTriangle(n, n, 0) && GroupOf(n, n, 0) == 2;
  }

  /** The triangle with corners (0, 0), (1, 0) and (0, 1) and the middles of its sides, as they are listed. */
  function UnitTriangle(): seq<real> {
    [0.0, 0.0, 1.0, 0.0, 0.0, 1.0, 0.5, 0.0, 0.5, 0.5, 0.0, 0.5]
  }

  method CheckUnitTriangle(size: nat) returns (code: int)
    requires 6 <= size
    ensures code == -1
  {
    hide UnitTriangle, IsStraight, HoldsTriangle, TriCount, Area;
    var points := UnitTriangle();
    UnitIsStraight();
    code := CheckTriangle(2, size, points);
    StraightVerdict(points, 2, 2, code);
  }

  lemma UnitIsStraight()
    ensures TriCount(2) == 6
    ensures var points := UnitTriangle();
      HoldsTriangle(points, 2) && IsStraight(points, 2) && 6 <= |points| && Area(points) == 1.0
  {
    assert TriCount(2) == 6;
    var points := UnitTriangle();
    var xs, ys := XsOf(points), YsOf(points);
    assert xs == [0.0, 1.0, 0.0, 0.5, 0.5, 0.0] && ys == [0.0, 0.0, 1.0, 0.0, 0.5, 0.5];
    assert TriRow(xs, 2, 0) == [0.0, 0.5, 1.0] && TriRow(ys, 2, 0) == [0.0, 0.0, 0.0];
    assert TriRow(xs, 2, 1) == [0.0, 0.5] && TriRow(ys, 2, 1) == [0.5, 0.5];
    assert TriRow(xs, 2, 2) == [0.0] && TriRow(ys, 2, 2) == [1.0];
  }
}
