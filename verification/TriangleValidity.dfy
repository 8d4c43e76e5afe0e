/** The validity check of curved triangles (`Nijk`, `getTriJacDetNodes`, `checkMinJacDet`): the values it
    looks at are the Bernstein coefficients of the Jacobian determinant, so that none being negative
    means that the determinant is nowhere negative on the triangle. */
module TriangleValidity {
  import opened Sums
  import opened Forms
  import opened Polynomials
  import opened Bernstein
  import opened NodeNumbering

  datatype Vector2 = Vector2(x: real, y: real)

  function GetVector2(nodes: seq<real>, at: nat): Vector2
    requires 2 * at + 1 < |nodes|
  {
    Vector2(nodes[2 * at], nodes[2 * at + 1])
  }

  function Minus2(a: Vector2, b: Vector2): Vector2 {
    Vector2(a.x - b.x, a.y - b.y)
  }

  function Cross2(a: Vector2, b: Vector2): real {
    a.x * b.y - a.y * b.x
  }

  /** Room for all control points of a triangle of order `p`. */
  predicate HoldsTriangle(nodes: seq<real>, p: nat) {
    1 <= p && 2 * TriCount(p) <= |nodes|
  }

  function ControlPoint(nodes: seq<real>, p: nat, i: int, j: int): Vector2
    requires HoldsTriangle(nodes, p) && InTriangle(p, i, j)
  {
    TriIndexInverts(p, i, j);
    GetVector2(nodes, ComputeTriNodeIndex(p, i, j))
  }

  function GetTriPartialJacobianDet(nodes: seq<real>, p: nat, i1: int, j1: int, i2: int, j2: int): real
    requires HoldsTriangle(nodes, p) && InTriangle(p - 1, i1, j1) && InTriangle(p - 1, i2, j2)
  {
    Cross2(Minus2(ControlPoint(nodes, p, i1, j1 + 1), ControlPoint(nodes, p, i1 + 1, j1)),
           Minus2(ControlPoint(nodes, p, i2, j2), ControlPoint(nodes, p, i2 + 1, j2)))
  }

  // ----- the Jacobian determinant -----

  /** The first coordinates of the control points, as control values. The third barycentric coordinate
      does not occur. */
  ghost function Xs(nodes: seq<real>, p: nat): Coefficients
    requires HoldsTriangle(nodes, p)
  {
    (i, j, k) => if k == 0 && InTriangle(p, i, j) then ControlPoint(nodes, p, i, j).x else 0.0
  }

  ghost function Ys(nodes: seq<real>, p: nat): Coefficients
    requires HoldsTriangle(nodes, p)
  {
    (i, j, k) => if k == 0 && InTriangle(p, i, j) then ControlPoint(nodes, p, i, j).y else 0.0
  }

  ghost function Determinant2(a: real, b: real, c: real, d: real): real {
    a * b - c * d
  }

  /** The Jacobian determinant of the map of the triangle. */
  ghost function TriJacobian(nodes: seq<real>, p: nat, x: Point): real
    requires HoldsTriangle(nodes, p)
  {
    Determinant2(Along(1, p, Xs(nodes, p), x), Along(3, p, Ys(nodes, p), x),
                 Along(1, p, Ys(nodes, p), x), Along(3, p, Xs(nodes, p), x))
  }

  // ----- its coefficients -----

  /** The coefficients of one of the two products that the determinant is the difference of. */
  ghost function CrossProduct(p: nat, b: Coefficients, c: Coefficients): Coefficients
    requires 1 <= p
  {
    Product(p - 1, WeightedDelta(1, p - 1, b), p - 1, WeightedDelta(3, p - 1, c))
  }

  ghost function CrossDifference(nodes: seq<real>, p: nat): Coefficients
    requires HoldsTriangle(nodes, p)
  {
    Difference(CrossProduct(p, Xs(nodes, p), Ys(nodes, p)), CrossProduct(p, Ys(nodes, p), Xs(nodes, p)))
  }

  ghost function Square(q: real): real {
    q * q
  }

  /** The coefficients of the Jacobian determinant. */
  ghost function TriCoefficients(nodes: seq<real>, p: nat): Coefficients
    requires HoldsTriangle(nodes, p)
  {
    Scaled(Square(p as real), CrossDifference(nodes, p))
  }

  lemma Multiplied(
      q: real, a: real, b: real, c: real, d: real, a': real, b': real, c': real, d': real, ab: real, cd: real,
      s: real, rest: real)
    requires a' == q * a && b' == q * b && c' == q * c && d' == q * d
    requires a * b == ab && c * d == cd && s == Square(q) && rest == ab - cd
    ensures Determinant2(a', b', c', d') == s * rest
  {
    assert (q * a) * (q * b) == (q * q) * (a * b);
    assert (q * c) * (q * d) == (q * q) * (c * d);
  }

  lemma CrossForm(
      p: nat, b: Coefficients, c: Coefficients, x: Point, q: real, n: nat)
    returns (a': real, d': real, a: real, d: real, ad: real)
    requires 1 <= p && q == p as real && n == 2 * (p - 1)
    ensures a' == Along(1, p, b, x) && d' == Along(3, p, c, x) && a' == q * a && d' == q * d
    ensures a * d == ad && ad == Form(n, CrossProduct(p, b, c), x)
  {
    var m: nat := p - 1;
    a', a := AlongIsForm(1, p, b, x, m, q);
    d', d := AlongIsForm(3, p, c, x, m, q);
    ad := ProductOfForms(m, WeightedDelta(1, m, b), m, WeightedDelta(3, m, c), x, a, d);
  }

  /** The Jacobian determinant is the polynomial with these coefficients, for any control points and any
      order. */
  lemma JacobianHasCoefficients(nodes: seq<real>, p: nat, x: Point, n: nat)
    requires HoldsTriangle(nodes, p) && n == 2 * (p - 1)
    ensures TriJacobian(nodes, p, x) == Form(n, TriCoefficients(nodes, p), x)
  {
    var q := p as real;
    var s := Square(q);
    var xs, ys := Xs(nodes, p), Ys(nodes, p);
    var a', b', a, b, ab := CrossForm(p, xs, ys, x, q, n);
    var c', d', c, d, cd := CrossForm(p, ys, xs, x, q, n);
    FormDiffers(n, CrossProduct(p, xs, ys), CrossProduct(p, ys, xs), x);
    var rest := Form(n, CrossDifference(nodes, p), x);
    Multiplied(q, a, b, c, d, a', b', c', d', ab, cd, s, rest);
    FormScales(n, CrossDifference(nodes, p), s, x, rest);
  }

  /** The third coordinate does not occur. */
  ghost predicate IsFlat(c: Coefficients) {
    forall i, j, k :: k != 0 ==> c(i, j, k) == 0.0
  }

  lemma ProductIsFlat(m: nat, a: Coefficients, b: Coefficients)
    requires IsFlat(a) && IsFlat(b)
    ensures IsFlat(Product(m, a, m, b))
  {
    forall i: int, j: int, k: int | k != 0
      ensures Product(m, a, m, b)(i, j, k) == 0.0
    {
      var f := Splits(m, a, m, b, i, j, k);
      forall p, q, r | InBox(m + 1, p, q, r)
        ensures f(p, q, r) == 0.0
      {
        assert r == 0 ==> b(i - p, j - q, k - r) == 0.0;
        assert Split(m, a, m, b, i, j, k, p, q, r) == 0.0;
      }
      BoxIsZero(m + 1, f);
    }
  }

  lemma DeltaIsFlat(v: nat, m: int, b: Coefficients)
    requires v != 2 && IsFlat(b)
    ensures IsFlat(WeightedDelta(v, m, b))
  {
    forall i: int, j: int, k: int | k != 0
      ensures WeightedDelta(v, m, b)(i, j, k) == 0.0
    {
      assert Raised(v, b)(i, j, k) == b(i + Unit(v, 0), j + Unit(v, 1), k + Unit(v, 2)) == 0.0;
      assert Raised(0, b)(i, j, k) == b(i + Unit(0, 0), j + Unit(0, 1), k + Unit(0, 2)) == 0.0;
      WeightedFrom(m, Delta(v, b), i, j, k, Quadnomial(m, i, j, k) as real, 0.0);
    }
  }

  lemma CrossDifferenceIsFlat(nodes: seq<real>, p: nat)
    requires HoldsTriangle(nodes, p)
    ensures IsFlat(CrossDifference(nodes, p))
  {
    var m := p - 1;
    var a, b := Xs(nodes, p), Ys(nodes, p);
    DeltaIsFlat(1, m, a);
    DeltaIsFlat(3, m, a);
    DeltaIsFlat(1, m, b);
    DeltaIsFlat(3, m, b);
    ProductIsFlat(m, WeightedDelta(1, m, a), WeightedDelta(3, m, b));
    ProductIsFlat(m, WeightedDelta(1, m, b), WeightedDelta(3, m, a));
  }

  /** If none of the coefficients is negative, the determinant is nowhere negative on the triangle. */
  lemma ValidTriangle(nodes: seq<real>, p: nat, x: Point, n: nat)
    requires HoldsTriangle(nodes, p) && n == 2 * (p - 1) && x.IsNotNegative()
    requires forall i, j :: InTriangle(n, i, j) ==> 0.0 <= TriCoefficients(nodes, p)(i, j, 0)
    ensures 0.0 <= TriJacobian(nodes, p, x)
  {
    var c := TriCoefficients(nodes, p);
    CrossDifferenceIsFlat(nodes, p);
    forall i, j, k | InSimplex(n, i, j, k)
      ensures 0.0 <= c(i, j, k)
    {
      if k == 0 {
        assert InTriangle(n, i, j);
      } else {
        ScaledFrom(Square(p as real), CrossDifference(nodes, p), i, j, k, 0.0);
      }
    }
    JacobianHasCoefficients(nodes, p, x, n);
    FormIsNotNegative(n, c, x);
  }

  /** The coefficient for (`ci`, `cj`), as a sum over all ways to split the exponents over two edges. */
  ghost function CrossSplits(nodes: seq<real>, p: nat, ci: int, cj: int): Coefficients
    requires HoldsTriangle(nodes, p)
  {
    var m := p - 1;
    Difference(Splits(m, WeightedDelta(1, m, Xs(nodes, p)), m, WeightedDelta(3, m, Ys(nodes, p)), ci, cj, 0),
               Splits(m, WeightedDelta(1, m, Ys(nodes, p)), m, WeightedDelta(3, m, Xs(nodes, p)), ci, cj, 0))
  }

  lemma CrossSplitsSum(nodes: seq<real>, p: nat, ci: int, cj: int, sum: real)
    requires HoldsTriangle(nodes, p) && sum == Box(p, CrossSplits(nodes, p, ci, cj))
    ensures sum == CrossDifference(nodes, p)(ci, cj, 0)
  {
    var m := p - 1;
    var f := Splits(m, WeightedDelta(1, m, Xs(nodes, p)), m, WeightedDelta(3, m, Ys(nodes, p)), ci, cj, 0);
    var g := Splits(m, WeightedDelta(1, m, Ys(nodes, p)), m, WeightedDelta(3, m, Xs(nodes, p)), ci, cj, 0);
    BoxDiffers(p, f, g);
    assert CrossProduct(p, Xs(nodes, p), Ys(nodes, p))(ci, cj, 0) == Box(p, f);
    assert CrossProduct(p, Ys(nodes, p), Xs(nodes, p))(ci, cj, 0) == Box(p, g);
  }

  lemma TrinomialIsQuadnomial(n: int, i: int, j: int)
    requires InTriangle(n, i, j)
    ensures Quadnomial(n, i, j, 0) == Trinomial(n, i, j) && 0 < Trinomial(n, i, j)
  {
    BinomialIsPositive(n, i);
    BinomialIsPositive(n - i, j);
    assert Binomial(n - i - j, 0) == 1;
  }

  /** `node` is the Bernstein coefficient for (`i`, `j`): times its weight, it is the coefficient. */
  ghost predicate IsTriNode(nodes: seq<real>, p: nat, i: int, j: int, node: real)
    requires HoldsTriangle(nodes, p)
  {
    IsShareOf(node, Trinomial(2 * (p - 1), i, j) as real, TriCoefficients(nodes, p)(i, j, 0))
  }

  /** A value and its coefficient have the same sign. */
  lemma SignOfNode(nodes: seq<real>, p: nat, i: int, j: int, node: real)
    requires HoldsTriangle(nodes, p) && InTriangle(2 * (p - 1), i, j) && IsTriNode(nodes, p, i, j, node)
    ensures 0.0 <= node <==> 0.0 <= TriCoefficients(nodes, p)(i, j, 0)
  {
    TrinomialIsQuadnomial(2 * (p - 1), i, j);
    var whole := TriCoefficients(nodes, p)(i, j, 0);
    SignOfProduct(Trinomial(2 * (p - 1), i, j) as real, node, whole);
  }

  // ----- computing the values -----

  function Weighed(t: real, u: real, det: real): real {
    t * u * det
  }

  /** What one turn of the loops adds. */
  function SplitTermOf(nodes: seq<real>, p: nat, ci: int, cj: int, i: int, j: int): real
    requires HoldsTriangle(nodes, p) && InTriangle(p - 1, i, j) && InTriangle(p - 1, ci - i, cj - j)
  {
    Weighed(Trinomial(p - 1, i, j) as real, Trinomial(p - 1, ci - i, cj - j) as real,
            GetTriPartialJacobianDet(nodes, p, i, j, ci - i, cj - j))
  }

  lemma CrossRegroup(t: real, u: real, a: Vector2, b: Vector2, wa: Vector2, wb: Vector2)
    requires wa.x == t * a.x && wa.y == t * a.y && wb.x == u * b.x && wb.y == u * b.y
    ensures Weighed(t, u, Cross2(a, b)) == Cross2(wa, wb)
  {
    CrossRegroupReals(t, u, a.x, a.y, b.x, b.y);
  }

  lemma CrossRegroupReals(t: real, u: real, x: real, y: real, z: real, w: real)
    ensures t * u * (x * w - y * z) == (t * x) * (u * w) - (t * y) * (u * z)
  {
    assert (t * x) * (u * w) == (t * u) * (x * w);
    assert (t * y) * (u * z) == (t * u) * (y * z);
  }

  lemma DeltaCoordinate(
      v: nat, m: int, b: Coefficients, i: int, j: int, t: real, high: real, low: real, d: real)
    requires InTriangle(m, i, j) && t == Trinomial(m, i, j) as real
    requires high == Raised(v, b)(i, j, 0) && low == Raised(0, b)(i, j, 0) && d == high - low
    ensures WeightedDelta(v, m, b)(i, j, 0) == t * d
  {
    TrinomialIsQuadnomial(m, i, j);
    WeightedFrom(m, Delta(v, b), i, j, 0, t, d);
  }

  /** The point one step along coordinate `v`. */
  function PointAlong(nodes: seq<real>, p: nat, v: nat, i: int, j: int): Vector2
    requires HoldsTriangle(nodes, p) && InTriangle(p - 1, i, j) && (v == 0 || v == 1 || v == 3)
  {
    if v == 0 then ControlPoint(nodes, p, i + 1, j)
    else if v == 1 then ControlPoint(nodes, p, i, j + 1)
    else ControlPoint(nodes, p, i, j)
  }

  lemma RaisedPoint(nodes: seq<real>, p: nat, v: nat, i: int, j: int)
    requires HoldsTriangle(nodes, p) && InTriangle(p - 1, i, j) && (v == 0 || v == 1 || v == 3)
    ensures Raised(v, Xs(nodes, p))(i, j, 0) == PointAlong(nodes, p, v, i, j).x
    ensures Raised(v, Ys(nodes, p))(i, j, 0) == PointAlong(nodes, p, v, i, j).y
  {
    var i', j' := i + Unit(v, 0), j + Unit(v, 1);
    assert InTriangle(p, i', j') && PointAlong(nodes, p, v, i, j) == ControlPoint(nodes, p, i', j');
    assert Xs(nodes, p)(i', j', 0) == ControlPoint(nodes, p, i', j').x;
    assert Ys(nodes, p)(i', j', 0) == ControlPoint(nodes, p, i', j').y;
    assert 0 + Unit(v, 2) == 0;
  }

  lemma DeltaFrom(nodes: seq<real>, p: nat, v: nat, i: int, j: int, t: real, a: Vector2)
    returns (w: Vector2)
    requires HoldsTriangle(nodes, p) && InTriangle(p - 1, i, j) && (v == 1 || v == 3)
    requires t == Trinomial(p - 1, i, j) as real
    requires a == Minus2(PointAlong(nodes, p, v, i, j), PointAlong(nodes, p, 0, i, j))
    ensures w.x == t * a.x && w.y == t * a.y
    ensures w.x == WeightedDelta(v, p - 1, Xs(nodes, p))(i, j, 0)
    ensures w.y == WeightedDelta(v, p - 1, Ys(nodes, p))(i, j, 0)
  {
    var m, high, low := p - 1, PointAlong(nodes, p, v, i, j), PointAlong(nodes, p, 0, i, j);
    RaisedPoint(nodes, p, v, i, j);
    RaisedPoint(nodes, p, 0, i, j);
    w := Vector2(WeightedDelta(v, m, Xs(nodes, p))(i, j, 0), WeightedDelta(v, m, Ys(nodes, p))(i, j, 0));
    DeltaCoordinate(v, m, Xs(nodes, p), i, j, t, high.x, low.x, a.x);
    DeltaCoordinate(v, m, Ys(nodes, p), i, j, t, high.y, low.y, a.y);
  }

  lemma CrossSplitFrom(
      nodes: seq<real>, p: nat, ci: int, cj: int, i: int, j: int, a: Vector2, b: Vector2)
    requires HoldsTriangle(nodes, p) && InTriangle(p - 1, i, j) && InTriangle(p - 1, ci - i, cj - j)
    requires a.x == WeightedDelta(1, p - 1, Xs(nodes, p))(i, j, 0)
    requires a.y == WeightedDelta(1, p - 1, Ys(nodes, p))(i, j, 0)
    requires b.x == WeightedDelta(3, p - 1, Xs(nodes, p))(ci - i, cj - j, 0)
    requires b.y == WeightedDelta(3, p - 1, Ys(nodes, p))(ci - i, cj - j, 0)
    ensures CrossSplits(nodes, p, ci, cj)(i, j, 0) == Cross2(a, b)
  {
    hide WeightedDelta;
    var m := p - 1;
    var f, g := WeightedDelta(1, m, Xs(nodes, p)), WeightedDelta(3, m, Ys(nodes, p));
    var u := SplitFrom(m, f, m, g, ci, cj, 0, i, j, 0, a.x, b.y);
    f, g := WeightedDelta(1, m, Ys(nodes, p)), WeightedDelta(3, m, Xs(nodes, p));
    var v := SplitFrom(m, f, m, g, ci, cj, 0, i, j, 0, a.y, b.x);
    assert CrossSplits(nodes, p, ci, cj)(i, j, 0) == u - v;
    CrossFrom(a, b, u, v);
  }

  lemma CrossFrom(a: Vector2, b: Vector2, u: real, v: real)
    requires u == a.x * b.y && v == a.y * b.x
    ensures u - v == Cross2(a, b)
  {
  }

  lemma TermFrom(
      nodes: seq<real>, p: nat, ci: int, cj: int, i: int, j: int, t: real, u: real, a: Vector2, b: Vector2)
    requires HoldsTriangle(nodes, p) && InTriangle(p - 1, i, j) && InTriangle(p - 1, ci - i, cj - j)
    requires t == Trinomial(p - 1, i, j) as real && u == Trinomial(p - 1, ci - i, cj - j) as real
    requires a == Minus2(PointAlong(nodes, p, 1, i, j), PointAlong(nodes, p, 0, i, j))
    requires b == Minus2(PointAlong(nodes, p, 3, ci - i, cj - j), PointAlong(nodes, p, 0, ci - i, cj - j))
    ensures SplitTermOf(nodes, p, ci, cj, i, j) == Weighed(t, u, Cross2(a, b))
  {
  }

  /** One step of the sum is one way to split. */
  lemma TermIsSplit(nodes: seq<real>, p: nat, ci: int, cj: int, i: int, j: int)
    requires HoldsTriangle(nodes, p) && InTriangle(p - 1, i, j) && InTriangle(p - 1, ci - i, cj - j)
    ensures SplitTermOf(nodes, p, ci, cj, i, j) == CrossSplits(nodes, p, ci, cj)(i, j, 0)
  {
    var t, u := Trinomial(p - 1, i, j) as real, Trinomial(p - 1, ci - i, cj - j) as real;
    var a := Minus2(PointAlong(nodes, p, 1, i, j), PointAlong(nodes, p, 0, i, j));
    var b := Minus2(PointAlong(nodes, p, 3, ci - i, cj - j), PointAlong(nodes, p, 0, ci - i, cj - j));
    var wa := DeltaFrom(nodes, p, 1, i, j, t, a);
    var wb := DeltaFrom(nodes, p, 3, ci - i, cj - j, u, b);
    TermFrom(nodes, p, ci, cj, i, j, t, u, a, b);
    CrossSplitFrom(nodes, p, ci, cj, i, j, wa, wb);
    CrossRegroup(t, u, a, b, wa, wb);
  }

  /** The contributions for all ways to split, nothing for the rest. */
  ghost predicate AreContributions(nodes: seq<real>, p: nat, ci: int, cj: int, f: Coefficients)
    requires HoldsTriangle(nodes, p)
  {
    forall i, j, k :: 0 <= k ==> IsContribution(nodes, p, ci, cj, f, i, j, k)
  }

  ghost predicate IsContribution(nodes: seq<real>, p: nat, ci: int, cj: int, f: Coefficients, i: int, j: int, k: int)
    requires HoldsTriangle(nodes, p)
  {
    f(i, j, k) ==
      if k == 0 && InTriangle(p - 1, i, j) && InTriangle(p - 1, ci - i, cj - j)
      then SplitTermOf(nodes, p, ci, cj, i, j) else 0.0
  }

  lemma SplitsAreContributions(nodes: seq<real>, p: nat, ci: int, cj: int)
    requires HoldsTriangle(nodes, p)
    ensures AreContributions(nodes, p, ci, cj, CrossSplits(nodes, p, ci, cj))
  {
    forall i, j, k | 0 <= k
      ensures IsContribution(nodes, p, ci, cj, CrossSplits(nodes, p, ci, cj), i, j, k)
    {
      if k == 0 && InTriangle(p - 1, i, j) && InTriangle(p - 1, ci - i, cj - j) {
        TermIsSplit(nodes, p, ci, cj, i, j);
      }
    }
  }

  ghost function Columns(n: nat, f: Coefficients): int -> real {
    LayerTerms(n, f, 0)
  }

  /** Nothing outside the first `p` in each direction, nor above (`ci`, `cj`, 0). */
  ghost predicate IsConfined(p: nat, ci: int, cj: int, f: Coefficients) {
    forall i, j, k :: 0 <= k && (p <= i || ci < i || p <= j || cj < j || 0 < k) ==> f(i, j, k) == 0.0
  }

  lemma ColumnsTrim(p: nat, ci: nat, cj: nat, f: Coefficients, above: nat, right: nat)
    requires IsConfined(p, ci, cj, f) && above == cj + 1 && right == ci + 1
    ensures Sum(above, Columns(right, f)) == Sum(p, Columns(p, f))
  {
    forall j: int
      ensures Columns(right, f)(j) == Columns(p, f)(j)
    {
      RowTrims(right, p, f, j, 0);
    }
    SumEqual(above, Columns(right, f), Columns(p, f));
    forall j: int | above <= j < p || p <= j < above
      ensures Columns(p, f)(j) == 0.0
    {
      SumIsZero(p, RowTerms(f, j, 0));
    }
    SumTrims(above, p, Columns(p, f));
  }

  /** The loops visit exactly the terms of the sum that are not zero. */
  lemma LoopsSumAll(p: nat, ci: nat, cj: nat, f: Coefficients, above: nat, right: nat)
    requires 0 < p && IsConfined(p, ci, cj, f) && above == cj + 1 && right == ci + 1
    ensures Sum(above, Columns(right, f)) == Box(p, f)
  {
    ColumnsTrim(p, ci, cj, f, above, right);
    SumEqual(p, Columns(p, f), LayerTerms(p, f, 0));
    forall k: int | 1 <= k < p
      ensures Layer(p, f, k) == 0.0
    {
      forall j: int
        ensures Row(p, f, j, k) == 0.0
      {
        SumIsZero(p, RowTerms(f, j, k));
      }
      SumIsZero(p, LayerTerms(p, f, k));
    }
    SumTrims(p, 1, BoxTerms(p, f));
    SumStarts(BoxTerms(p, f));
    SumGrows(0, BoxTerms(p, f));
  }

  method Nijk(nodes: seq<real>, d: nat, ci: nat, cj: nat) returns (node: real)
    requires HoldsTriangle(nodes, d) && InTriangle(2 * (d - 1), ci, cj)
    ensures IsTriNode(nodes, d, ci, cj, node)
  {
    ghost var f := CrossSplits(nodes, d, ci, cj);
    SplitsAreContributions(nodes, d, ci, cj);
    var sum := AddColumns(nodes, d, ci, cj, f);
    var cd := Trinomial(2 * (d - 1), ci, cj);
    TrinomialIsQuadnomial(2 * (d - 1), ci, cj);
    node := Divided(sum, d as real, cd as real);
    NodeFromSum(nodes, d, ci, cj, sum, d as real, cd as real, node);
  }

  function Divided(sum: real, q: real, c: real): real
    requires c != 0.0
  {
    sum * q * q / c
  }

  lemma Undivided(sum: real, q: real, c: real, node: real, s: real, whole: real)
    requires c != 0.0 && node == Divided(sum, q, c) && s == Square(q) && whole == s * sum
    ensures IsShareOf(node, c, whole)
  {
    assert c * node == sum * q * q;
  }

  lemma NodeFromSum(
      nodes: seq<real>, p: nat, i: int, j: int, sum: real, q: real, c: real, node: real)
    requires HoldsTriangle(nodes, p) && sum == Box(p, CrossSplits(nodes, p, i, j))
    requires q == p as real && c == Trinomial(2 * (p - 1), i, j) as real && c != 0.0 && node == Divided(sum, q, c)
    ensures IsTriNode(nodes, p, i, j, node)
  {
    var s, whole := Square(q), TriCoefficients(nodes, p)(i, j, 0);
    CrossSplitsSum(nodes, p, i, j, sum);
    ScaledFrom(s, CrossDifference(nodes, p), i, j, 0, sum);
    Undivided(sum, q, c, node, s, whole);
  }

  /** The outer loop. */
  method AddColumns(nodes: seq<real>, d: nat, ci: nat, cj: nat, ghost f: Coefficients) returns (sum: real)
    requires HoldsTriangle(nodes, d) && InTriangle(2 * (d - 1), ci, cj) && AreContributions(nodes, d, ci, cj, f)
    ensures sum == Box(d, f)
  {
    sum := 0.0;
    SumStarts(Columns(ci + 1, f));
    ghost var right := ci + 1;
    for j1 := 0 to cj + 1
      invariant sum == Sum(j1, Columns(right, f))
    {
      SumGrows(j1, Columns(right, f));
      sum := AddRow(nodes, d, ci, cj, j1, sum, f, right);
    }
    forall i, j, k | 0 <= k && (d <= i || ci < i || d <= j || cj < j || 0 < k)
      ensures f(i, j, k) == 0.0
    {
      assert IsContribution(nodes, d, ci, cj, f, i, j, k);
    }
    LoopsSumAll(d, ci, cj, f, cj + 1, right);
  }

  /** The inner loop: from the first split that leaves no more than the second factor can take, to the
      last that the first can. */
  method AddRow(
      nodes: seq<real>, d: nat, ci: nat, cj: nat, j1: nat, before: real, ghost f: Coefficients, ghost right: nat)
    returns (sum: real)
    requires HoldsTriangle(nodes, d) && InTriangle(2 * (d - 1), ci, cj) && j1 <= cj
    requires AreContributions(nodes, d, ci, cj, f) && right == ci + 1
    ensures sum == before + Row(right, f, j1, 0)
  {
    sum := before;
    var i1start := Max2(0, ci + cj - j1 - (d - 1));
    var i1end := Min2(ci, d - 1 - j1);
    forall i: int | !(i1start <= i <= i1end)
      ensures f(i, j1, 0) == 0.0
    {
      assert IsContribution(nodes, d, ci, cj, f, i, j1, 0);
    }
    var i1 := i1start;
    RowTrims(0, i1start, f, j1, 0);
    while i1 <= i1end
      invariant i1start <= i1 <= Max2(i1start, i1end + 1)
      invariant sum == before + Row(i1, f, j1, 0)
      decreases i1end - i1
    {
      assert IsContribution(nodes, d, ci, cj, f, i1, j1, 0);
      RowGrows(i1, f, j1, 0);
      sum := sum + SplitTermOf(nodes, d, ci, cj, i1, j1);
      i1 := i1 + 1;
    }
    RowTrims(i1, right, f, j1, 0);
  }

  // ----- all values, and the check -----

  /** The values are at the places of their exponents. */
  ghost predicate HoldsNodes(nodes: seq<real>, p: nat, dets: seq<real>)
    requires HoldsTriangle(nodes, p) && 2 <= p
  {
    && TriCount(2 * (p - 1)) <= |dets|
    && forall i, j :: InTriangle(2 * (p - 1), i, j) ==> IsNodeAt(nodes, p, dets, i, j)
  }

  ghost predicate IsNodeAt(nodes: seq<real>, p: nat, dets: seq<real>, i: int, j: int)
    requires HoldsTriangle(nodes, p) && 2 <= p && InTriangle(2 * (p - 1), i, j) && TriCount(2 * (p - 1)) <= |dets|
  {
    TriIndexInverts(2 * (p - 1), i, j);
    IsTriNode(nodes, p, i, j, dets[ComputeTriNodeIndex(2 * (p - 1), i, j)])
  }

  lemma IndicesDiffer(n: nat, i: int, j: int, ci: int, cj: int)
    requires 1 <= n && InTriangle(n, i, j) && InTriangle(n, ci, cj) && (i != ci || j != cj)
    ensures ComputeTriNodeIndex(n, i, j) != ComputeTriNodeIndex(n, ci, cj)
  {
    TriIndexInverts(n, i, j);
    TriIndexInverts(n, ci, cj);
  }

  /** The values for the exponents before (`ci`, `cj`), in the order of the loops, are in their places. */
  ghost predicate HoldsNodesBefore(elemNodes: seq<real>, p: nat, nodes: seq<real>, ci: int, cj: int)
    requires HoldsTriangle(elemNodes, p) && 2 <= p && TriCount(2 * (p - 1)) <= |nodes|
  {
    forall i, j :: InTriangle(2 * (p - 1), i, j) && (i < ci || (i == ci && j < cj)) ==>
      IsNodeAt(elemNodes, p, nodes, i, j)
  }

  lemma NodeAt(elemNodes: seq<real>, p: nat, nodes: seq<real>, i: int, j: int, y: real, at: nat)
    requires HoldsTriangle(elemNodes, p) && 2 <= p && TriCount(2 * (p - 1)) <= |nodes| && InTriangle(2 * (p - 1), i, j)
    requires at == ComputeTriNodeIndex(2 * (p - 1), i, j) && at < |nodes| && nodes[at] == y
    ensures IsNodeAt(elemNodes, p, nodes, i, j) <==> IsTriNode(elemNodes, p, i, j, y)
  {
  }

  lemma OtherNodeStays(
      elemNodes: seq<real>, p: nat, nodes: seq<real>, node: real, i: int, j: int, at: nat, other: nat)
    requires HoldsTriangle(elemNodes, p) && 2 <= p && TriCount(2 * (p - 1)) <= |nodes| && InTriangle(2 * (p - 1), i, j)
    requires other == ComputeTriNodeIndex(2 * (p - 1), i, j) && other < |nodes| && at < |nodes| && other != at
    requires IsNodeAt(elemNodes, p, nodes, i, j)
    ensures IsNodeAt(elemNodes, p, nodes[at := node], i, j)
  {
    NodeAt(elemNodes, p, nodes, i, j, nodes[other], other);
    NodeAt(elemNodes, p, nodes[at := node], i, j, nodes[other], other);
  }

  lemma OneMoreNode(
      elemNodes: seq<real>, p: nat, nodes: seq<real>, ci: int, cj: int, node: real, at: nat)
    requires HoldsTriangle(elemNodes, p) && 2 <= p && TriCount(2 * (p - 1)) <= |nodes|
    requires InTriangle(2 * (p - 1), ci, cj) && IsTriNode(elemNodes, p, ci, cj, node)
    requires at == ComputeTriNodeIndex(2 * (p - 1), ci, cj) && at < |nodes|
    requires HoldsNodesBefore(elemNodes, p, nodes, ci, cj)
    ensures HoldsNodesBefore(elemNodes, p, nodes[at := node], ci, cj + 1)
  {
    var n := 2 * (p - 1);
    forall i, j | InTriangle(n, i, j) && (i < ci || (i == ci && j < cj + 1))
      ensures IsNodeAt(elemNodes, p, nodes[at := node], i, j)
    {
      if i < ci || j < cj {
        IndicesDiffer(n, i, j, ci, cj);
        TriIndexInverts(n, i, j);
        OtherNodeStays(elemNodes, p, nodes, node, i, j, at, ComputeTriNodeIndex(n, i, j));
      } else {
        NodeAt(elemNodes, p, nodes[at := node], i, j, node, at);
      }
    }
  }

  method GetTriJacDetNodes(p: nat, size: nat, elemNodes: seq<real>) returns (nodes: seq<real>)
    requires 2 <= p && HoldsTriangle(elemNodes, p) && TriCount(2 * (p - 1)) <= size
    ensures |nodes| == size && HoldsNodes(elemNodes, p, nodes)
  {
    var n := 2 * (p - 1);
    nodes := seq(size, _ => 0.0);
    for ci := 0 to n + 1
      invariant |nodes| == size && HoldsNodesBefore(elemNodes, p, nodes, ci, 0)
    {
      for cj := 0 to n - ci + 1
        invariant |nodes| == size && HoldsNodesBefore(elemNodes, p, nodes, ci, cj)
      {
        var node := Nijk(elemNodes, p, ci, cj);
        TriIndexInverts(n, ci, cj);
        var at := ComputeTriNodeIndex(n, ci, cj);
        OneMoreNode(elemNodes, p, nodes, ci, cj, node, at);
        nodes := nodes[at := node];
      }
    }
  }

  /** Which group of values, by what the check returns, place `x` belongs to. */
  predicate IsPlaceOf(n: nat, code: int, x: int) {
    || (2 <= code <= 4 && x == code - 2)
    || (8 <= code <= 10 && 3 + (code - 8) * (n - 1) <= x < 3 + (code - 7) * (n - 1))
    || (code == 14 && 3 + 3 * (n - 1) <= x < TriCount(n))
  }

  /** The first negative value, if any, is in the group that the code tells of. */
  ghost predicate IsVerdict(nodes: seq<real>, n: nat, code: int)
    requires TriCount(n) <= |nodes|
  {
    if code == -1 then forall x :: 0 <= x < TriCount(n) ==> 0.0 <= nodes[x]
    else exists x :: 0 <= x < TriCount(n) && IsFirstNegative(nodes, x) && IsPlaceOf(n, code, x)
  }

  ghost predicate IsFirstNegative(nodes: seq<real>, x: nat)
    requires x < |nodes|
  {
    nodes[x] < 0.0 && forall y :: 0 <= y < x ==> 0.0 <= nodes[y]
  }

  method CheckMinJacDet(nodes: seq<real>, order: nat) returns (code: int)
    requires 2 <= order && TriCount(2 * (order - 1)) <= |nodes|
    ensures IsVerdict(nodes, 2 * (order - 1), code)
  {
    var minAcceptable := 0.0;
    ghost var n := 2 * (order - 1);
    for i := 0 to 3
      invariant forall x :: 0 <= x < i ==> 0.0 <= nodes[x]
    {
      if nodes[i] < minAcceptable {
        assert IsFirstNegative(nodes, i) && IsPlaceOf(n, i + 2, i);
        return i + 2;
      }
    }
    for edge := 0 to 3
      invariant forall x :: 0 <= x < 3 + edge * (n - 1) ==> 0.0 <= nodes[x]
    {
      for i := 0 to 2 * (order - 1) - 1
        invariant forall x :: 0 <= x < 3 + edge * (n - 1) + i ==> 0.0 <= nodes[x]
      {
        if nodes[3 + edge * (2 * (order - 1) - 1) + i] < minAcceptable {
          ghost var x := 3 + edge * (n - 1) + i;
          assert IsFirstNegative(nodes, x) && IsPlaceOf(n, 8 + edge, x);
          return 8 + edge;
        }
      }
    }
    PairsClosed(n - 1);
    assert (2 * order - 3) * (2 * order - 4) == (n - 1) * (n - 2);
    for i := 0 to Quotient((2 * order - 3) * (2 * order - 4), 2)
      invariant forall x :: 0 <= x < 3 + 3 * (n - 1) + i ==> 0.0 <= nodes[x]
    {
      if nodes[6 * (order - 1) + i] < minAcceptable {
        ghost var x := 6 * (order - 1) + i;
        assert IsFirstNegative(nodes, x) && IsPlaceOf(n, 14, x);
        return 14;
      }
    }
    return -1;
  }

  /** The code for a coefficient: 2 to 4 at the corners, 8 to 10 on the sides from the first corner to the second, to
      the third and back, 14 inside. */
  function GroupOf(n: int, i: int, j: int): int {
    var k := n - i - j;
    if i == n then 2 else if j == n then 3 else if k == n then 4
    else if k == 0 then 8 else if i == 0 then 9 else if j == 0 then 10 else 14
  }

  ghost predicate IsNegativeIn(c: Coefficients, n: int, code: int, i: int, j: int) {
    InTriangle(n, i, j) && GroupOf(n, i, j) == code && c(i, j, 0) < 0.0
  }

  /** No coefficient is negative, or `code` is the first group that has a negative one. */
  ghost predicate IsFirstBadGroup(c: Coefficients, n: int, code: int) {
    && (code == -1 <==> forall i, j :: InTriangle(n, i, j) ==> 0.0 <= c(i, j, 0))
    && (code != -1 ==>
          && (exists i, j :: IsNegativeIn(c, n, code, i, j))
          && forall i, j :: InTriangle(n, i, j) && GroupOf(n, i, j) < code ==> 0.0 <= c(i, j, 0))
  }

  /** The check of one triangle: it tells the first group of coefficients with a negative one, and accepts the
      triangle only if the determinant is nowhere negative on it. */
  method CheckTriangle(order: nat, size: nat, points: seq<real>) returns (code: int)
    requires 2 <= order && HoldsTriangle(points, order) && TriCount(2 * (order - 1)) <= size
    ensures IsFirstBadGroup(TriCoefficients(points, order), 2 * (order - 1), code)
    ensures code == -1 ==> forall x: Point :: x.IsNotNegative() ==> 0.0 <= TriJacobian(points, order, x)
  {
    var nodes := GetTriJacDetNodes(order, size, points);
    code := CheckMinJacDet(nodes, order);
    VerdictIsOnCoefficients(points, order, nodes, 2 * (order - 1), code);
    if code == -1 {
      forall x: Point | x.IsNotNegative()
        ensures 0.0 <= TriJacobian(points, order, x)
      {
        ValidTriangle(points, order, x, 2 * (order - 1));
      }
    }
  }

  /** The groups are in the order of the places. */
  lemma GroupsAreInOrder(n: nat, x: nat, i: int, j: int, code: int)
    requires 1 <= n && InTriangle(n, i, j) && x < TriCount(n) && IsPlaceOf(n, code, x)
    ensures GroupOf(n, i, j) < code ==> ComputeTriNodeIndex(n, i, j) < x
    ensures ComputeTriNodeIndex(n, i, j) == x ==> GroupOf(n, i, j) == code
  {
    hide Quotient;
    if 0 < i && 0 < j && i + j < n {
      RowFormula(n, n - i - j, j);
      RowInvertsFind(n - 2, n - i - j, j);
    }
  }

  lemma VerdictIsOnCoefficients(points: seq<real>, p: nat, nodes: seq<real>, n: nat, code: int)
    requires 2 <= p && HoldsTriangle(points, p) && HoldsNodes(points, p, nodes) && n == 2 * (p - 1)
    requires IsVerdict(nodes, n, code)
    ensures IsFirstBadGroup(TriCoefficients(points, p), n, code)
  {
    assert TriCount(n) <= |nodes|;
    hide ComputeTriNodeIndex, GroupOf, TriCoefficients, IsPlaceOf, HoldsNodes;
    var c := TriCoefficients(points, p);
    AllNodesAreChecked(points, p, nodes, n);
    if code != -1 {
      var x: nat :| x < TriCount(n) && IsFirstNegative(nodes, x) && IsPlaceOf(n, code, x);
      TriDecodeInverts(n, x);
      var (i, j) := DecodeTri(n, x);
      NodeHasSign(points, p, nodes, i, j, n);
      GroupsAreInOrder(n, x, i, j, code);
      assert IsNegativeIn(c, n, code, i, j);
      forall i, j | InTriangle(n, i, j) && GroupOf(n, i, j) < code
        ensures 0.0 <= c(i, j, 0)
      {
        NodeHasSign(points, p, nodes, i, j, n);
        GroupsAreInOrder(n, x, i, j, code);
      }
    }
  }

  /** The places below the count are those of the exponents. */
  lemma AllNodesAreChecked(points: seq<real>, p: nat, nodes: seq<real>, n: nat)
    requires 2 <= p && HoldsTriangle(points, p) && HoldsNodes(points, p, nodes) && n == 2 * (p - 1)
    ensures (forall x :: 0 <= x < TriCount(n) ==> 0.0 <= nodes[x]) <==>
      forall i, j :: InTriangle(n, i, j) ==> 0.0 <= TriCoefficients(points, p)(i, j, 0)
  {
    if forall x :: 0 <= x < TriCount(n) ==> 0.0 <= nodes[x] {
      forall i, j | InTriangle(n, i, j)
        ensures 0.0 <= TriCoefficients(points, p)(i, j, 0)
      {
        NodeHasSign(points, p, nodes, i, j, n);
      }
    }
    if forall i, j :: InTriangle(n, i, j) ==> 0.0 <= TriCoefficients(points, p)(i, j, 0) {
      forall x: nat | x < TriCount(n)
        ensures 0.0 <= nodes[x]
      {
        TriDecodeInverts(n, x);
        var (i, j) := DecodeTri(n, x);
        NodeHasSign(points, p, nodes, i, j, n);
      }
    }
  }

  lemma NodeHasSign(points: seq<real>, p: nat, nodes: seq<real>, i: int, j: int, n: nat)
    requires 2 <= p && HoldsTriangle(points, p) && HoldsNodes(points, p, nodes) && n == 2 * (p - 1)
    requires InTriangle(n, i, j)
    ensures 0 <= ComputeTriNodeIndex(n, i, j) < TriCount(n)
    ensures 0.0 <= nodes[ComputeTriNodeIndex(n, i, j)] <==> 0.0 <= TriCoefficients(points, p)(i, j, 0)
  {
    TriIndexInverts(n, i, j);
    assert IsNodeAt(points, p, nodes, i, j);
    SignOfNode(points, p, i, j, nodes[ComputeTriNodeIndex(n, i, j)]);
  }
}
