/** The validity check of curved tetrahedra (`Nijkl`, `getTetJacDetNodes`, `checkMinJacDet_3d`): as for
    triangles, the values it looks at are the Bernstein coefficients of the Jacobian determinant. */
module TetValidity {
  import opened Forms
  import opened Polynomials
  import opened Bernstein
  import opened NodeNumbering

  datatype Vector3 = Vector3(x: real, y: real, z: real)

  function GetVector3(nodes: seq<real>, at: nat): Vector3
    requires 3 * at + 2 < |nodes|
  {
    Vector3(nodes[3 * at], nodes[3 * at + 1], nodes[3 * at + 2])
  }

  function Minus3(a: Vector3, b: Vector3): Vector3 {
    Vector3(a.x - b.x, a.y - b.y, a.z - b.z)
  }

  function Cross3(a: Vector3, b: Vector3): Vector3 {
    Vector3(a.y * b.z - a.z * b.y, a.z * b.x - a.x * b.z, a.x * b.y - a.y * b.x)
  }

  function Dot3(a: Vector3, b: Vector3): real {
    a.x * b.x + a.y * b.y + a.z * b.z
  }

  /** Room for all control points of a tetrahedron of order `p`. */
  predicate HoldsTetrahedron(nodes: seq<real>, p: nat) {
    1 <= p && 3 * TetCount(p) <= |nodes|
  }

  function ControlPoint(nodes: seq<real>, p: nat, i: int, j: int, k: int): Vector3
    requires HoldsTetrahedron(nodes, p) && InTetrahedron(p, i, j, k)
  {
    TetIndexInverts(p, i, j, k);
    GetVector3(nodes, ComputeTetNodeIndex(p, i, j, k))
  }

  /** The exponents of one factor of a term. */
  datatype Exps = Exps(i: int, j: int, k: int)

  predicate IsLegal(p: nat, e: Exps) {
    InTetrahedron(p - 1, e.i, e.j, e.k)
  }

  function GetTetPartialJacobianDet(nodes: seq<real>, p: nat, e1: Exps, e2: Exps, e3: Exps): real
    requires HoldsTetrahedron(nodes, p) && IsLegal(p, e1) && IsLegal(p, e2) && IsLegal(p, e3)
  {
    Dot3(Cross3(Minus3(ControlPoint(nodes, p, e1.i, e1.j + 1, e1.k), ControlPoint(nodes, p, e1.i + 1, e1.j, e1.k)),
                Minus3(ControlPoint(nodes, p, e2.i, e2.j, e2.k + 1), ControlPoint(nodes, p, e2.i + 1, e2.j, e2.k))),
         Minus3(ControlPoint(nodes, p, e3.i, e3.j, e3.k), ControlPoint(nodes, p, e3.i + 1, e3.j, e3.k)))
  }

  // ----- the Jacobian determinant -----

  function Component(a: Vector3, d: nat): real {
    if d == 0 then a.x else if d == 1 then a.y else a.z
  }

  ghost predicate IsControlValue(b: Coefficients, nodes: seq<real>, p: nat, d: nat, i: int, j: int, k: int)
    requires HoldsTetrahedron(nodes, p)
  {
    b(i, j, k) == if InTetrahedron(p, i, j, k) then Component(ControlPoint(nodes, p, i, j, k), d) else 0.0
  }

  ghost predicate AreControlValues(b: Coefficients, nodes: seq<real>, p: nat, d: nat)
    requires HoldsTetrahedron(nodes, p)
  {
    forall i, j, k {:trigger IsControlValue(b, nodes, p, d, i, j, k)} :: IsControlValue(b, nodes, p, d, i, j, k)
  }

  lemma ControlValuesExist(nodes: seq<real>, p: nat, d: nat)
    requires HoldsTetrahedron(nodes, p)
    ensures exists b :: AreControlValues(b, nodes, p, d)
  {
    var b := (i, j, k) => if InTetrahedron(p, i, j, k) then Component(ControlPoint(nodes, p, i, j, k), d) else 0.0;
    forall i, j, k
      ensures IsControlValue(b, nodes, p, d, i, j, k)
    {
    }
    assert AreControlValues(b, nodes, p, d);
  }

  /** Coordinate `d` of the control points, as control values. */
  ghost function Values(nodes: seq<real>, p: nat, d: nat): Coefficients
    requires HoldsTetrahedron(nodes, p)
  {
    ControlValuesExist(nodes, p, d);
    var b :| AreControlValues(b, nodes, p, d);
    b
  }

  ghost function Xs(nodes: seq<real>, p: nat): Coefficients
    requires HoldsTetrahedron(nodes, p)
  {
    Values(nodes, p, 0)
  }

  ghost function Ys(nodes: seq<real>, p: nat): Coefficients
    requires HoldsTetrahedron(nodes, p)
  {
    Values(nodes, p, 1)
  }

  ghost function Zs(nodes: seq<real>, p: nat): Coefficients
    requires HoldsTetrahedron(nodes, p)
  {
    Values(nodes, p, 2)
  }

  /** The derivative of the map at `x` in the direction from the first corner to that of coordinate `v`. */
  ghost function Derivative(nodes: seq<real>, p: nat, v: nat, x: Point): Vector3
    requires HoldsTetrahedron(nodes, p) && v < 4
  {
    Vector3(Along(v, p, Xs(nodes, p), x), Along(v, p, Ys(nodes, p), x), Along(v, p, Zs(nodes, p), x))
  }

  /** The Jacobian determinant of the map of the tetrahedron. */
  ghost function TetJacobian(nodes: seq<real>, p: nat, x: Point): real
    requires HoldsTetrahedron(nodes, p)
  {
    Dot3(Cross3(Derivative(nodes, p, 1, x), Derivative(nodes, p, 2, x)), Derivative(nodes, p, 3, x))
  }

  // ----- its coefficients -----

  /** The coefficients of the product of three derivatives. */
  ghost function TripleProduct(p: nat, b: Coefficients, c: Coefficients, e: Coefficients): Coefficients
    requires 1 <= p
  {
    var m := p - 1;
    Product(m, WeightedDelta(1, m, b), 2 * m, Product(m, WeightedDelta(2, m, c), m, WeightedDelta(3, m, e)))
  }

  /** The six products that make up the determinant, with their signs. */
  ghost function Alternating(f1: Coefficients, f2: Coefficients, f3: Coefficients,
                             f4: Coefficients, f5: Coefficients, f6: Coefficients): Coefficients {
    Together(Difference(f1, f2), Together(Difference(f3, f4), Difference(f5, f6)))
  }

  ghost function SixProducts(nodes: seq<real>, p: nat): Coefficients
    requires HoldsTetrahedron(nodes, p)
  {
    var x, y, z := Xs(nodes, p), Ys(nodes, p), Zs(nodes, p);
    Alternating(TripleProduct(p, y, z, x), TripleProduct(p, z, y, x), TripleProduct(p, z, x, y),
                TripleProduct(p, x, z, y), TripleProduct(p, x, y, z), TripleProduct(p, y, x, z))
  }

  ghost function Cube(q: real): real {
    q * q * q
  }

  /** The coefficients of the Jacobian determinant. */
  ghost function TetCoefficients(nodes: seq<real>, p: nat): Coefficients
    requires HoldsTetrahedron(nodes, p)
  {
    Scaled(Cube(p as real), SixProducts(nodes, p))
  }

  ghost function Times3(a: real, b: real, c: real): real {
    a * (b * c)
  }

  lemma TripleExpands(a: Vector3, b: Vector3, c: Vector3)
    ensures Dot3(Cross3(a, b), c) ==
      (Times3(a.y, b.z, c.x) - Times3(a.z, b.y, c.x))
      + ((Times3(a.z, b.x, c.y) - Times3(a.x, b.z, c.y)) + (Times3(a.x, b.y, c.z) - Times3(a.y, b.x, c.z)))
  {
    OneComponent(a.y, b.z, a.z, b.y, c.x);
    OneComponent(a.z, b.x, a.x, b.z, c.y);
    OneComponent(a.x, b.y, a.y, b.x, c.z);
  }

  lemma OneComponent(a: real, b: real, c: real, d: real, e: real)
    ensures (a * b - c * d) * e == Times3(a, b, e) - Times3(c, d, e)
  {
  }

  lemma Times3Scales(
      q: real, s: real, a': real, a: real, b': real, b: real, c': real, c: real, abc: real)
    returns (abc': real)
    requires a' == q * a && b' == q * b && c' == q * c && s == Cube(q) && abc == Times3(a, b, c)
    ensures abc' == Times3(a', b', c') && abc' == s * abc
  {
    abc' := Times3(a', b', c');
    assert (q * b) * (q * c) == (q * q) * (b * c);
    assert (q * a) * ((q * q) * (b * c)) == (q * q * q) * (a * (b * c));
  }

  lemma Distribute6(
      s: real, a: real, b: real, c: real, d: real, e: real, f: real, rest: real,
      a': real, b': real, c': real, d': real, e': real, f': real)
    requires rest == (a - b) + ((c - d) + (e - f))
    requires a' == s * a && b' == s * b && c' == s * c && d' == s * d && e' == s * e && f' == s * f
    ensures s * rest == (a' - b') + ((c' - d') + (e' - f'))
  {
    Distribute2(s, a, b, a - b);
    Distribute2(s, c, d, c - d);
    Distribute2(s, e, f, e - f);
    assert s * ((a - b) + ((c - d) + (e - f))) == s * (a - b) + (s * (c - d) + s * (e - f));
  }

  lemma Distribute2(s: real, a: real, b: real, c: real)
    requires c == a - b
    ensures s * c == s * a - s * b
  {
  }

  lemma TripleForm(
      p: nat, b: Coefficients, c: Coefficients, e: Coefficients, x: Point, n: nat, fb: real, fc: real, fe: real)
    returns (form: real)
    requires 1 <= p && n == 3 * (p - 1)
    requires fb == Form(p - 1, WeightedDelta(1, p - 1, b), x) && fc == Form(p - 1, WeightedDelta(2, p - 1, c), x)
    requires fe == Form(p - 1, WeightedDelta(3, p - 1, e), x)
    ensures form == Form(n, TripleProduct(p, b, c, e), x) && form == Times3(fb, fc, fe)
  {
    var m: nat := p - 1;
    var fce := ProductOfForms(m, WeightedDelta(2, m, c), m, WeightedDelta(3, m, e), x, fc, fe);
    form := ProductOfForms(
      m, WeightedDelta(1, m, b), 2 * m, Product(m, WeightedDelta(2, m, c), m, WeightedDelta(3, m, e)), x, fb, fce);
  }

  lemma AlternatingForm(
      n: nat, f1: Coefficients, f2: Coefficients, f3: Coefficients, f4: Coefficients, f5: Coefficients,
      f6: Coefficients, x: Point)
    ensures Form(n, Alternating(f1, f2, f3, f4, f5, f6), x) ==
      (Form(n, f1, x) - Form(n, f2, x)) + ((Form(n, f3, x) - Form(n, f4, x)) + (Form(n, f5, x) - Form(n, f6, x)))
  {
    FormDiffers(n, f1, f2, x);
    FormDiffers(n, f3, f4, x);
    FormDiffers(n, f5, f6, x);
    FormTogether(n, Difference(f3, f4), Difference(f5, f6), x);
    FormTogether(n, Difference(f1, f2), Together(Difference(f3, f4), Difference(f5, f6)), x);
  }

  /** The derivative along one direction, as forms. */
  lemma DerivativeForms(nodes: seq<real>, p: nat, v: nat, x: Point, q: real)
    returns (d: Vector3, f: Vector3)
    requires HoldsTetrahedron(nodes, p) && v < 4 && q == p as real
    ensures d == Derivative(nodes, p, v, x) && d.x == q * f.x && d.y == q * f.y && d.z == q * f.z
    ensures f.x == Form(p - 1, WeightedDelta(v, p - 1, Xs(nodes, p)), x)
    ensures f.y == Form(p - 1, WeightedDelta(v, p - 1, Ys(nodes, p)), x)
    ensures f.z == Form(p - 1, WeightedDelta(v, p - 1, Zs(nodes, p)), x)
  {
    var m: nat := p - 1;
    var dx, fx := AlongIsForm(v, p, Xs(nodes, p), x, m, q);
    var dy, fy := AlongIsForm(v, p, Ys(nodes, p), x, m, q);
    var dz, fz := AlongIsForm(v, p, Zs(nodes, p), x, m, q);
    d, f := ScaledVector(q, dx, dy, dz, fx, fy, fz);
  }

  lemma ScaledVector(q: real, dx: real, dy: real, dz: real, fx: real, fy: real, fz: real)
    returns (d: Vector3, f: Vector3)
    requires dx == q * fx && dy == q * fy && dz == q * fz
    ensures d == Vector3(dx, dy, dz) && f == Vector3(fx, fy, fz)
    ensures d.x == q * f.x && d.y == q * f.y && d.z == q * f.z
  {
    d, f := Vector3(dx, dy, dz), Vector3(fx, fy, fz);
  }

  lemma TripleScales(
      q: real, s: real, a': Vector3, a: Vector3, b': Vector3, b: Vector3, c': Vector3, c: Vector3,
      t1: real, t2: real, t3: real, t4: real, t5: real, t6: real, rest: real)
    requires a'.x == q * a.x && a'.y == q * a.y && a'.z == q * a.z
    requires b'.x == q * b.x && b'.y == q * b.y && b'.z == q * b.z
    requires c'.x == q * c.x && c'.y == q * c.y && c'.z == q * c.z && s == Cube(q)
    requires t1 == Times3(a.y, b.z, c.x) && t2 == Times3(a.z, b.y, c.x) && t3 == Times3(a.z, b.x, c.y)
    requires t4 == Times3(a.x, b.z, c.y) && t5 == Times3(a.x, b.y, c.z) && t6 == Times3(a.y, b.x, c.z)
    requires rest == (t1 - t2) + ((t3 - t4) + (t5 - t6))
    ensures Dot3(Cross3(a', b'), c') == s * rest
  {
    hide Times3, Dot3, Cross3;
    var u1 := Times3Scales(q, s, a'.y, a.y, b'.z, b.z, c'.x, c.x, t1);
    var u2 := Times3Scales(q, s, a'.z, a.z, b'.y, b.y, c'.x, c.x, t2);
    var u3 := Times3Scales(q, s, a'.z, a.z, b'.x, b.x, c'.y, c.y, t3);
    var u4 := Times3Scales(q, s, a'.x, a.x, b'.z, b.z, c'.y, c.y, t4);
    var u5 := Times3Scales(q, s, a'.x, a.x, b'.y, b.y, c'.z, c.z, t5);
    var u6 := Times3Scales(q, s, a'.y, a.y, b'.x, b.x, c'.z, c.z, t6);
    assert Dot3(Cross3(a', b'), c') == (u1 - u2) + ((u3 - u4) + (u5 - u6)) by {
      TripleExpands(a', b', c');
    }
    Distribute6(s, t1, t2, t3, t4, t5, t6, rest, u1, u2, u3, u4, u5, u6);
  }

  /** The Jacobian determinant is the polynomial with these coefficients, for any control points and any
      order. */
  lemma JacobianHasCoefficients(nodes: seq<real>, p: nat, x: Point, n: nat)
    requires HoldsTetrahedron(nodes, p) && n == 3 * (p - 1)
    ensures TetJacobian(nodes, p, x) == Form(n, TetCoefficients(nodes, p), x)
  {
    var q := p as real;
    var s := Cube(q);
    var xs, ys, zs := Xs(nodes, p), Ys(nodes, p), Zs(nodes, p);
    var a', a := DerivativeForms(nodes, p, 1, x, q);
    var b', b := DerivativeForms(nodes, p, 2, x, q);
    var c', c := DerivativeForms(nodes, p, 3, x, q);
    var t1 := TripleForm(p, ys, zs, xs, x, n, a.y, b.z, c.x);
    var t2 := TripleForm(p, zs, ys, xs, x, n, a.z, b.y, c.x);
    var t3 := TripleForm(p, zs, xs, ys, x, n, a.z, b.x, c.y);
    var t4 := TripleForm(p, xs, zs, ys, x, n, a.x, b.z, c.y);
    var t5 := TripleForm(p, xs, ys, zs, x, n, a.x, b.y, c.z);
    var t6 := TripleForm(p, ys, xs, zs, x, n, a.y, b.x, c.z);
    AlternatingForm(n, TripleProduct(p, ys, zs, xs), TripleProduct(p, zs, ys, xs), TripleProduct(p, zs, xs, ys),
                    TripleProduct(p, xs, zs, ys), TripleProduct(p, xs, ys, zs), TripleProduct(p, ys, xs, zs), x);
    var rest := Form(n, SixProducts(nodes, p), x);
    TripleScales(q, s, a', a, b', b, c', c, t1, t2, t3, t4, t5, t6, rest);
    FormScales(n, SixProducts(nodes, p), s, x, rest);
  }

  /** If none of the coefficients is negative, the determinant is nowhere negative on the tetrahedron. */
  lemma ValidTetrahedron(nodes: seq<real>, p: nat, x: Point, n: nat)
    requires HoldsTetrahedron(nodes, p) && n == 3 * (p - 1) && x.IsNotNegative()
    requires forall i, j, k :: InTetrahedron(n, i, j, k) ==> 0.0 <= TetCoefficients(nodes, p)(i, j, k)
    ensures 0.0 <= TetJacobian(nodes, p, x)
  {
    var c := TetCoefficients(nodes, p);
    forall i, j, k | InSimplex(n, i, j, k)
      ensures 0.0 <= c(i, j, k)
    {
      assert InTetrahedron(n, i, j, k);
    }
    JacobianHasCoefficients(nodes, p, x, n);
    FormIsNotNegative(n, c, x);
  }

  // ----- the coefficients as sums over all ways to split the exponents -----

  function Rest(c: Exps, e1: Exps, e2: Exps): Exps {
    Exps(c.i - e1.i - e2.i, c.j - e1.j - e2.j, c.k - e1.k - e2.k)
  }

  /** `e1`, `e2` and what they leave of `c` are exponents of the three factors. */
  predicate IsSplit(p: nat, c: Exps, e1: Exps, e2: Exps) {
    IsLegal(p, e1) && IsLegal(p, e2) && IsLegal(p, Rest(c, e1, e2))
  }

  function Weighed(t: real, u: real, v: real, det: real): real {
    t * u * v * det
  }

  function Weight(p: nat, e: Exps): nat {
    Quadnomial(p - 1, e.i, e.j, e.k)
  }

  /** What one turn of the loops adds. */
  function SplitTermOf(nodes: seq<real>, p: nat, c: Exps, e1: Exps, e2: Exps): real
    requires HoldsTetrahedron(nodes, p) && IsSplit(p, c, e1, e2)
  {
    var e3 := Rest(c, e1, e2);
    Weighed(Weight(p, e1) as real, Weight(p, e2) as real, Weight(p, e3) as real,
            GetTetPartialJacobianDet(nodes, p, e1, e2, e3))
  }

  /** The same, by the control values. */
  ghost function TermAt(nodes: seq<real>, p: nat, c: Exps, e1: Exps, e2: Exps): real
    requires HoldsTetrahedron(nodes, p)
  {
    if IsSplit(p, c, e1, e2) then
      var e3 := Rest(c, e1, e2);
      Weighed(Weight(p, e1) as real, Weight(p, e2) as real, Weight(p, e3) as real,
              Dot3(Cross3(Step(nodes, p, 1, e1), Step(nodes, p, 2, e2)), Step(nodes, p, 3, e3)))
    else 0.0
  }

  /** The difference of the control points along the direction of coordinate `v`. */
  ghost function Step(nodes: seq<real>, p: nat, v: nat, e: Exps): Vector3
    requires HoldsTetrahedron(nodes, p)
  {
    Vector3(Delta(v, Xs(nodes, p))(e.i, e.j, e.k), Delta(v, Ys(nodes, p))(e.i, e.j, e.k),
            Delta(v, Zs(nodes, p))(e.i, e.j, e.k))
  }

  ghost function TermsAfter(nodes: seq<real>, p: nat, c: Exps, e1: Exps): Coefficients
    requires HoldsTetrahedron(nodes, p)
  {
    (i, j, k) => TermAt(nodes, p, c, e1, Exps(i, j, k))
  }

  ghost function Terms(nodes: seq<real>, p: nat, c: Exps): PairFamily
    requires HoldsTetrahedron(nodes, p)
  {
    (i, j, k) => TermsAfter(nodes, p, c, Exps(i, j, k))
  }

  /** The share of one of the six products in a term. */
  ghost function TripleAt(p: nat, b: Coefficients, d: Coefficients, f: Coefficients, c: Exps, e1: Exps, e2: Exps): real
    requires 1 <= p
  {
    if IsSplit(p, c, e1, e2) then
      var e3 := Rest(c, e1, e2);
      Times3(WeightedDelta(1, p - 1, b)(e1.i, e1.j, e1.k), WeightedDelta(2, p - 1, d)(e2.i, e2.j, e2.k),
             WeightedDelta(3, p - 1, f)(e3.i, e3.j, e3.k))
    else 0.0
  }

  ghost function TriplesAfter(
      p: nat, b: Coefficients, d: Coefficients, f: Coefficients, c: Exps, e1: Exps): Coefficients
    requires 1 <= p
  {
    (i, j, k) => TripleAt(p, b, d, f, c, e1, Exps(i, j, k))
  }

  ghost function OuterSplits(p: nat, b: Coefficients, d: Coefficients, f: Coefficients, c: Exps): Coefficients
    requires 1 <= p
  {
    var m := p - 1;
    Splits(m, WeightedDelta(1, m, b), 2 * m,
      Product(m, WeightedDelta(2, m, d), m, WeightedDelta(3, m, f)), c.i, c.j, c.k)
  }

  lemma TripleIsInnerSplit(
      p: nat, b: Coefficients, d: Coefficients, f: Coefficients, c: Exps, e1: Exps, i: int, j: int, k: int,
      w: real)
    requires 1 <= p && IsLegal(p, e1) && w == WeightedDelta(1, p - 1, b)(e1.i, e1.j, e1.k)
    ensures TriplesAfter(p, b, d, f, c, e1)(i, j, k) == w * InnerSplits(p, d, f, c, e1)(i, j, k)
  {
    var m, e2 := p - 1, Exps(i, j, k);
    if IsSplit(p, c, e1, e2) {
      var e3 := Rest(c, e1, e2);
      var y, z := WeightedDelta(2, m, d)(i, j, k), WeightedDelta(3, m, f)(e3.i, e3.j, e3.k);
      var yz := SplitFrom(m, WeightedDelta(2, m, d), m, WeightedDelta(3, m, f), c.i - e1.i, c.j - e1.j, c.k - e1.k,
                          i, j, k, y, z);
    }
  }

  ghost function InnerSplits(p: nat, d: Coefficients, f: Coefficients, c: Exps, e1: Exps): Coefficients
    requires 1 <= p
  {
    var m := p - 1;
    Splits(m, WeightedDelta(2, m, d), m, WeightedDelta(3, m, f), c.i - e1.i, c.j - e1.j, c.k - e1.k)
  }

  lemma InnerBox(
      p: nat, b: Coefficients, d: Coefficients, f: Coefficients, c: Exps, e1: Exps, w: real, y: real)
    requires 1 <= p && IsLegal(p, e1) && w == WeightedDelta(1, p - 1, b)(e1.i, e1.j, e1.k)
    requires y == Box(p, InnerSplits(p, d, f, c, e1))
    ensures Box(p, TriplesAfter(p, b, d, f, c, e1)) == w * y
  {
    forall i, j, k | InBox(p, i, j, k)
      ensures TriplesAfter(p, b, d, f, c, e1)(i, j, k) == w * InnerSplits(p, d, f, c, e1)(i, j, k)
    {
      TripleIsInnerSplit(p, b, d, f, c, e1, i, j, k, w);
    }
    BoxScalesTo(p, InnerSplits(p, d, f, c, e1), TriplesAfter(p, b, d, f, c, e1), w, y);
  }

  lemma OuterSplitIsBox(
      p: nat, b: Coefficients, d: Coefficients, f: Coefficients, c: Exps, e1: Exps)
    requires 1 <= p
    ensures OuterSplits(p, b, d, f, c)(e1.i, e1.j, e1.k) == Box(p, TriplesAfter(p, b, d, f, c, e1))
  {
    if IsLegal(p, e1) && InSimplex(2 * (p - 1), c.i - e1.i, c.j - e1.j, c.k - e1.k) {
      var w, y := WeightedDelta(1, p - 1, b)(e1.i, e1.j, e1.k), Box(p, InnerSplits(p, d, f, c, e1));
      InnerBox(p, b, d, f, c, e1, w, y);
      OuterSplitFrom(p, b, d, f, c, e1, w, y);
    } else {
      var after := TriplesAfter(p, b, d, f, c, e1);
      forall i, j, k | InBox(p, i, j, k)
        ensures after(i, j, k) == 0.0
      {
        assert !IsSplit(p, c, e1, Exps(i, j, k));
      }
      BoxIsZero(p, after);
    }
  }

  lemma OuterSplitFrom(
      p: nat, b: Coefficients, d: Coefficients, f: Coefficients, c: Exps, e1: Exps, w: real, y: real)
    requires 1 <= p && IsLegal(p, e1) && InSimplex(2 * (p - 1), c.i - e1.i, c.j - e1.j, c.k - e1.k)
    requires w == WeightedDelta(1, p - 1, b)(e1.i, e1.j, e1.k)
    requires y == Box(p, InnerSplits(p, d, f, c, e1))
    ensures OuterSplits(p, b, d, f, c)(e1.i, e1.j, e1.k) == w * y
  {
    var m := p - 1;
    var wy := SplitFrom(m, WeightedDelta(1, m, b), 2 * m, Product(m, WeightedDelta(2, m, d), m, WeightedDelta(3, m, f)),
                        c.i, c.j, c.k, e1.i, e1.j, e1.k, w, y);
  }

  // ----- one term -----

  /** The point one step along coordinate `v`. */
  function PointAlong(nodes: seq<real>, p: nat, v: nat, e: Exps): Vector3
    requires HoldsTetrahedron(nodes, p) && IsLegal(p, e) && v < 4
  {
    ControlPoint(nodes, p, e.i + Unit(v, 0), e.j + Unit(v, 1), e.k + Unit(v, 2))
  }

  lemma RaisedPoint(nodes: seq<real>, p: nat, v: nat, e: Exps, d: nat)
    requires HoldsTetrahedron(nodes, p) && IsLegal(p, e) && v < 4
    ensures Raised(v, Values(nodes, p, d))(e.i, e.j, e.k) == Component(PointAlong(nodes, p, v, e), d)
  {
    var i, j, k := e.i + Unit(v, 0), e.j + Unit(v, 1), e.k + Unit(v, 2);
    assert InTetrahedron(p, i, j, k) && IsControlValue(Values(nodes, p, d), nodes, p, d, i, j, k);
  }

  lemma StepIsDifference(nodes: seq<real>, p: nat, v: nat, e: Exps)
    requires HoldsTetrahedron(nodes, p) && IsLegal(p, e) && v < 4
    ensures Step(nodes, p, v, e) == Minus3(PointAlong(nodes, p, v, e), PointAlong(nodes, p, 0, e))
  {
    RaisedPoint(nodes, p, v, e, 0);
    RaisedPoint(nodes, p, 0, e, 0);
    RaisedPoint(nodes, p, v, e, 1);
    RaisedPoint(nodes, p, 0, e, 1);
    RaisedPoint(nodes, p, v, e, 2);
    RaisedPoint(nodes, p, 0, e, 2);
  }

  lemma PartialDetFrom(
      nodes: seq<real>, p: nat, e1: Exps, e2: Exps, e3: Exps, a: Vector3, b: Vector3, c: Vector3)
    requires HoldsTetrahedron(nodes, p) && IsLegal(p, e1) && IsLegal(p, e2) && IsLegal(p, e3)
    requires a == Minus3(PointAlong(nodes, p, 1, e1), PointAlong(nodes, p, 0, e1))
    requires b == Minus3(PointAlong(nodes, p, 2, e2), PointAlong(nodes, p, 0, e2))
    requires c == Minus3(PointAlong(nodes, p, 3, e3), PointAlong(nodes, p, 0, e3))
    ensures GetTetPartialJacobianDet(nodes, p, e1, e2, e3) == Dot3(Cross3(a, b), c)
  {
  }

  /** One summand of `Nijkl` is one term of the product of the three differences. */
  lemma SplitTermIsTerm(nodes: seq<real>, p: nat, c: Exps, e1: Exps, e2: Exps)
    requires HoldsTetrahedron(nodes, p) && IsSplit(p, c, e1, e2)
    ensures SplitTermOf(nodes, p, c, e1, e2) == TermAt(nodes, p, c, e1, e2)
  {
    var e3 := Rest(c, e1, e2);
    StepIsDifference(nodes, p, 1, e1);
    StepIsDifference(nodes, p, 2, e2);
    StepIsDifference(nodes, p, 3, e3);
    PartialDetFrom(nodes, p, e1, e2, e3, Step(nodes, p, 1, e1), Step(nodes, p, 2, e2), Step(nodes, p, 3, e3));
  }

  lemma WeightedStep(
      nodes: seq<real>, p: nat, v: nat, e: Exps, t: real, a: Vector3)
    returns (w: Vector3)
    requires HoldsTetrahedron(nodes, p) && t == Weight(p, e) as real && a == Step(nodes, p, v, e)
    ensures w.x == t * a.x && w.y == t * a.y && w.z == t * a.z
    ensures w.x == WeightedDelta(v, p - 1, Xs(nodes, p))(e.i, e.j, e.k)
    ensures w.y == WeightedDelta(v, p - 1, Ys(nodes, p))(e.i, e.j, e.k)
    ensures w.z == WeightedDelta(v, p - 1, Zs(nodes, p))(e.i, e.j, e.k)
  {
    hide HoldsTetrahedron;
    var m := p - 1;
    w := Vector3(WeightedDelta(v, m, Xs(nodes, p))(e.i, e.j, e.k), WeightedDelta(v, m, Ys(nodes, p))(e.i, e.j, e.k),
                 WeightedDelta(v, m, Zs(nodes, p))(e.i, e.j, e.k));
    WeightedFrom(m, Delta(v, Xs(nodes, p)), e.i, e.j, e.k, t, a.x);
    WeightedFrom(m, Delta(v, Ys(nodes, p)), e.i, e.j, e.k, t, a.y);
    WeightedFrom(m, Delta(v, Zs(nodes, p)), e.i, e.j, e.k, t, a.z);
  }

  lemma WeighedTerm(
      t: real, u: real, v: real, s: real, a: real, b: real, c: real, wa: real, wb: real, wc: real)
    returns (x: real, y: real)
    requires wa == t * a && wb == u * b && wc == v * c && s == t * u * v
    ensures x == Times3(a, b, c) && y == Times3(wa, wb, wc) && y == s * x
  {
    x, y := Times3(a, b, c), Times3(wa, wb, wc);
    assert (u * b) * (v * c) == (u * v) * (b * c);
    assert (t * a) * ((u * v) * (b * c)) == (t * (u * v)) * (a * (b * c));
    assert t * u * v == t * (u * v);
  }

  /** Weights on the three vectors are weights on the determinant. */
  lemma WeighedDeterminant(
      t: real, u: real, v: real, a: Vector3, b: Vector3, c: Vector3, wa: Vector3, wb: Vector3, wc: Vector3, det: real)
    requires wa.x == t * a.x && wa.y == t * a.y && wa.z == t * a.z
    requires wb.x == u * b.x && wb.y == u * b.y && wb.z == u * b.z
    requires wc.x == v * c.x && wc.y == v * c.y && wc.z == v * c.z && det == Dot3(Cross3(a, b), c)
    ensures Weighed(t, u, v, det) ==
      (Times3(wa.y, wb.z, wc.x) - Times3(wa.z, wb.y, wc.x))
      + ((Times3(wa.z, wb.x, wc.y) - Times3(wa.x, wb.z, wc.y)) + (Times3(wa.x, wb.y, wc.z) - Times3(wa.y, wb.x, wc.z)))
  {
    hide Times3, Dot3, Cross3;
    var s := t * u * v;
    var x1, y1 := WeighedTerm(t, u, v, s, a.y, b.z, c.x, wa.y, wb.z, wc.x);
    var x2, y2 := WeighedTerm(t, u, v, s, a.z, b.y, c.x, wa.z, wb.y, wc.x);
    var x3, y3 := WeighedTerm(t, u, v, s, a.z, b.x, c.y, wa.z, wb.x, wc.y);
    var x4, y4 := WeighedTerm(t, u, v, s, a.x, b.z, c.y, wa.x, wb.z, wc.y);
    var x5, y5 := WeighedTerm(t, u, v, s, a.x, b.y, c.z, wa.x, wb.y, wc.z);
    var x6, y6 := WeighedTerm(t, u, v, s, a.y, b.x, c.z, wa.y, wb.x, wc.z);
    assert det == (x1 - x2) + ((x3 - x4) + (x5 - x6)) by {
      TripleExpands(a, b, c);
    }
    Distribute6(s, x1, x2, x3, x4, x5, x6, det, y1, y2, y3, y4, y5, y6);
  }

  lemma TripleFrom(
      p: nat, b: Coefficients, d: Coefficients, f: Coefficients, c: Exps, e1: Exps, e2: Exps, e3: Exps,
      x: real, y: real, z: real)
    requires 1 <= p && IsSplit(p, c, e1, e2) && e3 == Rest(c, e1, e2)
    requires x == WeightedDelta(1, p - 1, b)(e1.i, e1.j, e1.k) && y == WeightedDelta(2, p - 1, d)(e2.i, e2.j, e2.k)
    requires z == WeightedDelta(3, p - 1, f)(e3.i, e3.j, e3.k)
    ensures TripleAt(p, b, d, f, c, e1, e2) == Times3(x, y, z)
  {
  }

  /** A term is made of its shares of the six products. */
  lemma TermIsAlternating(nodes: seq<real>, p: nat, c: Exps, e1: Exps, e2: Exps)
    requires HoldsTetrahedron(nodes, p)
    ensures var x, y, z := Xs(nodes, p), Ys(nodes, p), Zs(nodes, p);
      TermAt(nodes, p, c, e1, e2) ==
        (TripleAt(p, y, z, x, c, e1, e2) - TripleAt(p, z, y, x, c, e1, e2))
        + ((TripleAt(p, z, x, y, c, e1, e2) - TripleAt(p, x, z, y, c, e1, e2))
           + (TripleAt(p, x, y, z, c, e1, e2) - TripleAt(p, y, x, z, c, e1, e2)))
  {
    if IsSplit(p, c, e1, e2) {
      var e3 := Rest(c, e1, e2);
      var x, y, z := Xs(nodes, p), Ys(nodes, p), Zs(nodes, p);
      var t, u, v := Weight(p, e1) as real, Weight(p, e2) as real, Weight(p, e3) as real;
      var a, b, d := Step(nodes, p, 1, e1), Step(nodes, p, 2, e2), Step(nodes, p, 3, e3);
      var wa := WeightedStep(nodes, p, 1, e1, t, a);
      var wb := WeightedStep(nodes, p, 2, e2, u, b);
      var wd := WeightedStep(nodes, p, 3, e3, v, d);
      WeighedDeterminant(t, u, v, a, b, d, wa, wb, wd, Dot3(Cross3(a, b), d));
      TripleFrom(p, y, z, x, c, e1, e2, e3, wa.y, wb.z, wd.x);
      TripleFrom(p, z, y, x, c, e1, e2, e3, wa.z, wb.y, wd.x);
      TripleFrom(p, z, x, y, c, e1, e2, e3, wa.z, wb.x, wd.y);
      TripleFrom(p, x, z, y, c, e1, e2, e3, wa.x, wb.z, wd.y);
      TripleFrom(p, x, y, z, c, e1, e2, e3, wa.x, wb.y, wd.z);
      TripleFrom(p, y, x, z, c, e1, e2, e3, wa.y, wb.x, wd.z);
    }
  }

  lemma AlternatingBox(
      n: nat, f1: Coefficients, f2: Coefficients, f3: Coefficients, f4: Coefficients, f5: Coefficients,
      f6: Coefficients)
    ensures Box(n, Alternating(f1, f2, f3, f4, f5, f6)) ==
      (Box(n, f1) - Box(n, f2)) + ((Box(n, f3) - Box(n, f4)) + (Box(n, f5) - Box(n, f6)))
  {
    BoxDiffers(n, f1, f2);
    BoxDiffers(n, f3, f4);
    BoxDiffers(n, f5, f6);
    BoxTogether(n, Difference(f3, f4), Difference(f5, f6));
    BoxTogether(n, Difference(f1, f2), Together(Difference(f3, f4), Difference(f5, f6)));
  }

  ghost function SixOuterSplits(nodes: seq<real>, p: nat, c: Exps): Coefficients
    requires HoldsTetrahedron(nodes, p)
  {
    var x, y, z := Xs(nodes, p), Ys(nodes, p), Zs(nodes, p);
    Alternating(OuterSplits(p, y, z, x, c), OuterSplits(p, z, y, x, c), OuterSplits(p, z, x, y, c),
                OuterSplits(p, x, z, y, c), OuterSplits(p, x, y, z, c), OuterSplits(p, y, x, z, c))
  }

  lemma TermsAfterSum(nodes: seq<real>, p: nat, c: Exps, e1: Exps)
    requires HoldsTetrahedron(nodes, p)
    ensures Box(p, TermsAfter(nodes, p, c, e1)) == SixOuterSplits(nodes, p, c)(e1.i, e1.j, e1.k)
  {
    var x, y, z := Xs(nodes, p), Ys(nodes, p), Zs(nodes, p);
    var f1, f2 := TriplesAfter(p, y, z, x, c, e1), TriplesAfter(p, z, y, x, c, e1);
    var f3, f4 := TriplesAfter(p, z, x, y, c, e1), TriplesAfter(p, x, z, y, c, e1);
    var f5, f6 := TriplesAfter(p, x, y, z, c, e1), TriplesAfter(p, y, x, z, c, e1);
    forall i, j, k | InBox(p, i, j, k)
      ensures TermsAfter(nodes, p, c, e1)(i, j, k) == Alternating(f1, f2, f3, f4, f5, f6)(i, j, k)
    {
      TermIsAlternating(nodes, p, c, e1, Exps(i, j, k));
    }
    BoxEqual(p, TermsAfter(nodes, p, c, e1), Alternating(f1, f2, f3, f4, f5, f6));
    AlternatingBox(p, f1, f2, f3, f4, f5, f6);
    OuterSplitIsBox(p, y, z, x, c, e1);
    OuterSplitIsBox(p, z, y, x, c, e1);
    OuterSplitIsBox(p, z, x, y, c, e1);
    OuterSplitIsBox(p, x, z, y, c, e1);
    OuterSplitIsBox(p, x, y, z, c, e1);
    OuterSplitIsBox(p, y, x, z, c, e1);
  }

  lemma TripleProductIsBox(p: nat, b: Coefficients, d: Coefficients, f: Coefficients, c: Exps)
    requires 1 <= p
    ensures TripleProduct(p, b, d, f)(c.i, c.j, c.k) == Box(p, OuterSplits(p, b, d, f, c))
  {
  }

  /** The terms add up to the coefficient. */
  lemma TermsSum(nodes: seq<real>, p: nat, c: Exps, boxes: Coefficients)
    requires HoldsTetrahedron(nodes, p)
    requires forall i, j, k :: InBox(p, i, j, k) ==> boxes(i, j, k) == Box(p, Terms(nodes, p, c)(i, j, k))
    ensures Box(p, boxes) == SixProducts(nodes, p)(c.i, c.j, c.k)
  {
    var x, y, z := Xs(nodes, p), Ys(nodes, p), Zs(nodes, p);
    forall i, j, k | InBox(p, i, j, k)
      ensures boxes(i, j, k) == SixOuterSplits(nodes, p, c)(i, j, k)
    {
      assert Terms(nodes, p, c)(i, j, k) == TermsAfter(nodes, p, c, Exps(i, j, k));
      TermsAfterSum(nodes, p, c, Exps(i, j, k));
    }
    BoxEqual(p, boxes, SixOuterSplits(nodes, p, c));
    AlternatingBox(p, OuterSplits(p, y, z, x, c), OuterSplits(p, z, y, x, c), OuterSplits(p, z, x, y, c),
                   OuterSplits(p, x, z, y, c), OuterSplits(p, x, y, z, c), OuterSplits(p, y, x, z, c));
    TripleProductIsBox(p, y, z, x, c);
    TripleProductIsBox(p, z, y, x, c);
    TripleProductIsBox(p, z, x, y, c);
    TripleProductIsBox(p, x, z, y, c);
    TripleProductIsBox(p, x, y, z, c);
    TripleProductIsBox(p, y, x, z, c);
  }
}
