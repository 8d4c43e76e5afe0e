/** Bezier curves: raising the order of an edge (`elevate_curve_order_2to3` and its like) and halving a cubic
    one (`curve_split_e0_3d`, `curve_split_e1_3d`) leave the curve as it is. Each coordinate is treated alike. */
module Curves {
  import opened Sums
  import Polynomials
  import Bernstein

  /** The Bernstein polynomial of order `p` for point `i`. */
  function Bi(p: int, i: int, u: real): real {
    Bernstein.Binomial(p, i) as real * (Polynomials.Pow(u, i) * Polynomials.Pow(1.0 - u, p - i))
  }

  ghost function TermOf(c: seq<real>, u: real): int -> real {
    (i: int) => if 0 <= i < |c| then c[i] * Bi(|c| - 1, i, u) else 0.0
  }

  /** One coordinate of the curve with these control points. */
  ghost function CurveAt(c: seq<real>, u: real): real {
    Sum(|c|, TermOf(c, u))
  }

  // ----- raising the order -----

  /** The new control points lie between neighbouring old ones, in proportion. */
  ghost predicate IsElevated(c: seq<real>, d: seq<real>, i: int) {
    0 <= i <= |c| == |d| - 1 ==>
      |c| as real * d[i] == i as real * At(c, i - 1) + (|c| - i) as real * At(c, i)
  }

  function At(c: seq<real>, i: int): real {
    if 0 <= i < |c| then c[i] else 0.0
  }

  lemma Scale(x: int, y: int, b: nat, b': nat, w: real, w': real, f: real)
    requires x * b == y * b' && w == f * w'
    ensures x as real * (b as real * w) == y as real * (f * (b' as real * w'))
  {
    var p, q := b as real * w, b' as real * w';
    assert x as real * b as real == y as real * b' as real by {
      assert x as real * b as real == (x * b) as real && y as real * b' as real == (y * b') as real;
    }
    Regroup(x as real, b as real, w, y as real, b' as real, f, w');
  }

  lemma Regroup(x: real, b: real, w: real, y: real, b': real, f: real, w': real)
    requires x * b == y * b' && w == f * w'
    ensures x * (b * w) == y * (f * (b' * w'))
  {
    calc {
      x * (b * w);
      (x * b) * w;
      (y * b') * w;
      (y * b') * (f * w');
      y * (f * (b' * w'));
    }
  }

  lemma PowGrows(x: real, n: int)
    requires 0 < n
    ensures Polynomials.Pow(x, n) == x * Polynomials.Pow(x, n - 1)
  {
  }

  lemma First(x: real, a: real, b: real, a': real)
    requires a == x * a'
    ensures a * b == x * (a' * b) && b * a == x * (b * a')
  {
  }

  /** Polynomials of the next lower order. */
  lemma BiLowersFirst(p: int, i: int, u: real)
    requires 0 < i <= p
    ensures i as real * Bi(p, i, u) == p as real * (u * Bi(p - 1, i - 1, u))
  {
    hide Polynomials.Pow, Bernstein.Binomial;
    Bernstein.BinomialAbsorbs(p, i);
    var a, a', b := Polynomials.Pow(u, i), Polynomials.Pow(u, i - 1), Polynomials.Pow(1.0 - u, p - i);
    PowGrows(u, i);
    First(u, a, b, a');
    Scale(i, p, Bernstein.Binomial(p, i), Bernstein.Binomial(p - 1, i - 1), a * b, a' * b, u);
  }

  lemma BiLowersLast(p: int, i: int, u: real)
    requires 0 <= i < p
    ensures (p - i) as real * Bi(p, i, u) == p as real * ((1.0 - u) * Bi(p - 1, i, u))
  {
    hide Polynomials.Pow, Bernstein.Binomial;
    Bernstein.BinomialAbsorbs(p, i);
    var v := 1.0 - u;
    var a, b, b' := Polynomials.Pow(u, i), Polynomials.Pow(v, p - i), Polynomials.Pow(v, p - i - 1);
    PowGrows(v, p - i);
    First(v, b, a, b');
    Scale(p - i, p, Bernstein.Binomial(p, i), Bernstein.Binomial(p - 1, i), a * b, a * b', v);
  }

  lemma TermIs(c: seq<real>, u: real, i: int)
    ensures TermOf(c, u)(i) == At(c, i) * Bi(|c| - 1, i, u)
  {
  }

  /** One term of the elevated curve, from two of the old one. */
  lemma TermSplits(c: seq<real>, d: seq<real>, u: real, i: int)
    requires |d| == |c| + 1 && c != [] && 0 <= i <= |c| && IsElevated(c, d, i)
    ensures TermOf(d, u)(i) == u * TermOf(c, u)(i - 1) + (1.0 - u) * TermOf(c, u)(i)
  {
    hide Bi, TermOf;
    var p := |c|;
    var b, lo, hi := Bi(p, i, u), Bi(p - 1, i - 1, u), Bi(p - 1, i, u);
    var x, y := At(c, i - 1), At(c, i);
    var s, t, n := i as real, (p - i) as real, p as real;
    TermIs(d, u, i);
    TermIs(c, u, i - 1);
    TermIs(c, u, i);
    if i > 0 {
      BiLowersFirst(p, i, u);
    }
    if i < p {
      BiLowersLast(p, i, u);
    }
    Weigh(n, d[i], s, x, t, y, b, u * lo, (1.0 - u) * hi);
    Turn(x, u, lo);
    Turn(y, 1.0 - u, hi);
  }

  lemma Turn(x: real, f: real, b: real)
    ensures x * (f * b) == f * (x * b)
  {
  }

  lemma Weigh(n: real, d: real, s: real, x: real, t: real, y: real, b: real, low: real, high: real)
    requires n > 0.0 && n * d == s * x + t * y
    requires x == 0.0 || s * b == n * low
    requires y == 0.0 || t * b == n * high
    ensures d * b == x * low + y * high
  {
    calc {
      n * (d * b);
      (n * d) * b;
      (s * x + t * y) * b;
      x * (s * b) + y * (t * b);
      x * (n * low) + y * (n * high);
      n * (x * low + y * high);
    }
    Cancel(n, d * b, x * low + y * high);
  }

  lemma Cancel(n: real, x: real, y: real)
    requires n > 0.0 && n * x == n * y
    ensures x == y
  {
    assert n * (x - y) == 0.0;
  }

  ghost predicate AreElevated(c: seq<real>, d: seq<real>) {
    |d| == |c| + 1 && c != [] && forall i {:trigger IsElevated(c, d, i)} :: IsElevated(c, d, i)
  }

  lemma PartOfElevated(c: seq<real>, d: seq<real>, u: real, k: nat)
    requires AreElevated(c, d) && k <= |c|
    ensures Sum(k + 1, TermOf(d, u)) == Sum(k, TermOf(c, u)) + (1.0 - u) * TermOf(c, u)(k)
  {
    hide TermOf;
    assert IsElevated(c, d, k);
    TermSplits(c, d, u, k);
    SumGrows(k, TermOf(d, u));
    if k == 0 {
      SumStarts(TermOf(d, u));
      SumStarts(TermOf(c, u));
      NoTermBefore(c, u);
    } else {
      PartOfElevated(c, d, u, k - 1);
      SumGrows(k - 1, TermOf(c, u));
      var x := TermOf(c, u)(k - 1);
      assert u * x + (1.0 - u) * x == x;
    }
  }

  lemma NoTermBefore(c: seq<real>, u: real)
    ensures TermOf(c, u)(-1) == 0.0 && TermOf(c, u)(|c|) == 0.0
  {
  }

  /** The elevated points give the same curve. */
  lemma ElevatedIsSameCurve(c: seq<real>, d: seq<real>, u: real)
    requires AreElevated(c, d)
    ensures CurveAt(d, u) == CurveAt(c, u)
  {
    PartOfElevated(c, d, u, |c|);
    NoTermBefore(c, u);
  }

  function EdgePoints(v0: real, inner: seq<real>, v1: real): (c: seq<real>)
    ensures |c| == |inner| + 2
  {
    [v0] + inner + [v1]
  }

  /** The inner points of an edge, for the next higher order. */
  method ElevateCurve(v0: real, inner: seq<real>, v1: real) returns (newInner: seq<real>)
    ensures |newInner| == |inner| + 1
    ensures forall u :: CurveAt(EdgePoints(v0, newInner, v1), u) == CurveAt(EdgePoints(v0, inner, v1), u)
  {
    var c := EdgePoints(v0, inner, v1);
    var n := |c|;
    newInner := [];
    for i := 1 to n
      invariant |newInner| == i - 1
      invariant forall j :: 1 <= j < i ==> IsWeighted(n, newInner[j - 1], j, c[j - 1], c[j])
    {
      var w := i as real / n as real;
      var more := w * c[i - 1] + (1.0 - w) * c[i];
      Weighted(n as real, i as real, w, c[i - 1], c[i], more);
      newInner := newInner + [more];
    }
    ghost var d := EdgePoints(v0, newInner, v1);
    forall i
      ensures IsElevated(c, d, i)
    {
      assert 0 < i < n ==> d[i] == newInner[i - 1];
    }
    forall u
      ensures CurveAt(d, u) == CurveAt(c, u)
    {
      ElevatedIsSameCurve(c, d, u);
    }
  }

  ghost predicate IsWeighted(n: nat, x: real, j: int, a: real, b: real) {
    n as real * x == j as real * a + (n - j) as real * b
  }

  lemma Weighted(n: real, i: real, w: real, a: real, b: real, more: real)
    requires n > 0.0 && w == i / n && more == w * a + (1.0 - w) * b
    ensures n * more == i * a + (n - i) * b
  {
    assert n * w == i;
    calc {
      n * more;
      (n * w) * a + (n - n * w) * b;
      i * a + (n - i) * b;
    }
  }

  // ----- halving a cubic -----

  /** The same for a cubic, written out. */
  function Cubic(c0: real, c1: real, c2: real, c3: real, u: real): real {
    var v := 1.0 - u;
    c0 * (v * v * v) + c1 * (3.0 * u * v * v) + c2 * (3.0 * u * u * v) + c3 * (u * u * u)
  }

  lemma CubicBi(u: real)
    ensures var v := 1.0 - u; Bi(3, 0, u) == v * v * v && Bi(3, 1, u) == 3.0 * u * v * v
    ensures var v := 1.0 - u; Bi(3, 2, u) == 3.0 * u * u * v && Bi(3, 3, u) == u * u * u
  {
    ThreeFactors(u);
    ThreeFactors(1.0 - u);
    assert Bernstein.Binomial(3, 1) == 3 && Bernstein.Binomial(3, 2) == 3;
  }

  lemma {:induction false} ThreeFactors(x: real)
    ensures Polynomials.Pow(x, 0) == 1.0 && Polynomials.Pow(x, 1) == x
    ensures Polynomials.Pow(x, 2) == x * x && Polynomials.Pow(x, 3) == x * x * x
  {
    assert Polynomials.Pow(x, 1) == x * Polynomials.Pow(x, 0);
    assert Polynomials.Pow(x, 2) == x * Polynomials.Pow(x, 1);
    assert Polynomials.Pow(x, 3) == x * Polynomials.Pow(x, 2);
  }

  lemma CubicIsCurve(c: seq<real>, u: real)
    requires |c| == 4
    ensures CurveAt(c, u) == Cubic(c[0], c[1], c[2], c[3], u)
  {
    hide Bi, TermOf, Cubic;
    var f := TermOf(c, u);
    SumStarts(f);
    SumGrows(0, f);
    SumGrows(1, f);
    SumGrows(2, f);
    SumGrows(3, f);
    var b0, b1, b2, b3 := Bi(3, 0, u), Bi(3, 1, u), Bi(3, 2, u), Bi(3, 3, u);
    CubicTerm(c, u, 0, b0);
    CubicTerm(c, u, 1, b1);
    CubicTerm(c, u, 2, b2);
    CubicTerm(c, u, 3, b3);
    CubicByBi(c[0], c[1], c[2], c[3], u, b0, b1, b2, b3);
  }

  lemma CubicTerm(c: seq<real>, u: real, i: nat, b: real)
    requires |c| == 4 && i < 4 && b == Bi(3, i, u)
    ensures TermOf(c, u)(i) == c[i] * b
  {
    hide Bi;
  }

  const XI1: real := 0.2748043
  const XI2: real := 0.7251957

  lemma Inverted(a: real, b: real, c: real, d: real, det: real)
    returns (m11: real, m12: real, m21: real, m22: real)
    requires det == a * d - b * c && det != 0.0
    ensures m11 == d / det && m12 == -b / det && m21 == -c / det && m22 == a / det
    ensures a * m11 + b * m21 == 1.0 && a * m12 + b * m22 == 0.0
    ensures c * m11 + d * m21 == 0.0 && c * m12 + d * m22 == 1.0
  {
    var r := 1.0 / det;
    assert r * det == 1.0;
    m11, m12, m21, m22 := r * d, r * -b, r * -c, r * a;
    assert a * m11 + b * m21 == r * det && c * m12 + d * m22 == r * det;
  }

  /** Both ways to write the solution of a linear system. */
  lemma Combined(
      m: real, n: real, p1: real, p2: real, e: real, f: real, g: real, h: real, c0: real, c3: real, x: real)
    requires x == (m * p1 + n * p2) - ((m * e + n * g) * c0 + (m * f + n * h) * c3)
    ensures x == m * (p1 - (e * c0 + f * c3)) + n * (p2 - (g * c0 + h * c3))
  {
  }

  lemma RowSolved(
      a: real, b: real, m: real, n: real, k: real, l: real, q: real, r: real, x: real, y: real, i: real, j: real)
    requires x == m * q + n * r && y == k * q + l * r && a * m + b * k == i && a * n + b * l == j
    ensures a * x + b * y == i * q + j * r
  {
    calc {
      a * x + b * y;
      (a * m + b * k) * q + (a * n + b * l) * r;
      i * q + j * r;
    }
  }

  lemma InnerDeterminant(a: real, b: real, c: real, d: real)
    requires a == Bi(3, 1, XI1) && b == Bi(3, 2, XI1) && c == Bi(3, 1, XI2) && d == Bi(3, 2, XI2)
    ensures a * d - b * c != 0.0
  {
    hide Bi;
    CubicBi(XI1);
    CubicBi(XI2);
  }

  /** The inner points of the cubic from `c0` to `c3` that has these values at XI1 and XI2, by the inverse of
      the matrix of the inner Bernstein polynomials. */
  method InterpToCtrl(c0: real, c3: real, p1: real, p2: real) returns (c1: real, c2: real)
    ensures Cubic(c0, c1, c2, c3, XI1) == p1 && Cubic(c0, c1, c2, c3, XI2) == p2
  {
    hide Bi;
    var a, b, c, d := Bi(3, 1, XI1), Bi(3, 2, XI1), Bi(3, 1, XI2), Bi(3, 2, XI2);
    var e, f, g, h := Bi(3, 0, XI1), Bi(3, 3, XI1), Bi(3, 0, XI2), Bi(3, 3, XI2);
    InnerDeterminant(a, b, c, d);
    var det := a * d - b * c;
    var m11, m12, m21, m22 := d / det, -b / det, -c / det, a / det;
    c1 := (m11 * p1 + m12 * p2) - ((m11 * e + m12 * g) * c0 + (m11 * f + m12 * h) * c3);
    c2 := (m21 * p1 + m22 * p2) - ((m21 * e + m22 * g) * c0 + (m21 * f + m22 * h) * c3);
    InterpolationIsRight(a, b, c, d, det, e, f, g, h, c0, c3, p1, p2, m11, m12, m21, m22, c1, c2);
    CubicByBi(c0, c1, c2, c3, XI1, e, a, b, f);
    CubicByBi(c0, c1, c2, c3, XI2, g, c, d, h);
  }

  lemma CubicByBi(
      c0: real, c1: real, c2: real, c3: real, u: real, b0: real, b1: real, b2: real, b3: real)
    requires b0 == Bi(3, 0, u) && b1 == Bi(3, 1, u) && b2 == Bi(3, 2, u) && b3 == Bi(3, 3, u)
    ensures Cubic(c0, c1, c2, c3, u) == c0 * b0 + c1 * b1 + c2 * b2 + c3 * b3
  {
    hide Bi;
    CubicBi(u);
  }

  lemma InterpolationIsRight(
      a: real, b: real, c: real, d: real, det: real, e: real, f: real, g: real, h: real, c0: real, c3: real,
      p1: real, p2: real, m11: real, m12: real, m21: real, m22: real, c1: real, c2: real)
    requires det == a * d - b * c && det != 0.0
    requires m11 == d / det && m12 == -b / det && m21 == -c / det && m22 == a / det
    requires c1 == (m11 * p1 + m12 * p2) - ((m11 * e + m12 * g) * c0 + (m11 * f + m12 * h) * c3)
    requires c2 == (m21 * p1 + m22 * p2) - ((m21 * e + m22 * g) * c0 + (m21 * f + m22 * h) * c3)
    ensures c0 * e + c1 * a + c2 * b + c3 * f == p1 && c0 * g + c1 * c + c2 * d + c3 * h == p2
  {
    var n11, n12, n21, n22 := Inverted(a, b, c, d, det);
    var q1, q2 := p1 - (e * c0 + f * c3), p2 - (g * c0 + h * c3);
    Combined(m11, m12, p1, p2, e, f, g, h, c0, c3, c1);
    Combined(m21, m22, p1, p2, e, f, g, h, c0, c3, c2);
    RowSolved(a, b, n11, n12, n21, n22, q1, q2, c1, c2, 1.0, 0.0);
    RowSolved(c, d, n11, n12, n21, n22, q1, q2, c1, c2, 0.0, 1.0);
  }

  /** Two cubics with the same ends and the same values at XI1 and XI2 have the same inner points. */
  lemma InnerPointsAreUnique(c0: real, c3: real, x1: real, x2: real, y1: real, y2: real)
    requires Cubic(c0, x1, x2, c3, XI1) == Cubic(c0, y1, y2, c3, XI1)
    requires Cubic(c0, x1, x2, c3, XI2) == Cubic(c0, y1, y2, c3, XI2)
    ensures x1 == y1 && x2 == y2
  {
  }

  lemma FirstHalf(c0: real, c1: real, c2: real, c3: real, t: real)
    ensures Cubic(c0, (c0 + c1) / 2.0, (c0 + 2.0 * c1 + c2) / 4.0, (c0 + 3.0 * c1 + 3.0 * c2 + c3) / 8.0, t) ==
      Cubic(c0, c1, c2, c3, t / 2.0)
  {
  }

  lemma Reversed(c0: real, c1: real, c2: real, c3: real, u: real, v: real)
    requires u + v == 1.0
    ensures Cubic(c0, c1, c2, c3, u) == Cubic(c3, c2, c1, c0, v)
  {
    assert u == 1.0 - v;
  }

  lemma SecondHalf(c0: real, c1: real, c2: real, c3: real, t: real)
    ensures Cubic((c0 + 3.0 * c1 + 3.0 * c2 + c3) / 8.0, (c1 + 2.0 * c2 + c3) / 4.0, (c2 + c3) / 2.0, c3, t) ==
      Cubic(c0, c1, c2, c3, 0.5 + t / 2.0)
  {
    hide Cubic;
    FirstHalf(c3, c2, c1, c0, 1.0 - t);
    Reversed(c0, c1, c2, c3, 0.5 + t / 2.0, (1.0 - t) / 2.0);
    Reversed((c0 + 3.0 * c1 + 3.0 * c2 + c3) / 8.0, (c1 + 2.0 * c2 + c3) / 4.0, (c2 + c3) / 2.0, c3, t, 1.0 - t);
  }

  /** Splits a cubic in the middle: each half is the curve of its part of the old one. */
  method HalveCurve(c: seq<real>) returns (first: seq<real>, second: seq<real>)
    requires |c| == 4
    ensures |first| == |second| == 4 && first[3] == second[0]
    ensures forall t :: CurveAt(first, t) == CurveAt(c, t / 2.0) && CurveAt(second, t) == CurveAt(c, 0.5 + t / 2.0)
  {
    hide Bi, TermOf, Cubic;
    var c0, c1, c2, c3 := c[0], c[1], c[2], c[3];
    var middle := Cubic(c0, c1, c2, c3, 0.0 + 0.5);
    var p2 := Cubic(c0, c1, c2, c3, 0.0 + XI2 / 2.0);
    var p1 := Cubic(c0, c1, c2, c3, 0.0 + XI1 / 2.0);
    var x1, x2 := InterpToCtrl(c0, middle, p1, p2);
    first := [c0, x1, x2, middle];
    p2 := Cubic(c0, c1, c2, c3, 0.5 + XI2 / 2.0);
    p1 := Cubic(c0, c1, c2, c3, 0.5 + XI1 / 2.0);
    var y1, y2 := InterpToCtrl(middle, c3, p1, p2);
    second := [middle, y1, y2, c3];
    HalvesAre(c0, c1, c2, c3, middle, x1, x2, y1, y2);
    forall t
      ensures CurveAt(first, t) == CurveAt(c, t / 2.0) && CurveAt(second, t) == CurveAt(c, 0.5 + t / 2.0)
    {
      FirstHalf(c0, c1, c2, c3, t);
      SecondHalf(c0, c1, c2, c3, t);
      CubicIsCurve(first, t);
      CubicIsCurve(second, t);
      CubicIsCurve(c, t / 2.0);
      CubicIsCurve(c, 0.5 + t / 2.0);
    }
  }

  /** What the interpolation finds are the points of de Casteljau's construction. */
  lemma HalvesAre(
      c0: real, c1: real, c2: real, c3: real, middle: real, x1: real, x2: real, y1: real, y2: real)
    requires middle == Cubic(c0, c1, c2, c3, 0.5)
    requires Cubic(c0, x1, x2, middle, XI1) == Cubic(c0, c1, c2, c3, XI1 / 2.0)
    requires Cubic(c0, x1, x2, middle, XI2) == Cubic(c0, c1, c2, c3, XI2 / 2.0)
    requires Cubic(middle, y1, y2, c3, XI1) == Cubic(c0, c1, c2, c3, 0.5 + XI1 / 2.0)
    requires Cubic(middle, y1, y2, c3, XI2) == Cubic(c0, c1, c2, c3, 0.5 + XI2 / 2.0)
    ensures middle == (c0 + 3.0 * c1 + 3.0 * c2 + c3) / 8.0
    ensures x1 == (c0 + c1) / 2.0 && x2 == (c0 + 2.0 * c1 + c2) / 4.0
    ensures y1 == (c1 + 2.0 * c2 + c3) / 4.0 && y2 == (c2 + c3) / 2.0
  {
    assert middle == (c0 + 3.0 * c1 + 3.0 * c2 + c3) / 8.0;
    hide Cubic;
    FirstHalf(c0, c1, c2, c3, XI1);
    FirstHalf(c0, c1, c2, c3, XI2);
    InnerPointsAreUnique(c0, middle, x1, x2, (c0 + c1) / 2.0, (c0 + 2.0 * c1 + c2) / 4.0);
    SecondHalf(c0, c1, c2, c3, XI1);
    SecondHalf(c0, c1, c2, c3, XI2);
    InnerPointsAreUnique(middle, c3, y1, y2, (c1 + 2.0 * c2 + c3) / 4.0, (c2 + c3) / 2.0);
  }
}
