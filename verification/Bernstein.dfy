/** Multinomial coefficients and Bernstein polynomials: their derivatives and products are Bernstein
    polynomials again. */
module Bernstein {
  import opened Forms
  import opened Polynomials

  // ----- binomials -----

  function Binomial(n: int, i: int): nat
    decreases if 0 <= n then n else 0
  {
    if i < 0 || n < i then 0
    else if i == 0 || i == n then 1
    else Binomial(n - 1, i - 1) + Binomial(n - 1, i)
  }

  function Trinomial(n: int, i: int, j: int): nat {
    Binomial(n, i) * Binomial(n - i, j)
  }

  function Quadnomial(n: int, i: int, j: int, k: int): nat {
    Binomial(n, i) * Binomial(n - i, j) * Binomial(n - i - j, k)
  }

  lemma {:induction false} BinomialIsPositive(n: int, i: int)
    requires 0 <= i <= n
    ensures 0 < Binomial(n, i)
    decreases n
  {
    if 0 < i < n {
      BinomialIsPositive(n - 1, i);
    }
  }

  lemma QuadnomialIsPositive(n: int, i: int, j: int, k: int)
    requires InSimplex(n, i, j, k)
    ensures 0 < Quadnomial(n, i, j, k)
  {
    BinomialIsPositive(n, i);
    BinomialIsPositive(n - i, j);
    BinomialIsPositive(n - i - j, k);
    var a, b, c := Binomial(n, i), Binomial(n - i, j), Binomial(n - i - j, k);
    assert 0 < a * b;
    assert 0 < a * b * c;
  }

  lemma BinomialPascal(n: int, i: int)
    requires 0 < n && 0 <= i <= n
    ensures Binomial(n, i) == Binomial(n - 1, i - 1) + Binomial(n - 1, i)
  {
  }

  lemma Absorb(n: int, i: int, a: int, b: int)
    requires (n - i) * a == i * b
    ensures i * (a + b) == n * a && (n - i) * (a + b) == n * b
  {
    assert i * (a + b) == i * a + i * b;
    assert (n - i) * (a + b) == (n - i) * a + (n - i) * b;
    assert (n - i) * a == n * a - i * a && (n - i) * b == n * b - i * b;
  }

  lemma BinomialAbsorbs(n: int, i: int)
    requires 0 < n && 0 <= i <= n
    ensures i * Binomial(n, i) == n * Binomial(n - 1, i - 1)
    ensures (n - i) * Binomial(n, i) == n * Binomial(n - 1, i)
    decreases n
  {
    BinomialPascal(n, i);
    if 0 < i < n {
      NeighboursBalance(n, i);
      Absorb(n, i, Binomial(n - 1, i - 1), Binomial(n - 1, i));
    }
  }

  lemma NeighboursBalance(n: int, i: int)
    requires 0 < i < n
    ensures (n - i) * Binomial(n - 1, i - 1) == i * Binomial(n - 1, i)
    decreases n, 0
  {
    BinomialAbsorbs(n - 1, i - 1);
    BinomialAbsorbs(n - 1, i);
  }

  // ----- derivatives -----

  /** How far the exponents are above those of the derivative by coordinate `v`. */
  function Unit(v: nat, at: nat): int {
    if v == at then 1 else 0
  }

  lemma QuadnomialLowers(v: nat, n: int, i: int, j: int, k: int, p: int, q: int, r: int)
    requires v < 4 && 0 < n && InSimplex(n, i, j, k) && 0 < Exponents(n, i, j, k)[v]
    requires p == i - Unit(v, 0) && q == j - Unit(v, 1) && r == k - Unit(v, 2)
    ensures Exponents(n, i, j, k)[v] * Quadnomial(n, i, j, k) == n * Quadnomial(n - 1, p, q, r)
  {
    var l, m := n - i, n - i - j;
    var a, b, c := Binomial(n, i), Binomial(l, j), Binomial(m, k);
    BinomialAbsorbs(n, i);
    if v == 0 {
      Regroup1(i, a, b, c, n * Binomial(n - 1, i - 1));
      Regroup0(n, Binomial(n - 1, i - 1), b, c);
    } else {
      var a' := Binomial(n - 1, i);
      BinomialAbsorbs(l, j);
      if v == 1 {
        var b' := Binomial(l - 1, j - 1);
        Regroup2(j, a, b, c, l, b');
        Regroup1(l, a, b', c, n * a');
        Regroup0(n, a', b', c);
      } else {
        var b' := Binomial(l - 1, j);
        BinomialAbsorbs(m, k);
        var c' := if v == 2 then Binomial(m - 1, k - 1) else Binomial(m - 1, k);
        Regroup3(if v == 2 then k else m - k, a, b, c, m, c');
        Regroup2(m, a, b, c', l, b');
        Regroup1(l, a, b', c', n * a');
        Regroup0(n, a', b', c');
      }
    }
  }

  lemma Regroup0(n: int, a: int, b: int, c: int)
    ensures (n * a) * b * c == n * (a * b * c)
  {
    assert (n * a) * b == n * (a * b);
    assert (n * (a * b)) * c == n * ((a * b) * c);
  }

  lemma Regroup1(e: int, a: int, b: int, c: int, f: int)
    requires e * a == f
    ensures e * (a * b * c) == f * b * c
  {
    Regroup0(e, a, b, c);
  }

  lemma Regroup2(e: int, a: int, b: int, c: int, f: int, g: int)
    requires e * b == f * g
    ensures e * (a * b * c) == f * (a * g * c)
  {
    assert a * b * c == b * (a * c) && a * g * c == g * (a * c);
    assert e * (b * (a * c)) == (e * b) * (a * c);
    assert f * (g * (a * c)) == (f * g) * (a * c);
  }

  lemma Regroup3(e: int, a: int, b: int, c: int, f: int, g: int)
    requires e * c == f * g
    ensures e * (a * b * c) == f * (a * b * g)
  {
    assert e * ((a * b) * c) == (e * c) * (a * b);
    assert f * ((a * b) * g) == (f * g) * (a * b);
  }

  ghost predicate IsWeightedAt(c: Coefficients, n: int, b: Coefficients, i: int, j: int, k: int) {
    c(i, j, k) == Quadnomial(n, i, j, k) as real * b(i, j, k)
  }

  ghost predicate AreWeighted(c: Coefficients, n: int, b: Coefficients) {
    forall i, j, k {:trigger IsWeightedAt(c, n, b, i, j, k)} :: IsWeightedAt(c, n, b, i, j, k)
  }

  lemma WeightedExist(n: int, b: Coefficients)
    ensures exists c :: AreWeighted(c, n, b)
  {
    var c := (i, j, k) => Quadnomial(n, i, j, k) as real * b(i, j, k);
    forall i, j, k
      ensures IsWeightedAt(c, n, b, i, j, k)
    {
    }
    assert AreWeighted(c, n, b);
  }

  /** The coefficients of the polynomial with control values `b`: those times their weights. */
  ghost function Weighted(n: int, b: Coefficients): Coefficients {
    WeightedExist(n, b);
    var c :| AreWeighted(c, n, b);
    c
  }

  lemma WeightedFrom(n: int, b: Coefficients, i: int, j: int, k: int, c: real, y: real)
    requires c == Quadnomial(n, i, j, k) as real && y == b(i, j, k)
    ensures Weighted(n, b)(i, j, k) == c * y
  {
    assert IsWeightedAt(Weighted(n, b), n, b, i, j, k);
  }

  /** The derivative of a monomial by coordinate `v`, by the power rule. */
  ghost function PartialMono(v: nat, n: int, i: int, j: int, k: int, x: Point): real
    requires v < 4
  {
    var es := Exponents(n, i, j, k);
    es[v] as real * ProductOf(Powers(x.Coordinates(), es[v := es[v] - 1]))
  }

  ghost function PartialTerm(v: nat, n: int, c: Coefficients, x: Point): Coefficients
    requires v < 4
  {
    (i, j, k) => if InSimplex(n, i, j, k) then c(i, j, k) * PartialMono(v, n, i, j, k, x) else 0.0
  }

  /** The partial derivative, by coordinate `v`, of the polynomial with coefficients `c`, at `x`. */
  ghost function Partial(v: nat, n: nat, c: Coefficients, x: Point): real
    requires v < 4
  {
    Box(n + 1, PartialTerm(v, n, c, x))
  }

  /** The control values one step along coordinate `v`. */
  ghost function Raised(v: nat, b: Coefficients): Coefficients {
    (i, j, k) => b(i + Unit(v, 0), j + Unit(v, 1), k + Unit(v, 2))
  }

  lemma PartialMonoIsMono(v: nat, n: int, i: int, j: int, k: int, x: Point)
    requires v < 4
    ensures PartialMono(v, n, i, j, k, x) == Exponents(n, i, j, k)[v] as real
      * Mono(n - 1, i - Unit(v, 0), j - Unit(v, 1), k - Unit(v, 2), x)
  {
    var es := Exponents(n, i, j, k);
    assert es[v := es[v] - 1] == Exponents(n - 1, i - Unit(v, 0), j - Unit(v, 1), k - Unit(v, 2));
  }

  lemma PartialTermIs(
      v: nat, n: nat, b: Coefficients, x: Point, i: int, j: int, k: int, p: int, q: int, r: int)
    returns (w: real, pm: real, m: real)
    requires v < 4 && InSimplex(n, i, j, k)
    requires p == i - Unit(v, 0) && q == j - Unit(v, 1) && r == k - Unit(v, 2)
    ensures PartialTerm(v, n, Weighted(n, b), x)(i, j, k) == w * pm && w == Quadnomial(n, i, j, k) as real * b(i, j, k)
    ensures pm == Exponents(n, i, j, k)[v] as real * m && m == Mono(n - 1, p, q, r, x)
  {
    hide Weighted, Quadnomial, PartialMono, Mono, Exponents;
    w, pm, m := Weighted(n, b)(i, j, k), PartialMono(v, n, i, j, k, x), Mono(n - 1, p, q, r, x);
    WeightedFrom(n, b, i, j, k, Quadnomial(n, i, j, k) as real, b(i, j, k));
    PartialMonoIsMono(v, n, i, j, k, x);
  }

  lemma RaisedTermIs(
      v: nat, n: int, b: Coefficients, x: Point, i: int, j: int, k: int, p: int, q: int, r: int, m: real)
    returns (w: real)
    requires v < 4 && InSimplex(n, p, q, r) && m == Mono(n, p, q, r, x)
    requires p == i - Unit(v, 0) && q == j - Unit(v, 1) && r == k - Unit(v, 2)
    ensures Term(n, Weighted(n, Raised(v, b)), x)(p, q, r) == w * m
    ensures w == Quadnomial(n, p, q, r) as real * b(i, j, k)
  {
    w := Weighted(n, Raised(v, b))(p, q, r);
    WeightedFrom(n, Raised(v, b), p, q, r, Quadnomial(n, p, q, r) as real, b(i, j, k));
  }

  lemma Combine(
      lhs: real, w: real, pm: real, m: real, q: nat, e: int, b: real, rhs: real, w': real, q': nat, n: int)
    requires lhs == w * pm && w == q as real * b && pm == e as real * m
    requires rhs == w' * m && w' == q' as real * b && e * q == n * q'
    ensures lhs == n as real * rhs
  {
    var x, y, z, u := q as real, e as real, n as real, q' as real;
    assert y * x == (e * q) as real;
    assert z * u == (n * q') as real;
    assert (x * b) * (y * m) == (y * x) * (b * m);
    assert z * ((u * b) * m) == (z * u) * (b * m);
  }

  lemma TermLowers(
      v: nat, n: nat, b: Coefficients, x: Point, i: int, j: int, k: int, p: int, q: int, r: int)
    returns (rhs: real)
    requires v < 4 && 0 < n && InSimplex(n, i, j, k) && 0 < Exponents(n, i, j, k)[v]
    requires p == i - Unit(v, 0) && q == j - Unit(v, 1) && r == k - Unit(v, 2)
    ensures rhs == Term(n - 1, Weighted(n - 1, Raised(v, b)), x)(p, q, r)
    ensures PartialTerm(v, n, Weighted(n, b), x)(i, j, k) == n as real * rhs
  {
    var lhs := PartialTerm(v, n, Weighted(n, b), x)(i, j, k);
    rhs := Term(n - 1, Weighted(n - 1, Raised(v, b)), x)(p, q, r);
    var w, pm, m := PartialTermIs(v, n, b, x, i, j, k, p, q, r);
    var w' := RaisedTermIs(v, n - 1, b, x, i, j, k, p, q, r, m);
    var e, u, u', y := Exponents(n, i, j, k)[v], Quadnomial(n, i, j, k), Quadnomial(n - 1, p, q, r), b(i, j, k);
    assert e * u == n * u' by {
      QuadnomialLowers(v, n, i, j, k, p, q, r);
    }
    Combine(lhs, w, pm, m, u, e, y, rhs, w', u', n);
  }

  lemma ZeroTimes(w: real, e: int, m: real)
    requires e == 0
    ensures w * (e as real * m) == 0.0
  {
  }

  lemma TermVanishes(v: nat, n: nat, b: Coefficients, x: Point, i: int, j: int, k: int)
    requires v < 4 && (InSimplex(n, i, j, k) ==> Exponents(n, i, j, k)[v] == 0)
    ensures PartialTerm(v, n, Weighted(n, b), x)(i, j, k) == 0.0
  {
    var es := Exponents(n, i, j, k);
    if InSimplex(n, i, j, k) {
      ZeroTimes(Weighted(n, b)(i, j, k), es[v], ProductOf(Powers(x.Coordinates(), es[v := es[v] - 1])));
    }
  }

  lemma LowerIsInBox(v: nat, n: nat, i: int, j: int, k: int, p: int, q: int, r: int)
    requires v < 4 && 0 < n && InBox(n + 1, i, j, k)
    requires p == i - Unit(v, 0) && q == j - Unit(v, 1) && r == k - Unit(v, 2)
    ensures InSimplex(n, i, j, k) && 0 < Exponents(n, i, j, k)[v] ==> InBox(n, p, q, r)
    ensures InBox(n, p, q, r) && InSimplex(n - 1, p, q, r) ==> InSimplex(n, i, j, k) && 0 < Exponents(n, i, j, k)[v]
  {
  }

  lemma LowerTermShifts(
      v: nat, n: nat, b: Coefficients, x: Point, i: int, j: int, k: int, t: Coefficients, f: Coefficients)
    requires v < 4 && 0 < n && InBox(n + 1, i, j, k) && InSimplex(n, i, j, k) && 0 < Exponents(n, i, j, k)[v]
    requires t == Term(n - 1, Weighted(n - 1, Raised(v, b)), x) && f == PartialTerm(v, n, Weighted(n, b), x)
    ensures ShiftsAt(f, Unit(v, 0), Unit(v, 1), Unit(v, 2), n, Scaled(n as real, t), i, j, k)
  {
    var p, q, r := i - Unit(v, 0), j - Unit(v, 1), k - Unit(v, 2);
    var rhs := TermLowers(v, n, b, x, i, j, k, p, q, r);
    ScaledIs(n as real, t, p, q, r, rhs, f(i, j, k));
    LowerIsInBox(v, n, i, j, k, p, q, r);
    MakeShift(f, Unit(v, 0), Unit(v, 1), Unit(v, 2), n, Scaled(n as real, t), i, j, k);
  }

  lemma ScaledIs(a: real, t: Coefficients, p: int, q: int, r: int, rhs: real, lhs: real)
    requires t(p, q, r) == rhs && lhs == a * rhs
    ensures Scaled(a, t)(p, q, r) == lhs
  {
  }

  lemma MakeShift(
      f: Coefficients, p: int, q: int, r: int, m: nat, g: Coefficients, i: int, j: int, k: int)
    requires if InBox(m, i - p, j - q, k - r) then f(i, j, k) == g(i - p, j - q, k - r) else f(i, j, k) == 0.0
    ensures ShiftsAt(f, p, q, r, m, g, i, j, k)
  {
  }

  lemma ZeroTermShifts(
      v: nat, n: nat, b: Coefficients, x: Point, i: int, j: int, k: int, t: Coefficients, f: Coefficients)
    requires v < 4 && 0 < n && InBox(n + 1, i, j, k)
    requires InSimplex(n, i, j, k) ==> Exponents(n, i, j, k)[v] == 0
    requires t == Term(n - 1, Weighted(n - 1, Raised(v, b)), x) && f == PartialTerm(v, n, Weighted(n, b), x)
    ensures ShiftsAt(f, Unit(v, 0), Unit(v, 1), Unit(v, 2), n, Scaled(n as real, t), i, j, k)
  {
    var p, q, r := i - Unit(v, 0), j - Unit(v, 1), k - Unit(v, 2);
    LowerIsInBox(v, n, i, j, k, p, q, r);
    TermVanishes(v, n, b, x, i, j, k);
    if InBox(n, p, q, r) {
      ScaledIs(n as real, t, p, q, r, 0.0, 0.0);
    }
    MakeShift(f, Unit(v, 0), Unit(v, 1), Unit(v, 2), n, Scaled(n as real, t), i, j, k);
  }

  /** The derivative has degree one less and control values one step along the coordinate. */
  lemma PartialIsForm(v: nat, n: nat, b: Coefficients, x: Point, lower: nat)
    requires v < 4 && 0 < n && lower == n - 1
    ensures Partial(v, n, Weighted(n, b), x) == n as real * Form(lower, Weighted(lower, Raised(v, b)), x)
  {
    var f := PartialTerm(v, n, Weighted(n, b), x);
    var t := Term(lower, Weighted(lower, Raised(v, b)), x);
    var g := Scaled(n as real, t);
    var size := n + 1;
    forall i, j, k | InBox(size, i, j, k)
      ensures ShiftsAt(f, Unit(v, 0), Unit(v, 1), Unit(v, 2), n, g, i, j, k)
    {
      if InSimplex(n, i, j, k) && 0 < Exponents(n, i, j, k)[v] {
        LowerTermShifts(v, n, b, x, i, j, k, t, f);
      } else {
        ZeroTermShifts(v, n, b, x, i, j, k, t, f);
      }
    }
    BoxShifts(size, f, Unit(v, 0), Unit(v, 1), Unit(v, 2), n, g);
    BoxScales(n, t, g, n as real);
  }

  /** `node` times its weight `c` is `whole`. */
  ghost predicate IsShareOf(node: real, c: real, whole: real) {
    c * node == whole
  }

  lemma SignOfProduct(c: real, node: real, whole: real)
    requires 0.0 < c && IsShareOf(node, c, whole)
    ensures 0.0 <= node <==> 0.0 <= whole
  {
  }

  // ----- derivatives along the edges of the element -----

  /** The derivative at `x` in the direction from the first corner to that of coordinate `v`. */
  ghost function Along(v: nat, p: nat, b: Coefficients, x: Point): real
    requires v < 4
  {
    Partial(v, p, Weighted(p, b), x) - Partial(0, p, Weighted(p, b), x)
  }

  /** The differences of the control values along that direction. */
  ghost function Delta(v: nat, b: Coefficients): Coefficients {
    Difference(Raised(v, b), Raised(0, b))
  }

  ghost function WeightedDelta(v: nat, m: int, b: Coefficients): Coefficients {
    Weighted(m, Delta(v, b))
  }

  lemma Distributes(c: real, y: real, z: real, d: real)
    requires d == y - z
    ensures c * d == c * y - c * z
  {
  }

  /** Weights go over differences. */
  lemma WeightedDifference(m: int, f: Coefficients, g: Coefficients, i: int, j: int, k: int)
    ensures Weighted(m, Difference(f, g))(i, j, k) == Difference(Weighted(m, f), Weighted(m, g))(i, j, k)
  {
    var c, y, z := Quadnomial(m, i, j, k) as real, f(i, j, k), g(i, j, k);
    var d := y - z;
    WeightedFrom(m, f, i, j, k, c, y);
    WeightedFrom(m, g, i, j, k, c, z);
    WeightedFrom(m, Difference(f, g), i, j, k, c, d);
    Distributes(c, y, z, d);
  }

  /** The derivative along an edge has the differences as control values. */
  lemma AlongIsForm(v: nat, p: nat, b: Coefficients, x: Point, m: nat, q: real)
    returns (along: real, form: real)
    requires v < 4 && 0 < p && m == p - 1 && q == p as real
    ensures along == Along(v, p, b, x) && form == Form(m, WeightedDelta(v, m, b), x) && along == q * form
  {
    var f, g, h := Weighted(m, Raised(v, b)), Weighted(m, Raised(0, b)), WeightedDelta(v, m, b);
    var high, low := Form(m, f, x), Form(m, g, x);
    along, form := Along(v, p, b, x), Form(m, h, x);
    PartialIsForm(v, p, b, x, m);
    PartialIsForm(0, p, b, x, m);
    forall i, j, k | InSimplex(m, i, j, k)
      ensures h(i, j, k) == Difference(f, g)(i, j, k)
    {
      WeightedDifference(m, Raised(v, b), Raised(0, b), i, j, k);
    }
    FormEqual(m, h, Difference(f, g), x);
    FormDiffers(m, f, g, x);
    Distributes(q, high, low, form);
  }
}
