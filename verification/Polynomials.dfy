/** Homogeneous polynomials in four barycentric coordinates, by their coefficients: products, formal
    derivatives and the Bernstein form. Triangles are the case in which the third coordinate does not
    occur. */
module Polynomials {
  import opened Forms

  datatype Point = Point(a: real, b: real, c: real, d: real) {
    ghost function Coordinates(): seq<real> {
      [a, b, c, d]
    }

    ghost predicate IsNotNegative() {
      0.0 <= a && 0.0 <= b && 0.0 <= c && 0.0 <= d
    }
  }

  function Pow(x: real, n: int): real {
    if n <= 0 then 1.0 else x * Pow(x, n - 1)
  }

  ghost function ProductOf(s: seq<real>): real {
    if s == [] then 1.0 else s[0] * ProductOf(s[1..])
  }

  /** Exponents (`i`, `j`, `k`) that leave at most `n`, and so a fourth one, for the last coordinate. */
  ghost predicate InSimplex(n: int, i: int, j: int, k: int) {
    0 <= i && 0 <= j && 0 <= k && i + j + k <= n
  }

  ghost function Exponents(n: int, i: int, j: int, k: int): seq<int> {
    [i, j, k, n - i - j - k]
  }

  ghost function Powers(xs: seq<real>, es: seq<int>): (powers: seq<real>)
    requires |xs| == |es|
    ensures |powers| == |xs|
  {
    if xs == [] then [] else [Pow(xs[0], es[0])] + Powers(xs[1..], es[1..])
  }

  /** The monomial with these exponents, and what is left of `n` for the last coordinate. */
  ghost function Mono(n: int, i: int, j: int, k: int, x: Point): real {
    ProductOf(Powers(x.Coordinates(), Exponents(n, i, j, k)))
  }

  ghost function Term(n: int, c: Coefficients, x: Point): Coefficients {
    (i, j, k) => if InSimplex(n, i, j, k) then c(i, j, k) * Mono(n, i, j, k, x) else 0.0
  }

  /** The value at `x` of the homogeneous polynomial of degree `n` with coefficients `c`. */
  ghost function Form(n: nat, c: Coefficients, x: Point): real {
    Box(n + 1, Term(n, c, x))
  }

  lemma Associate(x: real, y: real, z: real)
    ensures x * (y * z) == (x * y) * z
  {
  }

  lemma PowNext(x: real, k: nat)
    ensures Pow(x, k + 1) == x * Pow(x, k)
  {
  }

  lemma PowAdds(x: real, m: nat, n: nat)
    ensures Pow(x, m + n) == Pow(x, m) * Pow(x, n)
  {
    if m == 0 {
      assert Pow(x, m) * Pow(x, n) == 1.0 * Pow(x, n);
    } else {
      hide Pow;
      PowAdds(x, m - 1, n);
      PowNext(x, m - 1);
      PowNext(x, m - 1 + n);
      Associate(x, Pow(x, m - 1), Pow(x, n));
    }
  }

  lemma {:induction false} PowIsNotNegative(x: real, n: int)
    requires 0.0 <= x
    ensures 0.0 <= Pow(x, n)
  {
    if 0 < n {
      PowIsNotNegative(x, n - 1);
    }
  }

  lemma Pair(a: real, m: real, b: real, n: real)
    ensures (a * m) * (b * n) == (a * b) * (m * n)
  {
  }

  lemma {:induction false} ProductsMultiply(s: seq<real>, t: seq<real>, u: seq<real>)
    requires |s| == |t| == |u| && forall i :: 0 <= i < |s| ==> u[i] == s[i] * t[i]
    ensures ProductOf(u) == ProductOf(s) * ProductOf(t)
  {
    if s != [] {
      ProductsMultiply(s[1..], t[1..], u[1..]);
      Pair(s[0], ProductOf(s[1..]), t[0], ProductOf(t[1..]));
    }
  }

  lemma {:induction false} PowsMultiply(x: real, m: int, n: int, e: int)
    requires 0 <= m && 0 <= n && e == m + n
    ensures Pow(x, e) == Pow(x, m) * Pow(x, n)
  {
    PowAdds(x, m, n);
  }

  lemma {:induction false} PowersAt(xs: seq<real>, es: seq<int>, t: nat)
    requires t < |xs| == |es|
    ensures Powers(xs, es)[t] == Pow(xs[t], es[t])
  {
    if 0 < t {
      PowersAt(xs[1..], es[1..], t - 1);
    }
  }

  lemma {:induction false} PowerAt(xs: seq<real>, es: seq<int>, fs: seq<int>, gs: seq<int>, t: nat)
    requires t < |xs| == |es| == |fs| == |gs|
    requires 0 <= es[t] && 0 <= fs[t] && gs[t] == es[t] + fs[t]
    ensures Powers(xs, gs)[t] == Powers(xs, es)[t] * Powers(xs, fs)[t]
  {
    PowersAt(xs, es, t);
    PowersAt(xs, fs, t);
    PowersAt(xs, gs, t);
    PowsMultiply(xs[t], es[t], fs[t], gs[t]);
  }

  lemma {:induction false} PowersMultiply(xs: seq<real>, es: seq<int>, fs: seq<int>, gs: seq<int>)
    requires |xs| == |es| == |fs| == |gs|
    requires forall t :: 0 <= t < |xs| ==> 0 <= es[t] && 0 <= fs[t] && gs[t] == es[t] + fs[t]
    ensures ProductOf(Powers(xs, gs)) == ProductOf(Powers(xs, es)) * ProductOf(Powers(xs, fs))
  {
    var s, t, u := Powers(xs, es), Powers(xs, fs), Powers(xs, gs);
    forall i | 0 <= i < |xs|
      ensures u[i] == s[i] * t[i]
    {
      PowerAt(xs, es, fs, gs, i);
    }
    ProductsMultiply(s, t, u);
  }

  lemma MonosMultiply(n: int, i: int, j: int, k: int, m: int, p: int, q: int, r: int, x: Point)
    requires InSimplex(n, i, j, k) && InSimplex(m, p, q, r)
    ensures Mono(n, i, j, k, x) * Mono(m, p, q, r, x) == Mono(n + m, i + p, j + q, k + r, x)
  {
    PowersMultiply(
      x.Coordinates(), Exponents(n, i, j, k), Exponents(m, p, q, r), Exponents(n + m, i + p, j + q, k + r));
  }

  lemma {:induction false} ProductIsNotNegative(s: seq<real>)
    requires forall i :: 0 <= i < |s| ==> 0.0 <= s[i]
    ensures 0.0 <= ProductOf(s)
  {
    if s != [] {
      ProductIsNotNegative(s[1..]);
    }
  }

  lemma MonoIsNotNegative(n: int, i: int, j: int, k: int, x: Point)
    requires x.IsNotNegative()
    ensures 0.0 <= Mono(n, i, j, k, x)
  {
    var xs, es := x.Coordinates(), Exponents(n, i, j, k);
    forall t | 0 <= t < |xs|
      ensures 0.0 <= Powers(xs, es)[t]
    {
      PowersAt(xs, es, t);
      PowIsNotNegative(xs[t], es[t]);
    }
    ProductIsNotNegative(Powers(xs, es));
  }

  /** Coefficients that are nowhere negative give values that are not, on the simplex. */
  lemma FormIsNotNegative(n: nat, c: Coefficients, x: Point)
    requires x.IsNotNegative() && forall i, j, k :: InSimplex(n, i, j, k) ==> 0.0 <= c(i, j, k)
    ensures 0.0 <= Form(n, c, x)
  {
    forall i, j, k | InBox(n + 1, i, j, k)
      ensures 0.0 <= Term(n, c, x)(i, j, k)
    {
      MonoIsNotNegative(n, i, j, k, x);
    }
    BoxIsNotNegative(n + 1, Term(n, c, x));
  }

  lemma FormAdds(
      n: nat, f: Coefficients, g: Coefficients, h: Coefficients, a: real, b: real, x: Point)
    requires forall i, j, k :: InSimplex(n, i, j, k) ==> h(i, j, k) == a * f(i, j, k) + b * g(i, j, k)
    ensures Form(n, h, x) == a * Form(n, f, x) + b * Form(n, g, x)
  {
    forall i, j, k | InBox(n + 1, i, j, k)
      ensures Term(n, h, x)(i, j, k) == a * Term(n, f, x)(i, j, k) + b * Term(n, g, x)(i, j, k)
    {
      if InSimplex(n, i, j, k) {
        Distribute(a, f(i, j, k), b, g(i, j, k), Mono(n, i, j, k, x));
      }
    }
    BoxAdds(n + 1, Term(n, f, x), Term(n, g, x), Term(n, h, x), a, b);
  }

  lemma Distribute(a: real, f: real, b: real, g: real, m: real)
    ensures (a * f + b * g) * m == a * (f * m) + b * (g * m)
  {
  }

  lemma FormEqual(n: nat, f: Coefficients, g: Coefficients, x: Point)
    requires forall i, j, k :: InSimplex(n, i, j, k) ==> f(i, j, k) == g(i, j, k)
    ensures Form(n, f, x) == Form(n, g, x)
  {
    BoxEqual(n + 1, Term(n, f, x), Term(n, g, x));
  }

  lemma FormDiffers(n: nat, f: Coefficients, g: Coefficients, x: Point)
    ensures Form(n, Difference(f, g), x) == Form(n, f, x) - Form(n, g, x)
  {
    FormAdds(n, f, g, Difference(f, g), 1.0, -1.0, x);
  }

  lemma FormTogether(n: nat, f: Coefficients, g: Coefficients, x: Point)
    ensures Form(n, Together(f, g), x) == Form(n, f, x) + Form(n, g, x)
  {
    FormAdds(n, f, g, Together(f, g), 1.0, 1.0, x);
  }

  lemma FormScales(n: nat, f: Coefficients, s: real, x: Point, form: real)
    requires form == Form(n, f, x)
    ensures Form(n, Scaled(s, f), x) == s * form
  {
    FormAdds(n, f, f, Scaled(s, f), s, 0.0, x);
  }

  // ----- products -----

  /** The contribution to the coefficient at (`p`, `q`, `r`) of the way to split it that gives
      (`i`, `j`, `k`) to the first factor. */
  ghost function Split(
      n: int, a: Coefficients, m: int, b: Coefficients, p: int, q: int, r: int, i: int, j: int, k: int): real
  {
    if InSimplex(n, i, j, k) && InSimplex(m, p - i, q - j, r - k) then a(i, j, k) * b(p - i, q - j, r - k) else 0.0
  }

  ghost function Splits(n: int, a: Coefficients, m: int, b: Coefficients, p: int, q: int, r: int): Coefficients {
    (i, j, k) => Split(n, a, m, b, p, q, r, i, j, k)
  }

  lemma SplitFrom(
      n: int, a: Coefficients, m: int, b: Coefficients, p: int, q: int, r: int, i: int, j: int, k: int, y: real,
      z: real)
    returns (yz: real)
    requires InSimplex(n, i, j, k) && InSimplex(m, p - i, q - j, r - k)
    requires y == a(i, j, k) && z == b(p - i, q - j, r - k)
    ensures yz == y * z && Splits(n, a, m, b, p, q, r)(i, j, k) == yz
  {
    yz := y * z;
  }

  /** The coefficients of the product: a sum over all ways to split the exponents. */
  ghost function Product(n: nat, a: Coefficients, m: int, b: Coefficients): Coefficients {
    (p, q, r) => Box(n + 1, Splits(n, a, m, b, p, q, r))
  }

  ghost function SplitTerm(
      n: nat, a: Coefficients, m: nat, b: Coefficients, x: Point, i: int, j: int, k: int): Coefficients
  {
    (p, q, r) => Split(n, a, m, b, p, q, r, i, j, k) * Mono(n + m, p, q, r, x)
  }

  ghost function SplitTerms(n: nat, a: Coefficients, m: nat, b: Coefficients, x: Point): PairFamily {
    (i, j, k) => SplitTerm(n, a, m, b, x, i, j, k)
  }

  lemma SplitTermIsProduct(
      n: nat, a: Coefficients, m: nat, b: Coefficients, x: Point, i: int, j: int, k: int, p: int, q: int, r: int)
    requires InSimplex(n, i, j, k)
    ensures SplitTerm(n, a, m, b, x, i, j, k)(p, q, r) ==
      Term(n, a, x)(i, j, k) * Term(m, b, x)(p - i, q - j, r - k)
  {
    if InSimplex(m, p - i, q - j, r - k) {
      MonosMultiply(n, i, j, k, m, p - i, q - j, r - k, x);
      Pair(a(i, j, k), Mono(n, i, j, k, x), b(p - i, q - j, r - k), Mono(m, p - i, q - j, r - k, x));
    }
  }

  lemma TermShifts(
      n: nat, a: Coefficients, m: nat, b: Coefficients, x: Point, i: int, j: int, k: int, p: int, q: int, r: int)
    requires InSimplex(n, i, j, k)
    ensures ShiftsAt(SplitTerm(n, a, m, b, x, i, j, k), i, j, k, m + 1,
      Scaled(Term(n, a, x)(i, j, k), Term(m, b, x)), p, q, r)
  {
    SplitTermIsProduct(n, a, m, b, x, i, j, k, p, q, r);
  }

  lemma OneTermTimesForm(
      n: nat, a: Coefficients, m: nat, b: Coefficients, x: Point, i: int, j: int, k: int, size: nat, t: real)
    requires InSimplex(n, i, j, k) && size == n + m + 1 && t == Term(n, a, x)(i, j, k)
    ensures Box(m + 1, Scaled(t, Term(m, b, x))) == Box(size, SplitTerm(n, a, m, b, x, i, j, k))
  {
    var f, g := SplitTerm(n, a, m, b, x, i, j, k), Scaled(t, Term(m, b, x));
    forall p, q, r | InBox(size, p, q, r)
      ensures ShiftsAt(f, i, j, k, m + 1, g, p, q, r)
    {
      TermShifts(n, a, m, b, x, i, j, k, p, q, r);
    }
    BoxShifts(size, f, i, j, k, m + 1, g);
  }

  lemma NoTermNoForm(
      n: nat, a: Coefficients, m: nat, b: Coefficients, x: Point, i: int, j: int, k: int, size: nat)
    requires !InSimplex(n, i, j, k)
    ensures Box(size, SplitTerm(n, a, m, b, x, i, j, k)) == 0.0
  {
    var f := SplitTerm(n, a, m, b, x, i, j, k);
    forall p, q, r | InBox(size, p, q, r)
      ensures f(p, q, r) == 0.0
    {
      assert Split(n, a, m, b, p, q, r, i, j, k) == 0.0;
    }
    BoxIsZero(size, f);
  }

  lemma TermTimesForm(
      n: nat, a: Coefficients, m: nat, b: Coefficients, x: Point, i: int, j: int, k: int, size: nat)
    requires InBox(n + 1, i, j, k) && size == n + m + 1
    ensures TermsTimes(n, a, x, Form(m, b, x))(i, j, k) == Box(size, SplitTerm(n, a, m, b, x, i, j, k))
  {
    var t := Term(n, a, x)(i, j, k);
    if InSimplex(n, i, j, k) {
      OneTermTimesForm(n, a, m, b, x, i, j, k, size, t);
      BoxScales(m + 1, Term(m, b, x), Scaled(t, Term(m, b, x)), t);
    } else {
      NoTermNoForm(n, a, m, b, x, i, j, k, size);
    }
  }

  ghost function TermsTimes(n: nat, a: Coefficients, x: Point, y: real): Coefficients {
    (i, j, k) => Term(n, a, x)(i, j, k) * y
  }

  lemma SplitTermsCollect(
      n: nat, a: Coefficients, m: nat, b: Coefficients, x: Point, p: int, q: int, r: int)
    ensures BoxesAt(n + 1, SplitTerms(n, a, m, b, x))(p, q, r) == Term(n + m, Product(n, a, m, b), x)(p, q, r)
  {
    var f, splits := SplitTerms(n, a, m, b, x), Splits(n, a, m, b, p, q, r);
    var mono := Mono(n + m, p, q, r, x);
    forall i, j, k | InBox(n + 1, i, j, k)
      ensures At(f, p, q, r)(i, j, k) == mono * splits(i, j, k)
    {
      assert f(i, j, k) == SplitTerm(n, a, m, b, x, i, j, k);
    }
    BoxScales(n + 1, splits, At(f, p, q, r), mono);
    if !InSimplex(n + m, p, q, r) {
      BoxIsZero(n + 1, splits);
    }
  }

  lemma FormTimes(n: nat, a: Coefficients, x: Point, y: real)
    ensures Box(n + 1, TermsTimes(n, a, x, y)) == Form(n, a, x) * y
  {
    BoxScales(n + 1, Term(n, a, x), TermsTimes(n, a, x, y), y);
  }

  lemma ProductOfForms(
      n: nat, a: Coefficients, m: nat, b: Coefficients, x: Point, fa: real, fb: real)
    returns (fab: real)
    requires fa == Form(n, a, x) && fb == Form(m, b, x)
    ensures fab == Form(n + m, Product(n, a, m, b), x) && fa * fb == fab
  {
    fab := Form(n + m, Product(n, a, m, b), x);
    FormsMultiply(n, a, m, b, x);
  }

  /** The product of two polynomials has the product coefficients. */
  lemma FormsMultiply(n: nat, a: Coefficients, m: nat, b: Coefficients, x: Point)
    ensures Form(n, a, x) * Form(m, b, x) == Form(n + m, Product(n, a, m, b), x)
  {
    FormTimes(n, a, x, Form(m, b, x));
    TermsCollect(n, a, m, b, x, n + m + 1);
  }

  lemma TermsCollect(n: nat, a: Coefficients, m: nat, b: Coefficients, x: Point, size: nat)
    requires size == n + m + 1
    ensures Box(n + 1, TermsTimes(n, a, x, Form(m, b, x))) == Box(size, Term(n + m, Product(n, a, m, b), x))
  {
    var f := SplitTerms(n, a, m, b, x);
    var boxes := TermsTimes(n, a, x, Form(m, b, x));
    forall i, j, k | InBox(n + 1, i, j, k)
      ensures boxes(i, j, k) == Box(size, f(i, j, k))
    {
      TermTimesForm(n, a, m, b, x, i, j, k, size);
    }
    BoxesSwap(n + 1, size, f, boxes);
    forall p, q, r | InBox(size, p, q, r)
      ensures BoxesAt(n + 1, f)(p, q, r) == Term(n + m, Product(n, a, m, b), x)(p, q, r)
    {
      SplitTermsCollect(n, a, m, b, x, p, q, r);
    }
    BoxEqual(size, BoxesAt(n + 1, f), Term(n + m, Product(n, a, m, b), x));
  }
}
