/** The Vandermonde identity for multinomials, and what it means for the validity check of tetrahedra: where all
    partial determinants are alike, so are all values that `Nijkl` computes. */
module Vandermonde {
  import opened Sums
  import opened Forms
  import opened Polynomials
  import opened Bernstein
  import opened NodeNumbering
  import opened Loops
  import opened TetValidity
  import opened TetCheck

  ghost function W(n: int, i: int, j: int, k: int): real {
    Quadnomial(n, i, j, k) as real
  }

  lemma VanishesOutside(n: int, i: int, j: int, k: int)
    requires !InSimplex(n, i, j, k)
    ensures Quadnomial(n, i, j, k) == 0
  {
    var a, b, c := Binomial(n, i), Binomial(n - i, j), Binomial(n - i - j, k);
    assert a == 0 || b == 0 || c == 0;
    NoProduct(a, b, c);
  }

  lemma NoProduct(a: int, b: int, c: int)
    requires a == 0 || b == 0 || c == 0
    ensures a * b * c == 0
  {
  }

  /** Coordinate `v` times the weight, from the next lower order. */
  lemma Lowers(v: nat, n: int, i: int, j: int, k: int)
    requires v < 4 && 0 < n && InSimplex(n, i, j, k)
    ensures Exponents(n, i, j, k)[v] * Quadnomial(n, i, j, k) ==
      n * Quadnomial(n - 1, i - Unit(v, 0), j - Unit(v, 1), k - Unit(v, 2))
  {
    var p, q, r := i - Unit(v, 0), j - Unit(v, 1), k - Unit(v, 2);
    if 0 < Exponents(n, i, j, k)[v] {
      QuadnomialLowers(v, n, i, j, k, p, q, r);
    } else {
      VanishesOutside(n - 1, p, q, r);
    }
  }

  lemma Cancel(n: int, x: int, y: int)
    requires 0 < n && n * x == n * y
    ensures x == y
  {
    assert n * (x - y) == 0;
  }

  lemma FourParts(n: int, i: int, j: int, k: int, q: int, a: int, b: int, c: int, d: int)
    requires 0 < n && i * q == n * a && j * q == n * b && k * q == n * c && (n - i - j - k) * q == n * d
    ensures q == a + b + c + d
  {
    assert n * q == i * q + j * q + k * q + (n - i - j - k) * q;
    assert n * (a + b + c + d) == n * a + n * b + n * c + n * d;
    Cancel(n, q, a + b + c + d);
  }

  /** Pascal's rule. */
  lemma Pascal(n: int, i: int, j: int, k: int)
    requires 0 < n
    ensures Quadnomial(n, i, j, k) == Quadnomial(n - 1, i - 1, j, k) + Quadnomial(n - 1, i, j - 1, k)
      + Quadnomial(n - 1, i, j, k - 1) + Quadnomial(n - 1, i, j, k)
  {
    hide Quadnomial;
    if InSimplex(n, i, j, k) {
      Lowers(0, n, i, j, k);
      Lowers(1, n, i, j, k);
      Lowers(2, n, i, j, k);
      Lowers(3, n, i, j, k);
      FourParts(n, i, j, k, Quadnomial(n, i, j, k), Quadnomial(n - 1, i - 1, j, k), Quadnomial(n - 1, i, j - 1, k),
        Quadnomial(n - 1, i, j, k - 1), Quadnomial(n - 1, i, j, k));
    } else {
      VanishesOutside(n, i, j, k);
      VanishesOutside(n - 1, i - 1, j, k);
      VanishesOutside(n - 1, i, j - 1, k);
      VanishesOutside(n - 1, i, j, k - 1);
      VanishesOutside(n - 1, i, j, k);
    }
  }

  /** One way to split the exponents (`p`, `q`, `r`), weighted. */
  ghost function Shares(m: int, n: int, p: int, q: int, r: int): Coefficients {
    (i, j, k) => W(m, i, j, k) * W(n, p - i, q - j, r - k)
  }

  /** The same, with the first weight taken from one step below. */
  ghost function LowerShares(m: int, n: int, p: int, q: int, r: int, v: nat): Coefficients {
    (i, j, k) => W(m - 1, i - Unit(v, 0), j - Unit(v, 1), k - Unit(v, 2)) * W(n, p - i, q - j, r - k)
  }

  lemma SharesSplit(m: int, n: int, p: int, q: int, r: int, i: int, j: int, k: int)
    requires 0 < m
    ensures Shares(m, n, p, q, r)(i, j, k) == LowerShares(m, n, p, q, r, 0)(i, j, k)
      + LowerShares(m, n, p, q, r, 1)(i, j, k) + LowerShares(m, n, p, q, r, 2)(i, j, k)
      + LowerShares(m, n, p, q, r, 3)(i, j, k)
  {
    hide Quadnomial;
    Pascal(m, i, j, k);
    Distribute4(W(m - 1, i - 1, j, k), W(m - 1, i, j - 1, k), W(m - 1, i, j, k - 1), W(m - 1, i, j, k),
      W(m, i, j, k), W(n, p - i, q - j, r - k));
  }

  lemma Distribute4(a: real, b: real, c: real, d: real, s: real, w: real)
    requires s == a + b + c + d
    ensures s * w == a * w + b * w + c * w + d * w
  {
  }

  lemma LowerShareShifts(m: nat, n: int, p: int, q: int, r: int, v: nat, i: int, j: int, k: int)
    requires 0 < m && v < 4
    ensures ShiftsAt(LowerShares(m, n, p, q, r, v), Unit(v, 0), Unit(v, 1), Unit(v, 2), m,
      Shares(m - 1, n, p - Unit(v, 0), q - Unit(v, 1), r - Unit(v, 2)), i, j, k)
  {
    hide Quadnomial, W, Unit;
    var a, b, c := Unit(v, 0), Unit(v, 1), Unit(v, 2);
    var x, y := W(m - 1, i - a, j - b, k - c), W(n, p - i, q - j, r - k);
    assert p - a - (i - a) == p - i && q - b - (j - b) == q - j && r - c - (k - c) == r - k;
    if !InBox(m, i - a, j - b, k - c) {
      OutsideHasNoWeight(m - 1, i - a, j - b, k - c);
      assert x * y == 0.0;
    }
  }

  lemma OutsideHasNoWeight(n: int, i: int, j: int, k: int)
    requires !InSimplex(n, i, j, k)
    ensures W(n, i, j, k) == 0.0
  {
    hide Quadnomial;
    VanishesOutside(n, i, j, k);
  }

  lemma LowerSharesAreShares(m: nat, n: int, p: int, q: int, r: int, v: nat)
    requires 0 < m && v < 4
    ensures Box(m + 1, LowerShares(m, n, p, q, r, v)) ==
      Box(m, Shares(m - 1, n, p - Unit(v, 0), q - Unit(v, 1), r - Unit(v, 2)))
  {
    hide Quadnomial, W, LowerShares, Shares;
    var a, b, c := Unit(v, 0), Unit(v, 1), Unit(v, 2);
    var f, g := LowerShares(m, n, p, q, r, v), Shares(m - 1, n, p - a, q - b, r - c);
    forall i, j, k | InBox(m + 1, i, j, k)
      ensures ShiftsAt(f, a, b, c, m, g, i, j, k)
    {
      LowerShareShifts(m, n, p, q, r, v, i, j, k);
    }
    BoxShifts(m + 1, f, a, b, c, m, g);
  }

  lemma BoxOfFour(
      n: nat, s: Coefficients, a: Coefficients, b: Coefficients, c: Coefficients, d: Coefficients)
    requires forall i, j, k :: InBox(n, i, j, k) ==> s(i, j, k) == a(i, j, k) + b(i, j, k) + c(i, j, k) + d(i, j, k)
    ensures Box(n, s) == Box(n, a) + Box(n, b) + Box(n, c) + Box(n, d)
  {
    BoxTogether(n, a, b);
    BoxTogether(n, c, d);
    BoxTogether(n, Together(a, b), Together(c, d));
    BoxEqual(n, s, Together(Together(a, b), Together(c, d)));
  }

  lemma BoxOfOne(f: Coefficients)
    ensures Box(1, f) == f(0, 0, 0)
  {
    SumStarts(RowTerms(f, 0, 0));
    SumGrows(0, RowTerms(f, 0, 0));
    SumStarts(LayerTerms(1, f, 0));
    SumGrows(0, LayerTerms(1, f, 0));
    SumStarts(BoxTerms(1, f));
    SumGrows(0, BoxTerms(1, f));
  }

  /** The ways to split the exponents between two factors, weighted, add up to the weight of the product. */
  lemma SharesAddUp(m: nat, n: nat, p: int, q: int, r: int)
    ensures Box(m + 1, Shares(m, n, p, q, r)) == W(m + n, p, q, r)
    decreases m, 1
  {
    hide Quadnomial;
    var s := Shares(m, n, p, q, r);
    if m == 0 {
      BoxOfOne(s);
      AllToOne();
    } else {
      forall i, j, k | InBox(m + 1, i, j, k)
        ensures s(i, j, k) == LowerShares(m, n, p, q, r, 0)(i, j, k) + LowerShares(m, n, p, q, r, 1)(i, j, k)
          + LowerShares(m, n, p, q, r, 2)(i, j, k) + LowerShares(m, n, p, q, r, 3)(i, j, k)
      {
        SharesSplit(m, n, p, q, r, i, j, k);
      }
      BoxOfFour(m + 1, s, LowerShares(m, n, p, q, r, 0), LowerShares(m, n, p, q, r, 1), LowerShares(m, n, p, q, r, 2),
        LowerShares(m, n, p, q, r, 3));
      LowerAddsUp(m, n, p, q, r, 0);
      LowerAddsUp(m, n, p, q, r, 1);
      LowerAddsUp(m, n, p, q, r, 2);
      LowerAddsUp(m, n, p, q, r, 3);
      Pascal(m + n, p, q, r);
    }
  }

  lemma LowerAddsUp(m: nat, n: nat, p: int, q: int, r: int, v: nat)
    requires 0 < m && v < 4
    ensures Box(m + 1, LowerShares(m, n, p, q, r, v)) == W(m + n - 1, p - Unit(v, 0), q - Unit(v, 1), r - Unit(v, 2))
    decreases m, 0
  {
    hide Quadnomial;
    LowerSharesAreShares(m, n, p, q, r, v);
    SharesAddUp(m - 1, n, p - Unit(v, 0), q - Unit(v, 1), r - Unit(v, 2));
  }

  lemma AllToOne()
    ensures Quadnomial(0, 0, 0, 0) == 1
  {
  }

  // ----- tetrahedra with one determinant -----

  /** All partial determinants are `det`. */
  ghost predicate HasOneDeterminant(nodes: seq<real>, p: nat, det: real)
    requires HoldsTetrahedron(nodes, p)
  {
    forall e1, e2, e3 :: IsLegal(p, e1) && IsLegal(p, e2) && IsLegal(p, e3) ==>
      GetTetPartialJacobianDet(nodes, p, e1, e2, e3) == det
  }

  ghost function WeightOf(m: int, e: Exps): real {
    W(m, e.i, e.j, e.k)
  }

  lemma IllegalHasNoWeight(p: nat, e: Exps)
    requires 1 <= p && !IsLegal(p, e)
    ensures WeightOf(p - 1, e) == 0.0
  {
    VanishesOutside(p - 1, e.i, e.j, e.k);
  }

  lemma TermOfSplit(nodes: seq<real>, p: nat, det: real, c: Exps, e1: Exps, e2: Exps)
    requires HoldsTetrahedron(nodes, p) && HasOneDeterminant(nodes, p, det) && IsSplit(p, c, e1, e2)
    ensures TermAt(nodes, p, c, e1, e2) ==
      Weighed(WeightOf(p - 1, e1), WeightOf(p - 1, e2), WeightOf(p - 1, Rest(c, e1, e2)), det)
  {
    hide Quadnomial, TermAt, Weighed, GetTetPartialJacobianDet;
    SplitTermIsTerm(nodes, p, c, e1, e2);
  }

  lemma NoTerm(nodes: seq<real>, p: nat, c: Exps, e1: Exps, e2: Exps)
    requires HoldsTetrahedron(nodes, p) && !IsSplit(p, c, e1, e2)
    ensures TermAt(nodes, p, c, e1, e2) == 0.0
  {
  }

  lemma OneHasNoWeight(p: nat, c: Exps, e1: Exps, e2: Exps)
    requires 1 <= p && !IsSplit(p, c, e1, e2)
    ensures WeightOf(p - 1, e1) == 0.0 || WeightOf(p - 1, e2) == 0.0 || WeightOf(p - 1, Rest(c, e1, e2)) == 0.0
  {
    hide WeightOf;
    if !IsLegal(p, e1) {
      IllegalHasNoWeight(p, e1);
    } else if !IsLegal(p, e2) {
      IllegalHasNoWeight(p, e2);
    } else {
      IllegalHasNoWeight(p, Rest(c, e1, e2));
    }
  }

  /** Each term is its weights times the determinant. */
  lemma TermIsWeighted(
      nodes: seq<real>, p: nat, det: real, c: Exps, e1: Exps, e2: Exps, w: real, share: real)
    returns (term: real)
    requires HoldsTetrahedron(nodes, p) && HasOneDeterminant(nodes, p, det) && w == det * WeightOf(p - 1, e1)
    requires share == WeightOf(p - 1, e2) * WeightOf(p - 1, Rest(c, e1, e2))
    ensures term == w * share && TermAt(nodes, p, c, e1, e2) == term
  {
    hide Quadnomial, TermAt, HasOneDeterminant, WeightOf, Weighed;
    var x, y, z := WeightOf(p - 1, e1), WeightOf(p - 1, e2), WeightOf(p - 1, Rest(c, e1, e2));
    if IsSplit(p, c, e1, e2) {
      TermOfSplit(nodes, p, det, c, e1, e2);
      term := Reorder(x, y, z, det, w, share);
    } else {
      NoTerm(nodes, p, c, e1, e2);
      OneHasNoWeight(p, c, e1, e2);
      term := NoShare(w, x, y, z, det, share);
    }
  }

  lemma Reorder(x: real, y: real, z: real, det: real, w: real, share: real) returns (term: real)
    requires w == det * x && share == y * z
    ensures term == w * share && term == Weighed(x, y, z, det)
  {
    term := w * share;
    assert (det * x) * (y * z) == x * y * z * det;
  }

  lemma NoShare(w: real, x: real, y: real, z: real, det: real, share: real) returns (term: real)
    requires w == det * x && share == y * z && (x == 0.0 || y == 0.0 || z == 0.0)
    ensures term == w * share && term == 0.0
  {
    term := w * share;
    assert w == 0.0 || share == 0.0;
  }

  lemma TermsOfFirst(nodes: seq<real>, p: nat, det: real, c: Exps, e1: Exps, w: real)
    requires HoldsTetrahedron(nodes, p) && HasOneDeterminant(nodes, p, det) && w == det * WeightOf(p - 1, e1)
    ensures Box(p, TermsAfter(nodes, p, c, e1)) == w * W(2 * (p - 1), c.i - e1.i, c.j - e1.j, c.k - e1.k)
  {
    hide Quadnomial, HasOneDeterminant, TermAt, W;
    var m := p - 1;
    var f := Shares(m, m, c.i - e1.i, c.j - e1.j, c.k - e1.k);
    forall i, j, k | InBox(p, i, j, k)
      ensures TermsAfter(nodes, p, c, e1)(i, j, k) == w * f(i, j, k)
    {
      assert TermsAfter(nodes, p, c, e1)(i, j, k) == TermAt(nodes, p, c, e1, Exps(i, j, k));
      assert f(i, j, k) == WeightOf(m, Exps(i, j, k)) * WeightOf(m, Rest(c, e1, Exps(i, j, k)));
      var term := TermIsWeighted(nodes, p, det, c, e1, Exps(i, j, k), w, f(i, j, k));
    }
    SharesAddUp(m, m, c.i - e1.i, c.j - e1.j, c.k - e1.k);
    BoxScalesTo(p, f, TermsAfter(nodes, p, c, e1), w, W(2 * m, c.i - e1.i, c.j - e1.j, c.k - e1.k));
  }

  /** All terms together: the determinant times the weight of `c`. */
  lemma SumOfTerms(nodes: seq<real>, p: nat, det: real, c: Exps)
    requires HoldsTetrahedron(nodes, p) && HasOneDeterminant(nodes, p, det)
    ensures LoopSum(p, Terms(nodes, p, c)) == det * WeightOf(3 * (p - 1), c)
  {
    hide Quadnomial, HasOneDeterminant;
    var m := p - 1;
    var boxes := (i, j, k) => Box(p, Terms(nodes, p, c)(i, j, k));
    LoopsAddBoxes(p, Terms(nodes, p, c), boxes);
    var f := Shares(m, 2 * m, c.i, c.j, c.k);
    forall i, j, k | InBox(p, i, j, k)
      ensures boxes(i, j, k) == det * f(i, j, k)
    {
      var e1 := Exps(i, j, k);
      var x, y := WeightOf(m, e1), W(2 * m, c.i - i, c.j - j, c.k - k);
      assert Terms(nodes, p, c)(i, j, k) == TermsAfter(nodes, p, c, e1);
      TermsOfFirst(nodes, p, det, c, e1, det * x);
      assert (det * x) * y == det * (x * y);
    }
    SharesAddUp(m, 2 * m, c.i, c.j, c.k);
    BoxScalesTo(p, f, boxes, det, WeightOf(3 * m, c));
  }

  /** Then all values are alike as well: the cube of the order times the determinant. */
  lemma OneDeterminantOneValue(nodes: seq<real>, p: nat, det: real, c: Exps, node: real)
    requires HoldsTetrahedron(nodes, p) && HasOneDeterminant(nodes, p, det)
    requires InTetrahedron(3 * (p - 1), c.i, c.j, c.k) && IsTetNode(nodes, p, c, node)
    ensures node == Cube(p as real) * det
  {
    hide Quadnomial, HasOneDeterminant, Cube, SixProducts, Terms;
    SumOfTerms(nodes, p, det, c);
    var n, s := 3 * (p - 1), Cube(p as real);
    var w, sum := WeightOf(n, c), LoopSum(p, Terms(nodes, p, c));
    LoopSumIsCoefficient(nodes, p, c, sum);
    ScaledFrom(s, SixProducts(nodes, p), c.i, c.j, c.k, sum);
    QuadnomialIsPositive(n, c.i, c.j, c.k);
    var whole := TetCoefficients(nodes, p)(c.i, c.j, c.k);
    assert whole == s * sum;
    assert IsShareOf(node, w, whole);
    Divide(w, node, s, det, sum, whole);
  }

  lemma Divide(w: real, node: real, s: real, det: real, sum: real, whole: real)
    requires w > 0.0 && IsShareOf(node, w, whole) && whole == s * sum && sum == det * w
    ensures node == s * det
  {
    assert w * (node - s * det) == 0.0;
  }
}
