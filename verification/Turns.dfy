/** A polynomial in Bernstein form does not change when the corners of its element change places, and its control
    values with them. */
module Turns {
  import opened Sums
  import opened Forms
  import opened Polynomials
  import opened Bernstein

  // ----- weights -----

  lemma {:induction false} BinomialMirrors(n: int, i: int)
    requires 0 <= i <= n
    ensures Binomial(n, i) == Binomial(n, n - i)
    decreases n
  {
    if 0 < i < n {
      BinomialMirrors(n - 1, i - 1);
      BinomialMirrors(n - 1, i);
    }
  }

  lemma Expand(a: int, b: int, c: int, d: int)
    ensures (a + b) * (c + d) == a * (c + d) + b * c + b * d
  {
  }

  lemma TrinomialPascal(n: int, i: int, j: int)
    requires 0 < i && 0 < j && i + j <= n
    ensures Trinomial(n, i, j) == Trinomial(n - 1, i - 1, j) + Trinomial(n - 1, i, j - 1) + Trinomial(n - 1, i, j)
  {
    hide Binomial;
    BinomialPascal(n, i);
    BinomialPascal(n - i, j);
    Expand(Binomial(n - 1, i - 1), Binomial(n - 1, i), Binomial(n - i - 1, j - 1), Binomial(n - i - 1, j));
    assert n - 1 - (i - 1) == n - i && n - 1 - i == n - i - 1;
  }

  /** To choose `i` and then `j` is to choose `j` and then `i`. */
  lemma TrinomialSwaps(n: int, i: int, j: int)
    requires 0 <= i && 0 <= j && i + j <= n
    ensures Trinomial(n, i, j) == Trinomial(n, j, i)
    decreases n
  {
    if 0 < i && 0 < j {
      TrinomialPascal(n, i, j);
      TrinomialPascal(n, j, i);
      TrinomialSwaps(n - 1, i - 1, j);
      TrinomialSwaps(n - 1, i, j - 1);
      if i + j < n {
        TrinomialSwaps(n - 1, i, j);
      }
    }
  }

  lemma Regroup(a: int, b: int, c: int)
    ensures a * b * c == a * (b * c)
  {
  }

  /** Exchanging two neighbouring exponents of the four. */
  lemma QuadnomialTurns(n: int, i: int, j: int, k: int)
    requires InSimplex(n, i, j, k)
    ensures Quadnomial(n, i, j, k) == Quadnomial(n, j, i, k) == Quadnomial(n, i, k, j)
    ensures Quadnomial(n, i, j, k) == Quadnomial(n, i, j, n - i - j - k)
  {
    hide Binomial;
    var l := n - i - j;
    var a, b, c := Binomial(n, i), Binomial(n - i, j), Binomial(l, k);
    TrinomialSwaps(n, i, j);
    assert n - j - i == l;
    assert Quadnomial(n, i, j, k) == a * b * c;
    assert Quadnomial(n, j, i, k) == Binomial(n, j) * Binomial(n - j, i) * c;
    var b', c' := Binomial(n - i, k), Binomial(n - i - k, j);
    TrinomialSwaps(n - i, j, k);
    Regroup(a, b, c);
    Regroup(a, b', c');
    BinomialMirrors(l, k);
    assert n - i - j - (n - i - j - k) == k;
  }

  // ----- turning a polynomial -----

  ghost function FirstTwo(f: Coefficients): Coefficients {
    (i, j, k) => f(j, i, k)
  }

  ghost function NextTwo(f: Coefficients): Coefficients {
    (i, j, k) => f(i, k, j)
  }

  ghost function LastTwo(n: int, f: Coefficients): Coefficients {
    (i, j, k) => f(i, j, n - i - j - k)
  }

  /** Corner `t` and the next one exchanged. */
  ghost function Turned(t: nat, n: int, f: Coefficients): Coefficients {
    if t == 0 then FirstTwo(f) else if t == 1 then NextTwo(f) else LastTwo(n, f)
  }

  function TurnedPoint(t: nat, x: Point): Point {
    if t == 0 then Point(x.b, x.a, x.c, x.d)
    else if t == 1 then Point(x.a, x.c, x.b, x.d)
    else Point(x.a, x.b, x.d, x.c)
  }

  lemma {:induction false} MonoIs(n: int, i: int, j: int, k: int, x: Point)
    ensures Mono(n, i, j, k, x) == Pow(x.a, i) * (Pow(x.b, j) * (Pow(x.c, k) * Pow(x.d, n - i - j - k)))
  {
    hide Pow, ProductOf;
    var l := n - i - j - k;
    assert [l][1..] == [] && [x.d][1..] == [];
    assert Powers([x.d], [l]) == [Pow(x.d, l)] + Powers([], []);
    assert [x.c, x.d][1..] == [x.d] && [k, l][1..] == [l];
    assert Powers([x.c, x.d], [k, l]) == [Pow(x.c, k)] + Powers([x.d], [l]);
    assert [x.b, x.c, x.d][1..] == [x.c, x.d] && [j, k, l][1..] == [k, l];
    assert Powers([x.b, x.c, x.d], [j, k, l]) == [Pow(x.b, j)] + Powers([x.c, x.d], [k, l]);
    assert x.Coordinates()[1..] == [x.b, x.c, x.d] && Exponents(n, i, j, k)[1..] == [j, k, l];
    var e, f, g, h := Pow(x.a, i), Pow(x.b, j), Pow(x.c, k), Pow(x.d, l);
    FourFactors(Powers(x.Coordinates(), Exponents(n, i, j, k)), e, f, g, h);
  }

  lemma {:induction false} FourFactors(s: seq<real>, e: real, f: real, g: real, h: real)
    requires s == [e, f, g, h]
    ensures ProductOf(s) == e * (f * (g * h))
  {
    assert [h][1..] == [] && ProductOf([h]) == h * ProductOf([]);
    assert [g, h][1..] == [h] && ProductOf([g, h]) == g * ProductOf([h]);
    assert [f, g, h][1..] == [g, h] && ProductOf([f, g, h]) == f * ProductOf([g, h]);
    assert s[1..] == [f, g, h];
  }

  lemma Exchanged(e: real, f: real, g: real)
    ensures e * (f * g) == f * (e * g)
  {
  }

  lemma MonoTurns(n: int, i: int, j: int, k: int, x: Point)
    ensures Mono(n, j, i, k, TurnedPoint(0, x)) == Mono(n, i, j, k, x)
    ensures Mono(n, i, k, j, TurnedPoint(1, x)) == Mono(n, i, j, k, x)
    ensures Mono(n, i, j, n - i - j - k, TurnedPoint(2, x)) == Mono(n, i, j, k, x)
  {
    hide Mono, Pow;
    var l := n - i - j - k;
    var e, f, g, h := Pow(x.a, i), Pow(x.b, j), Pow(x.c, k), Pow(x.d, l);
    MonoIs(n, i, j, k, x);
    MonoIs(n, j, i, k, TurnedPoint(0, x));
    MonoIs(n, i, k, j, TurnedPoint(1, x));
    MonoIs(n, i, j, l, TurnedPoint(2, x));
    Exchanged(e, f, g * h);
    Exchanged(f, g, h);
    assert g * h == h * g;
  }

  lemma TermIs(n: nat, b: Coefficients, x: Point, i: int, j: int, k: int, w: real, y: real, m: real)
    requires InSimplex(n, i, j, k) && w == Quadnomial(n, i, j, k) as real && y == b(i, j, k)
    requires m == Mono(n, i, j, k, x)
    ensures Term(n, Weighted(n, b), x)(i, j, k) == (w * y) * m
  {
    hide Mono, Quadnomial;
    WeightedFrom(n, b, i, j, k, w, y);
  }

  /** A term goes where its exponents go. */
  lemma TermMoves(
      n: nat, b: Coefficients, b': Coefficients, x: Point, x': Point,
      i: int, j: int, k: int, i': int, j': int, k': int)
    requires InSimplex(n, i, j, k) && InSimplex(n, i', j', k') && b'(i', j', k') == b(i, j, k)
    requires Quadnomial(n, i', j', k') == Quadnomial(n, i, j, k) && Mono(n, i', j', k', x') == Mono(n, i, j, k, x)
    ensures Term(n, Weighted(n, b'), x')(i', j', k') == Term(n, Weighted(n, b), x)(i, j, k)
  {
    hide Mono, Quadnomial, Weighted, Term;
    var w, y, m := Quadnomial(n, i, j, k) as real, b(i, j, k), Mono(n, i, j, k, x);
    TermIs(n, b, x, i, j, k, w, y, m);
    TermIs(n, b', x', i', j', k', w, y, m);
  }

  lemma TermOutside(n: int, c: Coefficients, x: Point, i: int, j: int, k: int)
    requires !InSimplex(n, i, j, k)
    ensures Term(n, c, x)(i, j, k) == 0.0
  {
  }

  lemma TermTurnsFirst(n: nat, b: Coefficients, x: Point, i: int, j: int, k: int)
    ensures Term(n, Weighted(n, FirstTwo(b)), TurnedPoint(0, x))(i, j, k) == Term(n, Weighted(n, b), x)(j, i, k)
  {
    hide Weighted, Mono, Quadnomial;
    if InSimplex(n, i, j, k) {
      QuadnomialTurns(n, i, j, k);
      MonoTurns(n, j, i, k, x);
      TermMoves(n, b, FirstTwo(b), x, TurnedPoint(0, x), j, i, k, i, j, k);
    } else {
      TermOutside(n, Weighted(n, FirstTwo(b)), TurnedPoint(0, x), i, j, k);
      TermOutside(n, Weighted(n, b), x, j, i, k);
    }
  }

  lemma TermTurnsNext(n: nat, b: Coefficients, x: Point, i: int, j: int, k: int)
    ensures Term(n, Weighted(n, NextTwo(b)), TurnedPoint(1, x))(i, j, k) == Term(n, Weighted(n, b), x)(i, k, j)
  {
    hide Weighted, Mono, Quadnomial;
    if InSimplex(n, i, j, k) {
      QuadnomialTurns(n, i, j, k);
      MonoTurns(n, i, k, j, x);
      TermMoves(n, b, NextTwo(b), x, TurnedPoint(1, x), i, k, j, i, j, k);
    } else {
      TermOutside(n, Weighted(n, NextTwo(b)), TurnedPoint(1, x), i, j, k);
      TermOutside(n, Weighted(n, b), x, i, k, j);
    }
  }

  lemma TermTurnsLast(n: nat, b: Coefficients, x: Point, i: int, j: int, k: int, l: int)
    requires i + j + k + l == n
    ensures Term(n, Weighted(n, LastTwo(n, b)), TurnedPoint(2, x))(i, j, k) == Term(n, Weighted(n, b), x)(i, j, l)
  {
    hide Weighted, Mono, Quadnomial;
    if InSimplex(n, i, j, k) {
      assert n - i - j - k == l && n - i - j - l == k;
      QuadnomialTurns(n, i, j, k);
      MonoTurns(n, i, j, l, x);
      TermMoves(n, b, LastTwo(n, b), x, TurnedPoint(2, x), i, j, l, i, j, k);
    } else {
      TermOutside(n, Weighted(n, LastTwo(n, b)), TurnedPoint(2, x), i, j, k);
      TermOutside(n, Weighted(n, b), x, i, j, l);
    }
  }

  lemma TermTurns(t: nat, n: nat, b: Coefficients, x: Point, i: int, j: int, k: int)
    requires t < 3
    ensures Term(n, Weighted(n, Turned(t, n, b)), TurnedPoint(t, x))(i, j, k) ==
      Turned(t, n, Term(n, Weighted(n, b), x))(i, j, k)
  {
    hide Weighted, Term, TurnedPoint;
    if t == 0 {
      TermTurnsFirst(n, b, x, i, j, k);
    } else if t == 1 {
      TermTurnsNext(n, b, x, i, j, k);
    } else {
      TermTurnsLast(n, b, x, i, j, k, n - i - j - k);
    }
  }

  // ----- sums in another order -----

  lemma SumStartsWith(n: nat, f: int -> real, g: int -> real)
    requires forall i :: 0 <= i < n ==> g(i) == f(i + 1)
    ensures Sum(n + 1, f) == f(0) + Sum(n, g)
  {
    if n == 0 {
      SumStarts(f);
      SumStarts(g);
      SumGrows(0, f);
    } else {
      SumStartsWith(n - 1, f, g);
      SumGrows(n, f);
      SumGrows(n - 1, g);
    }
  }

  lemma SumMirrors(n: nat, f: int -> real, g: int -> real)
    requires forall i :: 0 <= i < n ==> g(i) == f(n - 1 - i)
    ensures Sum(n, f) == Sum(n, g)
  {
    if n == 0 {
      SumStarts(f);
      SumStarts(g);
    } else {
      var rest := (i: int) => g(i + 1);
      SumStartsWith(n - 1, g, rest);
      SumMirrors(n - 1, f, rest);
      SumGrows(n - 1, f);
    }
  }

  lemma LayerSwaps(n: nat, f: Coefficients, g: Coefficients, k: int)
    requires forall i, j :: 0 <= i < n && 0 <= j < n ==> g(i, j, k) == f(j, i, k)
    ensures Layer(n, f, k) == Layer(n, g, k)
  {
    var grid: Grid := (i, j) => f(i, j, k);
    forall j | 0 <= j < n
      ensures LayerTerms(n, f, k)(j) == AcrossFirst(n, grid)(j)
      ensures LayerTerms(n, g, k)(j) == AcrossSecond(n, grid)(j)
    {
      SumEqual(n, RowTerms(f, j, k), First(grid, j));
      SumEqual(n, RowTerms(g, j, k), Second(grid, j));
    }
    SumEqual(n, LayerTerms(n, f, k), AcrossFirst(n, grid));
    SumEqual(n, LayerTerms(n, g, k), AcrossSecond(n, grid));
    SumsSwap(n, n, grid);
  }

  lemma BoxSwaps0(n: nat, f: Coefficients, g: Coefficients)
    requires forall i, j, k :: InBox(n, i, j, k) ==> g(i, j, k) == f(j, i, k)
    ensures Box(n, f) == Box(n, g)
  {
    forall k | 0 <= k < n
      ensures Layer(n, f, k) == Layer(n, g, k)
    {
      assert forall i, j :: 0 <= i < n && 0 <= j < n ==> InBox(n, i, j, k);
      LayerSwaps(n, f, g, k);
    }
    SumEqual(n, BoxTerms(n, f), BoxTerms(n, g));
  }

  lemma BoxSwaps1(n: nat, f: Coefficients, g: Coefficients)
    requires forall i, j, k :: InBox(n, i, j, k) ==> g(i, j, k) == f(i, k, j)
    ensures Box(n, f) == Box(n, g)
  {
    var grid: Grid := (j, k) => Row(n, f, j, k);
    forall k | 0 <= k < n
      ensures BoxTerms(n, f)(k) == AcrossFirst(n, grid)(k)
      ensures BoxTerms(n, g)(k) == AcrossSecond(n, grid)(k)
    {
      SumEqual(n, LayerTerms(n, f, k), First(grid, k));
      forall j | 0 <= j < n
        ensures LayerTerms(n, g, k)(j) == Second(grid, k)(j)
      {
        assert forall i :: 0 <= i < n ==> InBox(n, i, j, k);
        SumEqual(n, RowTerms(g, j, k), RowTerms(f, k, j));
      }
      SumEqual(n, LayerTerms(n, g, k), Second(grid, k));
    }
    SumEqual(n, BoxTerms(n, f), AcrossFirst(n, grid));
    SumEqual(n, BoxTerms(n, g), AcrossSecond(n, grid));
    SumsSwap(n, n, grid);
  }

  lemma BoxSwapsEnds(n: nat, f: Coefficients, g: Coefficients)
    requires forall i, j, k :: InBox(n, i, j, k) ==> g(i, j, k) == f(k, j, i)
    ensures Box(n, f) == Box(n, g)
  {
    var f1: Coefficients := (i, j, k) => f(j, i, k);
    var f2: Coefficients := (i, j, k) => f(k, i, j);
    BoxSwaps0(n, f, f1);
    BoxSwaps1(n, f1, f2);
    assert forall i, j, k :: InBox(n, i, j, k) ==> InBox(n, j, i, k);
    BoxSwaps0(n, f2, g);
  }

  /** Nothing outside of the simplex. */
  ghost predicate IsInside(m: int, f: Coefficients) {
    forall i, j, k :: !InSimplex(m, i, j, k) ==> f(i, j, k) == 0.0
  }

  lemma BoxMirrors(m: nat, f: Coefficients, g: Coefficients)
    requires IsInside(m, f) && forall i, j, k :: g(i, j, k) == f(m - i - j - k, j, k)
    ensures Box(m + 1, f) == Box(m + 1, g)
  {
    var n := m + 1;
    forall k | 0 <= k < n
      ensures Layer(n, f, k) == Layer(n, g, k)
    {
      forall j | 0 <= j < n
        ensures Row(n, f, j, k) == Row(n, g, j, k)
      {
        RowMirrors(m, f, g, j, k);
      }
      SumEqual(n, LayerTerms(n, f, k), LayerTerms(n, g, k));
    }
    SumEqual(n, BoxTerms(n, f), BoxTerms(n, g));
  }

  lemma RowMirrors(m: nat, f: Coefficients, g: Coefficients, j: int, k: int)
    requires IsInside(m, f) && 0 <= j <= m && 0 <= k <= m
    requires forall i, j, k :: g(i, j, k) == f(m - i - j - k, j, k)
    ensures Row(m + 1, f, j, k) == Row(m + 1, g, j, k)
  {
    var r := m - j - k;
    forall i | 0 <= i <= m && r < i
      ensures f(i, j, k) == 0.0 == g(i, j, k)
    {
      assert !InSimplex(m, i, j, k) && !InSimplex(m, r - i, j, k);
    }
    if r < 0 {
      SumIsZero(m + 1, RowTerms(f, j, k));
      SumIsZero(m + 1, RowTerms(g, j, k));
    } else {
      RowTrims(m + 1, r + 1, f, j, k);
      RowTrims(m + 1, r + 1, g, j, k);
      SumMirrors(r + 1, RowTerms(f, j, k), RowTerms(g, j, k));
    }
  }

  lemma BoxTurnsLast(m: nat, f: Coefficients, g: Coefficients)
    requires IsInside(m, f) && forall i, j, k :: g(i, j, k) == f(i, j, m - i - j - k)
    ensures Box(m + 1, g) == Box(m + 1, f)
  {
    var n := m + 1;
    var f1: Coefficients := (i, j, k) => f(k, j, i);
    var g1: Coefficients := (i, j, k) => g(k, j, i);
    BoxSwapsEnds(n, f, f1);
    BoxSwapsEnds(n, g, g1);
    forall i, j, k | !InSimplex(m, i, j, k)
      ensures f1(i, j, k) == 0.0
    {
      assert !InSimplex(m, k, j, i);
    }
    forall i, j, k
      ensures g1(i, j, k) == f1(m - i - j - k, j, k)
    {
      assert m - k - j - i == m - i - j - k;
      assert g(k, j, i) == f(k, j, m - k - j - i);
    }
    BoxMirrors(m, f1, g1);
  }

  lemma BoxTurns(t: nat, m: nat, f: Coefficients)
    requires t < 3 && IsInside(m, f)
    ensures Box(m + 1, Turned(t, m, f)) == Box(m + 1, f)
  {
    if t == 0 {
      BoxSwaps0(m + 1, f, Turned(t, m, f));
    } else if t == 1 {
      BoxSwaps1(m + 1, f, Turned(t, m, f));
    } else {
      BoxTurnsLast(m, f, Turned(t, m, f));
    }
  }

  /** The polynomial at a point, and the turned one at the turned point. */
  lemma FormTurns(t: nat, n: nat, b: Coefficients, x: Point)
    requires t < 3
    ensures Form(n, Weighted(n, Turned(t, n, b)), TurnedPoint(t, x)) == Form(n, Weighted(n, b), x)
  {
    var f := Term(n, Weighted(n, b), x);
    BoxTurns(t, n, f);
    forall i, j, k | InBox(n + 1, i, j, k)
      ensures Term(n, Weighted(n, Turned(t, n, b)), TurnedPoint(t, x))(i, j, k) == Turned(t, n, f)(i, j, k)
    {
      TermTurns(t, n, b, x, i, j, k);
    }
    BoxEqual(n + 1, Term(n, Weighted(n, Turned(t, n, b)), TurnedPoint(t, x)), Turned(t, n, f));
  }
}
