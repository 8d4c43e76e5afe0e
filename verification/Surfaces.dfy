/** Bezier curves by the list of their control values, and Bezier triangles by the rows of theirs; an element in
    Bernstein form is one or the other along its edges and on its faces. */
module Surfaces {
  import opened Sums
  import opened Forms
  import opened Polynomials
  import opened Bernstein
  import opened Turns

  // ----- curves and surfaces -----

  ghost function CurveTerms(row: seq<real>, u: real, v: real): int -> real {
    j =>
      if 0 <= j < |row| then (Binomial(|row| - 1, j) as real * row[j]) * (Pow(u, |row| - 1 - j) * Pow(v, j)) else 0.0
  }

  /** The curve from the first of the values, where `v` is 0, to the last, where `u` is. */
  ghost function Curve(row: seq<real>, u: real, v: real): real {
    Sum(|row|, CurveTerms(row, u, v))
  }

  ghost function SurfaceTerms(rows: seq<seq<real>>, u: real, v: real, w: real): int -> real {
    k => if 0 <= k < |rows| then (Binomial(|rows| - 1, k) as real * Pow(w, k)) * Curve(rows[k], u, v) else 0.0
  }

  /** The triangle whose rows of values go from the side where `w` is 0 to the corner where it is 1, and within a row
      from `u` to `v`. */
  ghost function Surface(rows: seq<seq<real>>, u: real, v: real, w: real): real {
    Sum(|rows|, SurfaceTerms(rows, u, v, w))
  }

  lemma PowOfZero(n: int)
    ensures Pow(0.0, n) == if n <= 0 then 1.0 else 0.0
  {
  }

  lemma {:induction false} PowOfOne(n: int)
    ensures Pow(1.0, n) == 1.0
    decreases if 0 <= n then n else 0
  {
    if n > 0 {
      PowOfOne(n - 1);
    }
  }

  lemma OnlyTerm(n: nat, f: int -> real, i: nat)
    requires i < n && forall j :: 0 <= j < n && j != i ==> f(j) == 0.0
    ensures Sum(n, f) == f(i)
  {
    var g := (j: int) => f(i + j);
    SumShifts(n, f, i, 1, g);
    SumStarts(g);
    SumGrows(0, g);
  }

  /** A curve starts at its first value. */
  lemma CurveStarts(row: seq<real>)
    requires row != []
    ensures Curve(row, 1.0, 0.0) == row[0]
  {
    var f := CurveTerms(row, 1.0, 0.0);
    PowOfOne(|row| - 1);
    forall j | 0 <= j < |row| && j != 0
      ensures f(j) == 0.0
    {
      PowOfZero(j);
    }
    OnlyTerm(|row|, f, 0);
  }

  // ----- along an edge -----

  lemma TermVanishes(n: nat, b: Coefficients, x: Point, i: int, j: int, k: int)
    requires (x.b == 0.0 && 0 < j) || (x.c == 0.0 && 0 < k) || (x.d == 0.0 && i + j + k != n)
    ensures Term(n, Weighted(n, b), x)(i, j, k) == 0.0
  {
    hide Pow, Mono, Weighted;
    if InSimplex(n, i, j, k) {
      MonoIs(n, i, j, k, x);
      PowOfZero(j);
      PowOfZero(k);
      PowOfZero(n - i - j - k);
      ZeroFactor(Pow(x.a, i), Pow(x.b, j), Pow(x.c, k), Pow(x.d, n - i - j - k));
      assert Weighted(n, b)(i, j, k) * 0.0 == 0.0;
    }
  }

  lemma ZeroFactor(e: real, f: real, g: real, h: real)
    requires f == 0.0 || g == 0.0 || h == 0.0
    ensures e * (f * (g * h)) == 0.0
  {
    assert g == 0.0 || h == 0.0 ==> g * h == 0.0;
  }

  lemma EdgeTerm(n: nat, b: Coefficients, x: Point, row: seq<real>, i: nat)
    requires x.b == 0.0 && x.c == 0.0 && |row| == n + 1 && i <= n && row[i] == b(i, 0, 0)
    ensures Term(n, Weighted(n, b), x)(i, 0, 0) == CurveTerms(row, x.d, x.a)(i)
  {
    hide Mono, Pow, Weighted, Term;
    var e, h := Pow(x.a, i), Pow(x.d, n - i);
    MonoIs(n, i, 0, 0, x);
    PowOfZero(0);
    assert Quadnomial(n, i, 0, 0) == Binomial(n, i) by {
      assert Binomial(n - i, 0) == 1;
    }
    var c := Binomial(n, i) as real;
    assert e * (1.0 * (1.0 * h)) == h * e;
    TermIs(n, b, x, i, 0, 0, c, row[i], h * e);
  }

  /** From the last corner to the first, the element is the curve of the values there. */
  lemma FormIsCurve(n: nat, b: Coefficients, x: Point, row: seq<real>)
    requires x.b == 0.0 && x.c == 0.0 && |row| == n + 1 && forall i: nat :: i <= n ==> row[i] == b(i, 0, 0)
    ensures Form(n, Weighted(n, b), x) == Curve(row, x.d, x.a)
  {
    hide Term, CurveTerms;
    var f, size := Term(n, Weighted(n, b), x), n + 1;
    forall j, k | 0 <= j < size && 0 <= k < size && (j != 0 || k != 0)
      ensures Row(size, f, j, k) == 0.0
    {
      forall i | 0 <= i < size
        ensures f(i, j, k) == 0.0
      {
        TermVanishes(n, b, x, i, j, k);
      }
      SumIsZero(size, RowTerms(f, j, k));
    }
    forall k | 0 < k < size
      ensures Layer(size, f, k) == 0.0
    {
      SumIsZero(size, LayerTerms(size, f, k));
    }
    OnlyTerm(size, BoxTerms(size, f), 0);
    OnlyTerm(size, LayerTerms(size, f, 0), 0);
    forall i | 0 <= i < size
      ensures RowTerms(f, 0, 0)(i) == CurveTerms(row, x.d, x.a)(i)
    {
      EdgeTerm(n, b, x, row, i);
    }
    SumEqual(size, RowTerms(f, 0, 0), CurveTerms(row, x.d, x.a));
  }

  // ----- on a face -----

  lemma {:induction false} FaceWeight(n: nat, j: nat, k: nat)
    requires j + k <= n
    ensures Quadnomial(n, n - k - j, j, k) == Binomial(n, k) * Binomial(n - k, j)
  {
    hide Binomial;
    var i := n - k - j;
    QuadnomialTurns(n, i, j, k);
    QuadnomialTurns(n, j, i, k);
    QuadnomialTurns(n, j, k, i);
    BinomialOfAll(i);
    assert n - k - j == i;
  }

  lemma BinomialOfAll(n: nat)
    ensures Binomial(n, n) == 1
  {
  }

  lemma RegroupFactors(c: real, d: real, y: real, e: real, f: real, g: real)
    ensures (c * d * y) * (e * (f * g)) == (c * g) * ((d * y) * (e * f))
  {
    assert (c * d * y) == c * (d * y);
    assert e * (f * g) == g * (e * f);
    Swap4(c, d * y, g, e * f);
  }

  lemma Swap4(a: real, b: real, c: real, d: real)
    ensures (a * b) * (c * d) == (a * c) * (b * d)
  {
  }

  lemma {:induction false} FaceTerm(n: nat, b: Coefficients, x: Point, row: seq<real>, j: nat, k: nat, scale: real)
    requires x.d == 0.0 && j + k <= n && |row| == n + 1 - k && row[j] == b(n - k - j, j, k)
    requires scale == Binomial(n, k) as real * Pow(x.c, k)
    ensures Term(n, Weighted(n, b), x)(n - k - j, j, k) == scale * CurveTerms(row, x.a, x.b)(j)
  {
    hide Mono, Pow, Weighted, Term, Binomial, Quadnomial;
    var i: nat := n - k - j;
    var e, f, g := Pow(x.a, i), Pow(x.b, j), Pow(x.c, k);
    var c, d, y := Binomial(n, k) as real, Binomial(n - k, j) as real, row[j];
    FaceWeight(n, j, k);
    var w := Quadnomial(n, i, j, k) as real;
    assert w == c * d;
    MonoIs(n, i, j, k, x);
    assert n - i - j - k == 0;
    PowOfZero(0);
    var m := e * (f * g);
    assert g * 1.0 == g;
    TermIs(n, b, x, i, j, k, w, y, m);
    RegroupFactors(c, d, y, e, f, g);
    assert |row| - 1 == n - k && |row| - 1 - j == i;
  }

  lemma NothingBeyond(row: seq<real>, u: real, v: real, j: int)
    ensures |row| <= j ==> CurveTerms(row, u, v)(j) == 0.0
  {
  }

  lemma {:induction false} LayerIsCurve(n: nat, b: Coefficients, x: Point, row: seq<real>, k: nat, scale: real)
    requires x.d == 0.0 && k <= n && |row| == n + 1 - k && scale == Binomial(n, k) as real * Pow(x.c, k)
    requires forall j: nat :: j < |row| ==> row[j] == b(n - k - j, j, k)
    ensures Layer(n + 1, Term(n, Weighted(n, b), x), k) == scale * Curve(row, x.a, x.b)
  {
    hide Term, CurveTerms;
    var f, g, size := Term(n, Weighted(n, b), x), CurveTerms(row, x.a, x.b), n + 1;
    forall j: int | 0 <= j < size
      ensures LayerTerms(size, f, k)(j) == scale * g(j) + 0.0 * g(j)
    {
      forall i | 0 <= i < size && i != n - k - j
        ensures f(i, j, k) == 0.0
      {
        TermVanishes(n, b, x, i, j, k);
      }
      NothingBeyond(row, x.a, x.b, j);
      if j + k <= n {
        OnlyTerm(size, RowTerms(f, j, k), n - k - j);
        FaceTerm(n, b, x, row, j, k, scale);
      } else {
        SumIsZero(size, RowTerms(f, j, k));
      }
    }
    SumAdds(size, g, g, LayerTerms(size, f, k), scale, 0.0);
    forall j: int | |row| <= j < size
      ensures g(j) == 0.0
    {
      NothingBeyond(row, x.a, x.b, j);
    }
    SumTrims(size, |row|, g);
  }

  /** Where the last coordinate is 0, the element is the triangle of the values there, row by row. */
  lemma FormIsSurface(n: nat, b: Coefficients, x: Point, rows: seq<seq<real>>)
    requires x.d == 0.0 && |rows| == n + 1 && forall k: nat :: k <= n ==> |rows[k]| == n + 1 - k
    requires forall k: nat, j: nat :: k <= n && j < |rows[k]| ==> rows[k][j] == b(n - k - j, j, k)
    ensures Form(n, Weighted(n, b), x) == Surface(rows, x.a, x.b, x.c)
  {
    var f, size := Term(n, Weighted(n, b), x), n + 1;
    forall k: int | 0 <= k < size
      ensures BoxTerms(size, f)(k) == SurfaceTerms(rows, x.a, x.b, x.c)(k)
    {
      LayerIsCurve(n, b, x, rows[k], k, Binomial(n, k) as real * Pow(x.c, k));
    }
    SumEqual(size, BoxTerms(size, f), SurfaceTerms(rows, x.a, x.b, x.c));
  }

  // ----- every edge and every face -----

  /** A triple of exponents; the fourth is what is left. */
  datatype Place = Place(i: int, j: int, k: int)

  ghost function ValueAt(b: Coefficients, e: Place): real {
    b(e.i, e.j, e.k)
  }

  /** The edges from corner 0 to 1, 1 to 2, 2 to 0, 0 to 3, 1 to 3, 2 to 3, and from 3 to 0. */
  function OnEdge(e: nat, u: real, v: real): Point {
    if e == 0 then Point(u, v, 0.0, 0.0)
    else if e == 1 then Point(0.0, u, v, 0.0)
    else if e == 2 then Point(v, 0.0, u, 0.0)
    else if e == 3 then Point(u, 0.0, 0.0, v)
    else if e == 4 then Point(0.0, u, 0.0, v)
    else if e == 5 then Point(0.0, 0.0, u, v)
    else Point(v, 0.0, 0.0, u)
  }

  /** `m` of `n` steps along an edge. */
  function AlongEdge(n: int, e: nat, m: int): Place {
    if e == 0 then Place(n - m, m, 0)
    else if e == 1 then Place(0, n - m, m)
    else if e == 2 then Place(m, 0, n - m)
    else if e == 3 then Place(n - m, 0, 0)
    else if e == 4 then Place(0, n - m, 0)
    else if e == 5 then Place(0, 0, n - m)
    else Place(m, 0, 0)
  }

  /** An edge is the curve of the values along it. */
  lemma EdgeIsCurve(n: nat, b: Coefficients, e: nat, u: real, v: real, row: seq<real>)
    requires e < 7 && |row| == n + 1 && forall m: nat :: m <= n ==> row[m] == ValueAt(b, AlongEdge(n, e, m))
    ensures Form(n, Weighted(n, b), OnEdge(e, u, v)) == Curve(row, u, v)
  {
    hide Form, Curve, Weighted;
    if e == 0 {
      var b1, b2 := FirstTwo(b), NextTwo(FirstTwo(b));
      FormTurns(0, n, b, OnEdge(e, u, v));
      FormTurns(1, n, b1, Point(v, u, 0.0, 0.0));
      FormTurns(2, n, b2, Point(v, 0.0, u, 0.0));
      FormIsCurve(n, LastTwo(n, b2), Point(v, 0.0, 0.0, u), row);
    } else if e == 1 {
      var b1, b2 := NextTwo(b), FirstTwo(NextTwo(b));
      FormTurns(1, n, b, OnEdge(e, u, v));
      FormTurns(0, n, b1, Point(0.0, v, u, 0.0));
      FormTurns(2, n, b2, Point(v, 0.0, u, 0.0));
      FormIsCurve(n, LastTwo(n, b2), Point(v, 0.0, 0.0, u), row);
    } else if e == 2 {
      FormTurns(2, n, b, OnEdge(e, u, v));
      FormIsCurve(n, LastTwo(n, b), Point(v, 0.0, 0.0, u), row);
    } else if e == 3 {
      var b1, b2 := LastTwo(n, b), NextTwo(LastTwo(n, b));
      FormTurns(2, n, b, OnEdge(e, u, v));
      FormTurns(1, n, b1, Point(u, 0.0, v, 0.0));
      FormTurns(0, n, b2, Point(u, v, 0.0, 0.0));
      var b3, b4 := FirstTwo(b2), NextTwo(FirstTwo(b2));
      FormTurns(1, n, b3, Point(v, u, 0.0, 0.0));
      FormTurns(2, n, b4, Point(v, 0.0, u, 0.0));
      FormIsCurve(n, LastTwo(n, b4), Point(v, 0.0, 0.0, u), row);
    } else if e == 4 {
      var b1, b2 := LastTwo(n, b), NextTwo(LastTwo(n, b));
      FormTurns(2, n, b, OnEdge(e, u, v));
      FormTurns(1, n, b1, Point(0.0, u, v, 0.0));
      FormTurns(0, n, b2, Point(0.0, v, u, 0.0));
      FormTurns(2, n, FirstTwo(b2), Point(v, 0.0, u, 0.0));
      FormIsCurve(n, LastTwo(n, FirstTwo(b2)), Point(v, 0.0, 0.0, u), row);
    } else if e == 5 {
      var b1, b2 := LastTwo(n, b), NextTwo(LastTwo(n, b));
      FormTurns(2, n, b, OnEdge(e, u, v));
      FormTurns(1, n, b1, Point(0.0, 0.0, v, u));
      FormTurns(0, n, b2, Point(0.0, v, 0.0, u));
      FormIsCurve(n, FirstTwo(b2), Point(v, 0.0, 0.0, u), row);
    } else {
      FormIsCurve(n, b, Point(v, 0.0, 0.0, u), row);
    }
  }

  /** The faces with corners 0, 1, 2, with 0, 1, 3, with 1, 2, 3, and with 0, 2, 3. */
  function OnFace(f: nat, u: real, v: real, w: real): Point {
    if f == 0 then Point(u, v, w, 0.0)
    else if f == 1 then Point(u, v, 0.0, w)
    else if f == 2 then Point(0.0, u, v, w)
    else Point(u, 0.0, v, w)
  }

  /** Row `k` and column `j` of a face. */
  function InFace(n: int, f: nat, k: int, j: int): Place {
    if f == 0 then Place(n - k - j, j, k)
    else if f == 1 then Place(n - k - j, j, 0)
    else if f == 2 then Place(0, n - k - j, j)
    else Place(n - k - j, 0, j)
  }

  /** A face is the triangle of the values on it. */
  lemma FaceIsSurface(n: nat, b: Coefficients, f: nat, u: real, v: real, w: real, rows: seq<seq<real>>)
    requires f < 4 && |rows| == n + 1 && forall k: nat :: k <= n ==> |rows[k]| == n + 1 - k
    requires forall k: nat, j: nat :: k <= n && j < |rows[k]| ==> rows[k][j] == ValueAt(b, InFace(n, f, k, j))
    ensures Form(n, Weighted(n, b), OnFace(f, u, v, w)) == Surface(rows, u, v, w)
  {
    hide Form, Surface, Weighted;
    if f == 0 {
      FormIsSurface(n, b, Point(u, v, w, 0.0), rows);
    } else if f == 1 {
      FormTurns(2, n, b, OnFace(f, u, v, w));
      FormIsSurface(n, LastTwo(n, b), Point(u, v, w, 0.0), rows);
    } else if f == 2 {
      var b1, b2 := FirstTwo(b), NextTwo(FirstTwo(b));
      FormTurns(0, n, b, OnFace(f, u, v, w));
      FormTurns(1, n, b1, Point(u, 0.0, v, w));
      FormTurns(2, n, b2, Point(u, v, 0.0, w));
      FormIsSurface(n, LastTwo(n, b2), Point(u, v, w, 0.0), rows);
    } else {
      FormTurns(1, n, b, OnFace(f, u, v, w));
      FormTurns(2, n, NextTwo(b), Point(u, v, 0.0, w));
      FormIsSurface(n, LastTwo(n, NextTwo(b)), Point(u, v, w, 0.0), rows);
    }
  }

  // ----- at the corners -----

  function CornerAt(t: nat): Point {
    if t == 0 then Point(1.0, 0.0, 0.0, 0.0)
    else if t == 1 then Point(0.0, 1.0, 0.0, 0.0)
    else if t == 2 then Point(0.0, 0.0, 1.0, 0.0)
    else Point(0.0, 0.0, 0.0, 1.0)
  }

  function CornerPlace(n: int, t: nat): Place {
    if t == 0 then Place(n, 0, 0)
    else if t == 1 then Place(0, n, 0)
    else if t == 2 then Place(0, 0, n)
    else Place(0, 0, 0)
  }

  lemma CornerMono(n: nat, t: nat, i: int, j: int, k: int)
    requires InSimplex(n, i, j, k)
    ensures Mono(n, i, j, k, CornerAt(t)) == if Place(i, j, k) == CornerPlace(n, t) then 1.0 else 0.0
  {
    hide Mono, Pow;
    var l := n - i - j - k;
    MonoIs(n, i, j, k, CornerAt(t));
    PowOfZero(i);
    PowOfZero(j);
    PowOfZero(k);
    PowOfZero(l);
    PowOfOne(if t == 0 then i else if t == 1 then j else if t == 2 then k else l);
  }

  lemma OnlyTermOfBox(n: nat, f: Coefficients, at: Place)
    requires 0 <= at.i < n && 0 <= at.j < n && 0 <= at.k < n
    requires forall i, j, k :: InBox(n, i, j, k) && Place(i, j, k) != at ==> f(i, j, k) == 0.0
    ensures Box(n, f) == ValueAt(f, at)
  {
    forall j, k | 0 <= j < n && 0 <= k < n && (j != at.j || k != at.k)
      ensures Row(n, f, j, k) == 0.0
    {
      assert forall i :: 0 <= i < n ==> InBox(n, i, j, k);
      SumIsZero(n, RowTerms(f, j, k));
    }
    forall k | 0 <= k < n && k != at.k
      ensures Layer(n, f, k) == 0.0
    {
      SumIsZero(n, LayerTerms(n, f, k));
    }
    assert forall i :: 0 <= i < n ==> InBox(n, i, at.j, at.k);
    OnlyTerm(n, BoxTerms(n, f), at.k);
    OnlyTerm(n, LayerTerms(n, f, at.k), at.j);
    OnlyTerm(n, RowTerms(f, at.j, at.k), at.i);
  }

  /** At a corner a polynomial has the value of one coefficient. */
  lemma FormAtCorner(n: nat, c: Coefficients, t: nat)
    requires t < 4
    ensures Form(n, c, CornerAt(t)) == ValueAt(c, CornerPlace(n, t))
  {
    hide Mono;
    var f, at := Term(n, c, CornerAt(t)), CornerPlace(n, t);
    forall i, j, k | InBox(n + 1, i, j, k) && Place(i, j, k) != at
      ensures f(i, j, k) == 0.0
    {
      if InSimplex(n, i, j, k) {
        CornerMono(n, t, i, j, k);
      }
    }
    CornerMono(n, t, at.i, at.j, at.k);
    OnlyTermOfBox(n + 1, f, at);
  }
}
