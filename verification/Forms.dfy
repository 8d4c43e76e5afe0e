/** Homogeneous polynomials in four barycentric coordinates, by their coefficients. Triangles are the
    case in which the third coordinate does not occur. */
module Forms {
  import opened Sums

  type Coefficients = (int, int, int) -> real

  ghost function Difference(f: Coefficients, g: Coefficients): Coefficients {
    (i, j, k) => f(i, j, k) - g(i, j, k)
  }

  ghost function Together(f: Coefficients, g: Coefficients): Coefficients {
    (i, j, k) => f(i, j, k) + g(i, j, k)
  }

  ghost function Scaled(t: real, c: Coefficients): Coefficients {
    (p, q, r) => t * c(p, q, r)
  }

  lemma ScaledFrom(s: real, f: Coefficients, i: int, j: int, k: int, y: real)
    requires y == f(i, j, k)
    ensures Scaled(s, f)(i, j, k) == s * y
  {
  }

  // ----- sums over a box -----

  ghost function RowTerms(f: Coefficients, j: int, k: int): int -> real {
    i => f(i, j, k)
  }

  ghost function Row(n: nat, f: Coefficients, j: int, k: int): real {
    Sum(n, RowTerms(f, j, k))
  }

  ghost function LayerTerms(n: nat, f: Coefficients, k: int): int -> real {
    j => Row(n, f, j, k)
  }

  ghost function Layer(n: nat, f: Coefficients, k: int): real {
    Sum(n, LayerTerms(n, f, k))
  }

  ghost function BoxTerms(n: nat, f: Coefficients): int -> real {
    k => Layer(n, f, k)
  }

  /** The sum over all indices from 0 up to `n`. */
  ghost function Box(n: nat, f: Coefficients): real {
    Sum(n, BoxTerms(n, f))
  }

  ghost predicate InBox(n: nat, i: int, j: int, k: int) {
    0 <= i < n && 0 <= j < n && 0 <= k < n
  }

  lemma RowAdds(
      n: nat, f: Coefficients, g: Coefficients, h: Coefficients, a: real, b: real, j: int, k: int)
    requires forall i :: InBox(n, i, j, k) ==> h(i, j, k) == a * f(i, j, k) + b * g(i, j, k)
    requires 0 <= j < n && 0 <= k < n
    ensures Row(n, h, j, k) == a * Row(n, f, j, k) + b * Row(n, g, j, k)
  {
    assert forall i :: 0 <= i < n ==> InBox(n, i, j, k);
    SumAdds(n, RowTerms(f, j, k), RowTerms(g, j, k), RowTerms(h, j, k), a, b);
  }

  lemma LayerAdds(
      n: nat, f: Coefficients, g: Coefficients, h: Coefficients, a: real, b: real, k: int)
    requires forall i, j :: InBox(n, i, j, k) ==> h(i, j, k) == a * f(i, j, k) + b * g(i, j, k)
    requires 0 <= k < n
    ensures Layer(n, h, k) == a * Layer(n, f, k) + b * Layer(n, g, k)
  {
    forall j | 0 <= j < n
      ensures Row(n, h, j, k) == a * Row(n, f, j, k) + b * Row(n, g, j, k)
    {
      RowAdds(n, f, g, h, a, b, j, k);
    }
    SumAdds(n, LayerTerms(n, f, k), LayerTerms(n, g, k), LayerTerms(n, h, k), a, b);
  }

  lemma BoxAdds(n: nat, f: Coefficients, g: Coefficients, h: Coefficients, a: real, b: real)
    requires forall i, j, k :: InBox(n, i, j, k) ==> h(i, j, k) == a * f(i, j, k) + b * g(i, j, k)
    ensures Box(n, h) == a * Box(n, f) + b * Box(n, g)
  {
    forall k | 0 <= k < n
      ensures Layer(n, h, k) == a * Layer(n, f, k) + b * Layer(n, g, k)
    {
      LayerAdds(n, f, g, h, a, b, k);
    }
    SumAdds(n, BoxTerms(n, f), BoxTerms(n, g), BoxTerms(n, h), a, b);
  }

  lemma BoxScales(n: nat, f: Coefficients, h: Coefficients, a: real)
    requires forall i, j, k :: InBox(n, i, j, k) ==> h(i, j, k) == a * f(i, j, k)
    ensures Box(n, h) == a * Box(n, f)
  {
    BoxAdds(n, f, f, h, a, 0.0);
  }

  lemma BoxScalesTo(n: nat, f: Coefficients, h: Coefficients, a: real, y: real)
    requires forall i, j, k :: InBox(n, i, j, k) ==> h(i, j, k) == a * f(i, j, k)
    requires y == Box(n, f)
    ensures Box(n, h) == a * y
  {
    BoxScales(n, f, h, a);
  }

  lemma BoxDiffers(n: nat, f: Coefficients, g: Coefficients)
    ensures Box(n, Difference(f, g)) == Box(n, f) - Box(n, g)
  {
    BoxAdds(n, f, g, Difference(f, g), 1.0, -1.0);
  }

  lemma BoxTogether(n: nat, f: Coefficients, g: Coefficients)
    ensures Box(n, Together(f, g)) == Box(n, f) + Box(n, g)
  {
    BoxAdds(n, f, g, Together(f, g), 1.0, 1.0);
  }

  lemma BoxEqual(n: nat, f: Coefficients, g: Coefficients)
    requires forall i, j, k :: InBox(n, i, j, k) ==> f(i, j, k) == g(i, j, k)
    ensures Box(n, f) == Box(n, g)
  {
    BoxAdds(n, g, g, f, 1.0, 0.0);
  }

  lemma BoxIsZero(n: nat, f: Coefficients)
    requires forall i, j, k :: InBox(n, i, j, k) ==> f(i, j, k) == 0.0
    ensures Box(n, f) == 0.0
  {
    BoxAdds(n, f, f, f, 0.0, 0.0);
  }

  lemma BoxIsNotNegative(n: nat, f: Coefficients)
    requires forall i, j, k :: InBox(n, i, j, k) ==> 0.0 <= f(i, j, k)
    ensures 0.0 <= Box(n, f)
  {
    forall k | 0 <= k < n
      ensures 0.0 <= Layer(n, f, k)
    {
      forall j | 0 <= j < n
        ensures 0.0 <= Row(n, f, j, k)
      {
        assert forall i :: 0 <= i < n ==> InBox(n, i, j, k);
        SumIsNotNegative(n, RowTerms(f, j, k));
      }
      SumIsNotNegative(n, LayerTerms(n, f, k));
    }
    SumIsNotNegative(n, BoxTerms(n, f));
  }

  // ----- parts of rows -----

  lemma RowGrows(n: nat, f: Coefficients, j: int, k: int)
    ensures Row(n + 1, f, j, k) == Row(n, f, j, k) + f(n, j, k)
  {
    SumGrows(n, RowTerms(f, j, k));
  }

  lemma RowTrims(n: nat, m: nat, f: Coefficients, j: int, k: int)
    requires forall i :: n <= i < m || m <= i < n ==> f(i, j, k) == 0.0
    ensures Row(n, f, j, k) == Row(m, f, j, k)
  {
    SumTrims(n, m, RowTerms(f, j, k));
  }

  // ----- boxes within boxes -----

  /** The box of side `m` at offset (`p`, `q`, `r`) within one of side `n`: `f` is zero outside of it,
      and `g` is `f` seen from the offset. */
  ghost predicate IsShifted(n: nat, f: Coefficients, p: int, q: int, r: int, m: nat, g: Coefficients) {
    && 0 <= p && p + m <= n && 0 <= q && q + m <= n && 0 <= r && r + m <= n
    && forall i, j, k :: InBox(n, i, j, k) ==> ShiftsAt(f, p, q, r, m, g, i, j, k)
  }

  ghost predicate ShiftsAt(f: Coefficients, p: int, q: int, r: int, m: nat, g: Coefficients, i: int, j: int, k: int) {
    f(i, j, k) == if InBox(m, i - p, j - q, k - r) then g(i - p, j - q, k - r) else 0.0
  }

  lemma RowShifts(
      n: nat, f: Coefficients, p: int, q: int, r: int, m: nat, g: Coefficients, j: int, k: int)
    requires IsShifted(n, f, p, q, r, m, g) && 0 <= j < n && 0 <= k < n
    ensures Row(n, f, j, k) == if 0 <= j - q < m && 0 <= k - r < m then Row(m, g, j - q, k - r) else 0.0
  {
    forall i | 0 <= i < n
      ensures f(i, j, k) == if InBox(m, i - p, j - q, k - r) then g(i - p, j - q, k - r) else 0.0
    {
      assert InBox(n, i, j, k) && ShiftsAt(f, p, q, r, m, g, i, j, k);
    }
    if 0 <= j - q < m && 0 <= k - r < m {
      SumShifts(n, RowTerms(f, j, k), p, m, RowTerms(g, j - q, k - r));
    } else {
      SumIsZero(n, RowTerms(f, j, k));
    }
  }

  lemma LayerShifts(
      n: nat, f: Coefficients, p: int, q: int, r: int, m: nat, g: Coefficients, k: int)
    requires IsShifted(n, f, p, q, r, m, g) && 0 <= k < n
    ensures Layer(n, f, k) == if 0 <= k - r < m then Layer(m, g, k - r) else 0.0
  {
    forall j | 0 <= j < n
      ensures Row(n, f, j, k) == if 0 <= j - q < m && 0 <= k - r < m then Row(m, g, j - q, k - r) else 0.0
    {
      RowShifts(n, f, p, q, r, m, g, j, k);
    }
    if 0 <= k - r < m {
      SumShifts(n, LayerTerms(n, f, k), q, m, LayerTerms(m, g, k - r));
    } else {
      SumIsZero(n, LayerTerms(n, f, k));
    }
  }

  lemma BoxShifts(n: nat, f: Coefficients, p: int, q: int, r: int, m: nat, g: Coefficients)
    requires IsShifted(n, f, p, q, r, m, g)
    ensures Box(n, f) == Box(m, g)
  {
    forall k | 0 <= k < n
      ensures Layer(n, f, k) == if 0 <= k - r < m then Layer(m, g, k - r) else 0.0
    {
      LayerShifts(n, f, p, q, r, m, g, k);
    }
    SumShifts(n, BoxTerms(n, f), r, m, BoxTerms(m, g));
  }

  // ----- boxes of boxes -----

  type Family = int -> Coefficients

  ghost function Slice(f: Family, p: int, q: int, r: int): int -> real {
    t => f(t)(p, q, r)
  }

  /** A sum of boxes is the box of sums. */
  lemma SumOfBoxes(n: nat, m: nat, f: Family, boxes: int -> real, s: Coefficients)
    requires forall t :: 0 <= t < n ==> boxes(t) == Box(m, f(t))
    requires forall p, q, r :: InBox(m, p, q, r) ==> s(p, q, r) == Sum(n, Slice(f, p, q, r))
    ensures Sum(n, boxes) == Box(m, s)
  {
    if n == 0 {
      forall p, q, r | InBox(m, p, q, r)
        ensures s(p, q, r) == 0.0
      {
        SumStarts(Slice(f, p, q, r));
      }
      BoxIsZero(m, s);
      SumStarts(boxes);
    } else {
      SumGrows(n - 1, boxes);
      var s' := (p, q, r) => Sum(n - 1, Slice(f, p, q, r));
      SumOfBoxes(n - 1, m, f, boxes, s');
      LastOfSum(n, m, f, s, s');
    }
  }

  lemma LastOfSum(n: nat, m: nat, f: Family, s: Coefficients, s': Coefficients)
    requires 0 < n
    requires forall p, q, r :: InBox(m, p, q, r) ==> s(p, q, r) == Sum(n, Slice(f, p, q, r))
    requires forall p, q, r :: InBox(m, p, q, r) ==> s'(p, q, r) == Sum(n - 1, Slice(f, p, q, r))
    ensures Box(m, s) == Box(m, s') + Box(m, f(n - 1))
  {
    var last := f(n - 1);
    forall p, q, r | InBox(m, p, q, r)
      ensures s(p, q, r) == 1.0 * s'(p, q, r) + 1.0 * last(p, q, r)
    {
      SumGrows(n - 1, Slice(f, p, q, r));
      assert Slice(f, p, q, r)(n - 1) == last(p, q, r);
    }
    BoxAdds(m, s', last, s, 1.0, 1.0);
  }

  type PairFamily = (int, int, int) -> Coefficients

  ghost function FamilyAt(f: PairFamily, j: int, k: int): Family {
    t => f(t, j, k)
  }

  ghost function At(f: PairFamily, p: int, q: int, r: int): Coefficients {
    (i, j, k) => f(i, j, k)(p, q, r)
  }

  ghost function RowsAt(n: nat, f: PairFamily, j: int, k: int): Coefficients {
    (p, q, r) => Row(n, At(f, p, q, r), j, k)
  }

  ghost function LayersAt(n: nat, f: PairFamily, k: int): Coefficients {
    (p, q, r) => Layer(n, At(f, p, q, r), k)
  }

  ghost function BoxesAt(n: nat, f: PairFamily): Coefficients {
    (p, q, r) => Box(n, At(f, p, q, r))
  }

  lemma RowOfBoxes(n: nat, m: nat, f: PairFamily, boxes: Coefficients, j: int, k: int)
    requires forall i :: 0 <= i < n ==> boxes(i, j, k) == Box(m, f(i, j, k))
    ensures Row(n, boxes, j, k) == Box(m, RowsAt(n, f, j, k))
  {
    forall p, q, r | InBox(m, p, q, r)
      ensures RowsAt(n, f, j, k)(p, q, r) == Sum(n, Slice(FamilyAt(f, j, k), p, q, r))
    {
      forall i | 0 <= i < n
        ensures At(f, p, q, r)(i, j, k) == Slice(FamilyAt(f, j, k), p, q, r)(i)
      {
        assert FamilyAt(f, j, k)(i) == f(i, j, k);
      }
      SumEqual(n, RowTerms(At(f, p, q, r), j, k), Slice(FamilyAt(f, j, k), p, q, r));
    }
    SumOfBoxes(n, m, FamilyAt(f, j, k), RowTerms(boxes, j, k), RowsAt(n, f, j, k));
  }

  lemma LayerOfBoxes(n: nat, m: nat, f: PairFamily, boxes: Coefficients, k: int)
    requires forall i, j :: 0 <= i < n && 0 <= j < n ==> boxes(i, j, k) == Box(m, f(i, j, k))
    ensures Layer(n, boxes, k) == Box(m, LayersAt(n, f, k))
  {
    var family := j => RowsAt(n, f, j, k);
    forall j | 0 <= j < n
      ensures Row(n, boxes, j, k) == Box(m, family(j))
    {
      RowOfBoxes(n, m, f, boxes, j, k);
    }
    forall p, q, r | InBox(m, p, q, r)
      ensures LayersAt(n, f, k)(p, q, r) == Sum(n, Slice(family, p, q, r))
    {
      SumEqual(n, LayerTerms(n, At(f, p, q, r), k), Slice(family, p, q, r));
    }
    SumOfBoxes(n, m, family, LayerTerms(n, boxes, k), LayersAt(n, f, k));
  }

  /** The order of two boxes does not matter. */
  lemma BoxesSwap(n: nat, m: nat, f: PairFamily, boxes: Coefficients)
    requires forall i, j, k :: InBox(n, i, j, k) ==> boxes(i, j, k) == Box(m, f(i, j, k))
    ensures Box(n, boxes) == Box(m, BoxesAt(n, f))
  {
    var family := k => LayersAt(n, f, k);
    forall k | 0 <= k < n
      ensures Layer(n, boxes, k) == Box(m, family(k))
    {
      forall i, j | 0 <= i < n && 0 <= j < n
        ensures boxes(i, j, k) == Box(m, f(i, j, k))
      {
        assert InBox(n, i, j, k);
      }
      LayerOfBoxes(n, m, f, boxes, k);
    }
    forall p, q, r | InBox(m, p, q, r)
      ensures BoxesAt(n, f)(p, q, r) == Sum(n, Slice(family, p, q, r))
    {
      SumEqual(n, BoxTerms(n, At(f, p, q, r)), Slice(family, p, q, r));
    }
    SumOfBoxes(n, m, family, BoxTerms(n, boxes), BoxesAt(n, f));
  }
}
