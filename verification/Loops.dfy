/** The sum of a function of six indices in the order of nested loops that take the third index of both
    triples first, then the second of both, then the first. */
module Loops {
  import opened Sums
  import opened Forms

  ghost function FirstTerms(n: nat, f: PairFamily, k1: int, k2: int, j1: int, j2: int): int -> real {
    i1 => Row(n, f(i1, j1, k1), j2, k2)
  }

  /** The two innermost loops. */
  ghost function FirstSum(n: nat, f: PairFamily, k1: int, k2: int, j1: int, j2: int): real {
    Sum(n, FirstTerms(n, f, k1, k2, j1, j2))
  }

  ghost function SecondTerms(n: nat, f: PairFamily, k1: int, k2: int, j1: int): int -> real {
    j2 => FirstSum(n, f, k1, k2, j1, j2)
  }

  ghost function SecondSum(n: nat, f: PairFamily, k1: int, k2: int, j1: int): real {
    Sum(n, SecondTerms(n, f, k1, k2, j1))
  }

  ghost function ThirdTerms(n: nat, f: PairFamily, k1: int, k2: int): int -> real {
    j1 => SecondSum(n, f, k1, k2, j1)
  }

  ghost function ThirdSum(n: nat, f: PairFamily, k1: int, k2: int): real {
    Sum(n, ThirdTerms(n, f, k1, k2))
  }

  ghost function FourthTerms(n: nat, f: PairFamily, k1: int): int -> real {
    k2 => ThirdSum(n, f, k1, k2)
  }

  ghost function FourthSum(n: nat, f: PairFamily, k1: int): real {
    Sum(n, FourthTerms(n, f, k1))
  }

  ghost function FifthTerms(n: nat, f: PairFamily): int -> real {
    k1 => FourthSum(n, f, k1)
  }

  /** All six loops. */
  ghost function LoopSum(n: nat, f: PairFamily): real {
    Sum(n, FifthTerms(n, f))
  }

  // ----- the order of the loops does not matter -----

  ghost function LayerGrid(n: nat, f: PairFamily, j1: int, k1: int): Grid {
    (i1, k2) => Layer(n, f(i1, j1, k1), k2)
  }

  ghost function RowGrid(n: nat, f: PairFamily, j1: int, k1: int, k2: int): Grid {
    (i1, j2) => Row(n, f(i1, j1, k1), j2, k2)
  }

  ghost function SecondGrid(n: nat, f: PairFamily, k1: int): Grid {
    (j1, k2) => SecondSum(n, f, k1, k2, j1)
  }

  lemma LayersAcross(n: nat, f: PairFamily, j1: int, k1: int, k2: int)
    ensures Sum(n, First(LayerGrid(n, f, j1, k1), k2)) == SecondSum(n, f, k1, k2, j1)
  {
    var g := RowGrid(n, f, j1, k1, k2);
    forall i1: int
      ensures First(LayerGrid(n, f, j1, k1), k2)(i1) == AcrossSecond(n, g)(i1)
    {
      SumEqual(n, LayerTerms(n, f(i1, j1, k1), k2), Second(g, i1));
    }
    SumEqual(n, First(LayerGrid(n, f, j1, k1), k2), AcrossSecond(n, g));
    SumsSwap(n, n, g);
    forall j2: int
      ensures AcrossFirst(n, g)(j2) == SecondTerms(n, f, k1, k2, j1)(j2)
    {
      SumEqual(n, First(g, j2), FirstTerms(n, f, k1, k2, j1, j2));
    }
    SumEqual(n, AcrossFirst(n, g), SecondTerms(n, f, k1, k2, j1));
  }

  lemma RowsAcross(n: nat, f: PairFamily, boxes: Coefficients, j1: int, k1: int)
    requires forall i :: 0 <= i < n ==> boxes(i, j1, k1) == Box(n, f(i, j1, k1))
    ensures Row(n, boxes, j1, k1) == Sum(n, Second(SecondGrid(n, f, k1), j1))
  {
    var g := LayerGrid(n, f, j1, k1);
    forall i1: int | 0 <= i1 < n
      ensures boxes(i1, j1, k1) == AcrossSecond(n, g)(i1)
    {
      SumEqual(n, BoxTerms(n, f(i1, j1, k1)), Second(g, i1));
    }
    SumEqual(n, RowTerms(boxes, j1, k1), AcrossSecond(n, g));
    SumsSwap(n, n, g);
    forall k2: int
      ensures AcrossFirst(n, g)(k2) == Second(SecondGrid(n, f, k1), j1)(k2)
    {
      LayersAcross(n, f, j1, k1, k2);
    }
    SumEqual(n, AcrossFirst(n, g), Second(SecondGrid(n, f, k1), j1));
  }

  lemma LayerAcross(n: nat, f: PairFamily, boxes: Coefficients, k1: int)
    requires forall i, j :: 0 <= i < n && 0 <= j < n ==> boxes(i, j, k1) == Box(n, f(i, j, k1))
    ensures Layer(n, boxes, k1) == FourthSum(n, f, k1)
  {
    var g := SecondGrid(n, f, k1);
    forall j1: int | 0 <= j1 < n
      ensures Row(n, boxes, j1, k1) == AcrossSecond(n, g)(j1)
    {
      RowsAcross(n, f, boxes, j1, k1);
    }
    SumEqual(n, LayerTerms(n, boxes, k1), AcrossSecond(n, g));
    SumsSwap(n, n, g);
    forall k2: int
      ensures AcrossFirst(n, g)(k2) == FourthTerms(n, f, k1)(k2)
    {
      SumEqual(n, First(g, k2), ThirdTerms(n, f, k1, k2));
    }
    SumEqual(n, AcrossFirst(n, g), FourthTerms(n, f, k1));
  }

  /** The loops add up the box of boxes. */
  lemma LoopsAddBoxes(n: nat, f: PairFamily, boxes: Coefficients)
    requires forall i, j, k :: InBox(n, i, j, k) ==> boxes(i, j, k) == Box(n, f(i, j, k))
    ensures LoopSum(n, f) == Box(n, boxes)
  {
    forall k1: int | 0 <= k1 < n
      ensures Layer(n, boxes, k1) == FourthSum(n, f, k1)
    {
      forall i, j | 0 <= i < n && 0 <= j < n
        ensures boxes(i, j, k1) == Box(n, f(i, j, k1))
      {
        assert InBox(n, i, j, k1);
      }
      LayerAcross(n, f, boxes, k1);
    }
    SumEqual(n, BoxTerms(n, boxes), FifthTerms(n, f));
  }

  // ----- loops over nothing but zeros -----

  lemma RowIsZero(n: nat, f: Coefficients, j: int, k: int)
    requires forall i :: 0 <= i < n ==> f(i, j, k) == 0.0
    ensures Row(n, f, j, k) == 0.0
  {
    SumIsZero(n, RowTerms(f, j, k));
  }

  lemma FirstIsZero(n: nat, f: PairFamily, k1: int, k2: int, j1: int, j2: int)
    requires forall i1, i2 :: 0 <= i1 < n && 0 <= i2 < n ==> f(i1, j1, k1)(i2, j2, k2) == 0.0
    ensures FirstSum(n, f, k1, k2, j1, j2) == 0.0
  {
    forall i1: int | 0 <= i1 < n
      ensures Row(n, f(i1, j1, k1), j2, k2) == 0.0
    {
      RowIsZero(n, f(i1, j1, k1), j2, k2);
    }
    SumIsZero(n, FirstTerms(n, f, k1, k2, j1, j2));
  }

  lemma SecondIsZero(n: nat, f: PairFamily, k1: int, k2: int, j1: int)
    requires forall j2 :: 0 <= j2 < n ==> FirstSum(n, f, k1, k2, j1, j2) == 0.0
    ensures SecondSum(n, f, k1, k2, j1) == 0.0
  {
    SumIsZero(n, SecondTerms(n, f, k1, k2, j1));
  }

  lemma ThirdIsZero(n: nat, f: PairFamily, k1: int, k2: int)
    requires forall j1 :: 0 <= j1 < n ==> SecondSum(n, f, k1, k2, j1) == 0.0
    ensures ThirdSum(n, f, k1, k2) == 0.0
  {
    SumIsZero(n, ThirdTerms(n, f, k1, k2));
  }

  lemma FourthIsZero(n: nat, f: PairFamily, k1: int)
    requires forall k2 :: 0 <= k2 < n ==> ThirdSum(n, f, k1, k2) == 0.0
    ensures FourthSum(n, f, k1) == 0.0
  {
    SumIsZero(n, FourthTerms(n, f, k1));
  }
}
