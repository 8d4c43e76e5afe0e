/** Finite sums of reals. A sum is the last of its partial sums; proofs about larger sums do not look
    any further into it. */
module Sums {

  ghost predicate IsSumStep(s: seq<real>, f: int -> real, i: int) {
    0 <= i < |s| - 1 ==> s[i + 1] == s[i] + f(i)
  }

  ghost predicate ArePartialSums(s: seq<real>, n: nat, f: int -> real) {
    && |s| == n + 1 && s[0] == 0.0
    && forall i {:trigger IsSumStep(s, f, i)} :: IsSumStep(s, f, i)
  }

  lemma PartialSumsExist(n: nat, f: int -> real)
    ensures exists s :: ArePartialSums(s, n, f)
  {
    if n == 0 {
      assert ArePartialSums([0.0], 0, f);
    } else {
      PartialSumsExist(n - 1, f);
      var s :| ArePartialSums(s, n - 1, f);
      var longer := s + [s[n - 1] + f(n - 1)];
      forall i
        ensures IsSumStep(longer, f, i)
      {
        assert IsSumStep(s, f, i);
      }
      assert ArePartialSums(longer, n, f);
    }
  }

  /** The sum of `f(i)` for `i` from 0 up to `n`. */
  ghost function Sum(n: nat, f: int -> real): real {
    PartialSumsExist(n, f);
    var s :| ArePartialSums(s, n, f);
    s[n]
  }

  lemma PartialSumsAgree(s: seq<real>, m: nat, t: seq<real>, n: nat, f: int -> real, i: nat)
    requires ArePartialSums(s, m, f) && ArePartialSums(t, n, f) && i <= m && i <= n
    ensures s[i] == t[i]
  {
    if i > 0 {
      PartialSumsAgree(s, m, t, n, f, i - 1);
      assert IsSumStep(s, f, i - 1) && IsSumStep(t, f, i - 1);
    }
  }

  lemma SumIs(n: nat, f: int -> real, s: seq<real>)
    requires ArePartialSums(s, n, f)
    ensures Sum(n, f) == s[n]
  {
    var t :| ArePartialSums(t, n, f) && Sum(n, f) == t[n];
    PartialSumsAgree(s, n, t, n, f, n);
  }

  lemma SumStarts(f: int -> real)
    ensures Sum(0, f) == 0.0
  {
    SumIs(0, f, [0.0]);
  }

  lemma SumGrows(n: nat, f: int -> real)
    ensures Sum(n + 1, f) == Sum(n, f) + f(n)
  {
    PartialSumsExist(n + 1, f);
    var s :| ArePartialSums(s, n + 1, f);
    SumIs(n + 1, f, s);
    var front := s[..n + 1];
    forall i
      ensures IsSumStep(front, f, i)
    {
      assert IsSumStep(s, f, i);
    }
    SumIs(n, f, front);
    assert IsSumStep(s, f, n);
  }

  lemma SumAdds(n: nat, f: int -> real, g: int -> real, h: int -> real, a: real, b: real)
    requires forall i :: 0 <= i < n ==> h(i) == a * f(i) + b * g(i)
    ensures Sum(n, h) == a * Sum(n, f) + b * Sum(n, g)
  {
    if n == 0 {
      SumStarts(f);
      SumStarts(g);
      SumStarts(h);
    } else {
      SumAdds(n - 1, f, g, h, a, b);
      SumGrows(n - 1, f);
      SumGrows(n - 1, g);
      SumGrows(n - 1, h);
      Linear(a, Sum(n - 1, f), f(n - 1), b, Sum(n - 1, g), g(n - 1));
    }
  }

  lemma Linear(a: real, x: real, y: real, b: real, z: real, w: real)
    ensures a * (x + y) + b * (z + w) == (a * x + b * z) + (a * y + b * w)
  {
  }

  lemma SumEqual(n: nat, f: int -> real, g: int -> real)
    requires forall i :: 0 <= i < n ==> f(i) == g(i)
    ensures Sum(n, f) == Sum(n, g)
  {
    if n == 0 {
      SumStarts(f);
      SumStarts(g);
    } else {
      SumEqual(n - 1, f, g);
      SumGrows(n - 1, f);
      SumGrows(n - 1, g);
    }
  }

  lemma SumIsZero(n: nat, f: int -> real)
    requires forall i :: 0 <= i < n ==> f(i) == 0.0
    ensures Sum(n, f) == 0.0
  {
    if n == 0 {
      SumStarts(f);
    } else {
      SumIsZero(n - 1, f);
      SumGrows(n - 1, f);
    }
  }

  lemma SumIsNotNegative(n: nat, f: int -> real)
    requires forall i :: 0 <= i < n ==> 0.0 <= f(i)
    ensures 0.0 <= Sum(n, f)
  {
    if n == 0 {
      SumStarts(f);
    } else {
      SumIsNotNegative(n - 1, f);
      SumGrows(n - 1, f);
    }
  }

  /** Only the terms from `lo` up to `lo + m` count; `g` has them from 0 on. */
  lemma SumShifts(n: nat, f: int -> real, lo: int, m: nat, g: int -> real)
    requires 0 <= lo && lo + m <= n
    requires forall i :: 0 <= i < n && !(lo <= i < lo + m) ==> f(i) == 0.0
    requires forall i :: 0 <= i < m ==> f(lo + i) == g(i)
    ensures Sum(n, f) == Sum(m, g)
    decreases n
  {
    if m == 0 {
      SumIsZero(n, f);
      SumStarts(g);
    } else if lo + m < n {
      SumShifts(n - 1, f, lo, m, g);
      SumGrows(n - 1, f);
    } else {
      assert f(lo + (m - 1)) == g(m - 1);
      SumShifts(n - 1, f, lo, m - 1, g);
      SumGrows(n - 1, f);
      SumGrows(m - 1, g);
    }
  }

  lemma SumTrims(n: nat, m: nat, f: int -> real)
    requires forall i :: n <= i < m || m <= i < n ==> f(i) == 0.0
    ensures Sum(n, f) == Sum(m, f)
  {
    if m <= n {
      SumShifts(n, f, 0, m, f);
    } else {
      SumShifts(m, f, 0, n, f);
    }
  }

  type Grid = (int, int) -> real

  /** The sum over the second index, for each of the first. */
  ghost function AcrossSecond(m: nat, f: Grid): int -> real {
    i => Sum(m, Second(f, i))
  }

  ghost function AcrossFirst(n: nat, f: Grid): int -> real {
    j => Sum(n, First(f, j))
  }

  ghost function Second(f: Grid, i: int): int -> real {
    j => f(i, j)
  }

  ghost function First(f: Grid, j: int): int -> real {
    i => f(i, j)
  }

  /** The order of two sums does not matter. */
  lemma SumsSwap(n: nat, m: nat, f: Grid)
    ensures Sum(n, AcrossSecond(m, f)) == Sum(m, AcrossFirst(n, f))
  {
    if n == 0 {
      SumStarts(AcrossSecond(m, f));
      forall j: int
        ensures AcrossFirst(0, f)(j) == 0.0
      {
        SumStarts(First(f, j));
      }
      SumIsZero(m, AcrossFirst(n, f));
    } else {
      SumsSwap(n - 1, m, f);
      SumGrows(n - 1, AcrossSecond(m, f));
      forall j: int
        ensures AcrossFirst(n, f)(j) == 1.0 * AcrossFirst(n - 1, f)(j) + 1.0 * Second(f, n - 1)(j)
      {
        SumGrows(n - 1, First(f, j));
      }
      SumAdds(m, AcrossFirst(n - 1, f), Second(f, n - 1), AcrossFirst(n, f), 1.0, 1.0);
    }
  }
}
