/** Computing the values of a tetrahedron (`Nijkl`, `getTetJacDetNodes`) and checking them
    (`checkMinJacDet_3d`). */
module TetCheck {
  import opened Sums
  import opened Forms
  import opened Loops
  import opened Polynomials
  import opened Bernstein
  import opened NodeNumbering
  import opened TetValidity

  // ----- one value -----

  /** `f` holds what each turn of the loops adds, and nothing for exponents that do not make a split. */
  ghost predicate IsContribution(nodes: seq<real>, d: nat, c: Exps, f: PairFamily, e1: Exps, e2: Exps)
    requires HoldsTetrahedron(nodes, d)
  {
    f(e1.i, e1.j, e1.k)(e2.i, e2.j, e2.k) == if IsSplit(d, c, e1, e2) then SplitTermOf(nodes, d, c, e1, e2) else 0.0
  }

  ghost predicate AreContributions(nodes: seq<real>, d: nat, c: Exps, f: PairFamily)
    requires HoldsTetrahedron(nodes, d)
  {
    forall e1, e2 {:trigger IsContribution(nodes, d, c, f, e1, e2)} :: IsContribution(nodes, d, c, f, e1, e2)
  }

  lemma TermsAreContributions(nodes: seq<real>, d: nat, c: Exps)
    requires HoldsTetrahedron(nodes, d)
    ensures AreContributions(nodes, d, c, Terms(nodes, d, c))
  {
    forall e1, e2
      ensures IsContribution(nodes, d, c, Terms(nodes, d, c), e1, e2)
    {
      assert Terms(nodes, d, c)(e1.i, e1.j, e1.k) == TermsAfter(nodes, d, c, e1);
      if IsSplit(d, c, e1, e2) {
        SplitTermIsTerm(nodes, d, c, e1, e2);
      }
    }
  }

  lemma NoSplit(nodes: seq<real>, d: nat, c: Exps, f: PairFamily, e1: Exps, e2: Exps)
    requires HoldsTetrahedron(nodes, d) && AreContributions(nodes, d, c, f) && !IsSplit(d, c, e1, e2)
    ensures f(e1.i, e1.j, e1.k)(e2.i, e2.j, e2.k) == 0.0
  {
    assert IsContribution(nodes, d, c, f, e1, e2);
  }

  /** The innermost loop, over the first exponent of the second factor. */
  method AddSecondI(
      nodes: seq<real>, d: nat, c: Exps, k1: nat, k2: nat, j1: nat, j2: nat, i1: nat, before: real, ghost f: PairFamily)
    returns (sum: real)
    requires HoldsTetrahedron(nodes, d) && AreContributions(nodes, d, c, f)
    requires k1 + k2 <= c.k && j1 + j2 <= c.j && i1 <= c.i && InTetrahedron(d - 1, i1, j1, k1)
    ensures sum == before + Row(d, f(i1, j1, k1), j2, k2)
  {
    sum := before;
    ghost var g := f(i1, j1, k1);
    var i2start := Max2(0, c.i + c.j + c.k - i1 - j1 - k1 - j2 - k2 - (d - 1));
    var i2end := Min2(c.i - i1, d - 1 - j2 - k2);
    forall i: int | !(i2start <= i <= i2end)
      ensures g(i, j2, k2) == 0.0
    {
      NoSplit(nodes, d, c, f, Exps(i1, j1, k1), Exps(i, j2, k2));
    }
    var i2 := i2start;
    SumStarts(RowTerms(g, j2, k2));
    RowTrims(0, i2start, g, j2, k2);
    while i2 <= i2end
      invariant i2start <= i2 <= Max2(i2start, i2end + 1)
      invariant sum == before + Row(i2, g, j2, k2)
      decreases i2end - i2
    {
      var e1, e2 := Exps(i1, j1, k1), Exps(i2, j2, k2);
      assert IsContribution(nodes, d, c, f, e1, e2);
      RowGrows(i2, g, j2, k2);
      sum := sum + SplitTermOf(nodes, d, c, e1, e2);
      i2 := i2 + 1;
    }
    RowTrims(i2, d, g, j2, k2);
  }

  /** Over the first exponent of the first factor. */
  method AddFirstI(
      nodes: seq<real>, d: nat, c: Exps, k1: nat, k2: nat, j1: nat, j2: nat, before: real, ghost f: PairFamily)
    returns (sum: real)
    requires HoldsTetrahedron(nodes, d) && AreContributions(nodes, d, c, f)
    requires k1 + k2 <= c.k && j1 + j2 <= c.j
    ensures sum == before + FirstSum(d, f, k1, k2, j1, j2)
  {
    sum := before;
    ghost var g := FirstTerms(d, f, k1, k2, j1, j2);
    var i1end := Min2(c.i, d - 1 - j1 - k1);
    forall i: int | 0 <= i && !(0 <= i <= i1end)
      ensures g(i) == 0.0
    {
      forall i2 | 0 <= i2 < d
        ensures f(i, j1, k1)(i2, j2, k2) == 0.0
      {
        NoSplit(nodes, d, c, f, Exps(i, j1, k1), Exps(i2, j2, k2));
      }
      RowIsZero(d, f(i, j1, k1), j2, k2);
    }
    var i1 := 0;
    SumStarts(g);
    while i1 <= i1end
      invariant 0 <= i1 <= Max2(0, i1end + 1)
      invariant sum == before + Sum(i1, g)
      decreases i1end - i1
    {
      SumGrows(i1, g);
      sum := AddSecondI(nodes, d, c, k1, k2, j1, j2, i1, sum, f);
      i1 := i1 + 1;
    }
    SumTrims(i1, d, g);
  }

  lemma NoSplitInFirst(
      nodes: seq<real>, d: nat, c: Exps, f: PairFamily, k1: int, k2: int, j1: int, j2: int)
    requires HoldsTetrahedron(nodes, d) && AreContributions(nodes, d, c, f)
    requires k1 < 0 || k2 < 0 || j1 < 0 || j2 < 0 || d <= k1 || d <= k2 || d <= j1 || d <= j2
      || c.k < k1 + k2 || c.j < j1 + j2 || d <= c.k - k1 - k2 || d <= c.j - j1 - j2
    ensures FirstSum(d, f, k1, k2, j1, j2) == 0.0
  {
    forall i1, i2 | 0 <= i1 < d && 0 <= i2 < d
      ensures f(i1, j1, k1)(i2, j2, k2) == 0.0
    {
      NoSplit(nodes, d, c, f, Exps(i1, j1, k1), Exps(i2, j2, k2));
    }
    FirstIsZero(d, f, k1, k2, j1, j2);
  }

  /** Over the second exponent of the second factor. */
  method AddSecondJ(nodes: seq<real>, d: nat, c: Exps, k1: nat, k2: nat, j1: nat, before: real, ghost f: PairFamily)
    returns (sum: real)
    requires HoldsTetrahedron(nodes, d) && AreContributions(nodes, d, c, f) && k1 + k2 <= c.k && j1 <= c.j
    ensures sum == before + SecondSum(d, f, k1, k2, j1)
  {
    sum := before;
    ghost var g := SecondTerms(d, f, k1, k2, j1);
    var j2start := Max2(0, c.j - j1 - (d - 1));
    forall j: int | !(j2start <= j <= c.j - j1 && j < d)
      ensures g(j) == 0.0
    {
      NoSplitInFirst(nodes, d, c, f, k1, k2, j1, j);
    }
    SumStarts(g);
    SumTrims(0, j2start, g);
    var j2 := j2start;
    while j2 <= c.j - j1
      invariant j2start <= j2 <= Max2(j2start, c.j - j1 + 1)
      invariant sum == before + Sum(j2, g)
      decreases c.j - j1 - j2
    {
      SumGrows(j2, g);
      sum := AddFirstI(nodes, d, c, k1, k2, j1, j2, sum, f);
      j2 := j2 + 1;
    }
    SumTrims(j2, d, g);
  }

  /** Over the second exponent of the first factor. */
  method AddFirstJ(nodes: seq<real>, d: nat, c: Exps, k1: nat, k2: nat, before: real, ghost f: PairFamily)
    returns (sum: real)
    requires HoldsTetrahedron(nodes, d) && AreContributions(nodes, d, c, f) && k1 + k2 <= c.k && 0 <= c.j
    ensures sum == before + ThirdSum(d, f, k1, k2)
  {
    sum := before;
    ghost var g := ThirdTerms(d, f, k1, k2);
    forall j: int | !(0 <= j <= c.j && j < d)
      ensures g(j) == 0.0
    {
      forall j2 | 0 <= j2 < d
        ensures FirstSum(d, f, k1, k2, j, j2) == 0.0
      {
        NoSplitInFirst(nodes, d, c, f, k1, k2, j, j2);
      }
      SecondIsZero(d, f, k1, k2, j);
    }
    SumStarts(g);
    for j1 := 0 to c.j + 1
      invariant sum == before + Sum(j1, g)
    {
      SumGrows(j1, g);
      sum := AddSecondJ(nodes, d, c, k1, k2, j1, sum, f);
    }
    SumTrims(c.j + 1, d, g);
  }

  lemma NoSplitInThird(nodes: seq<real>, d: nat, c: Exps, f: PairFamily, k1: int, k2: int)
    requires HoldsTetrahedron(nodes, d) && AreContributions(nodes, d, c, f)
    requires k1 < 0 || k2 < 0 || d <= k1 || d <= k2 || c.k < k1 + k2 || d <= c.k - k1 - k2
    ensures ThirdSum(d, f, k1, k2) == 0.0
  {
    forall j1 | 0 <= j1 < d
      ensures SecondSum(d, f, k1, k2, j1) == 0.0
    {
      forall j2 | 0 <= j2 < d
        ensures FirstSum(d, f, k1, k2, j1, j2) == 0.0
      {
        NoSplitInFirst(nodes, d, c, f, k1, k2, j1, j2);
      }
      SecondIsZero(d, f, k1, k2, j1);
    }
    ThirdIsZero(d, f, k1, k2);
  }

  /** Over the third exponent of the second factor. */
  method AddSecondK(nodes: seq<real>, d: nat, c: Exps, k1: nat, before: real, ghost f: PairFamily) returns (sum: real)
    requires HoldsTetrahedron(nodes, d) && AreContributions(nodes, d, c, f) && k1 <= c.k && 0 <= c.j
    ensures sum == before + FourthSum(d, f, k1)
  {
    sum := before;
    ghost var g := FourthTerms(d, f, k1);
    var k2start := Max2(0, c.k - k1 - (d - 1));
    forall k: int | !(k2start <= k <= c.k - k1 && k < d)
      ensures g(k) == 0.0
    {
      NoSplitInThird(nodes, d, c, f, k1, k);
    }
    SumStarts(g);
    SumTrims(0, k2start, g);
    var k2 := k2start;
    while k2 <= c.k - k1
      invariant k2start <= k2 <= Max2(k2start, c.k - k1 + 1)
      invariant sum == before + Sum(k2, g)
      decreases c.k - k1 - k2
    {
      SumGrows(k2, g);
      sum := AddFirstJ(nodes, d, c, k1, k2, sum, f);
      k2 := k2 + 1;
    }
    SumTrims(k2, d, g);
  }

  /** All loops: every split once, and nothing else. */
  method AddAll(nodes: seq<real>, d: nat, c: Exps, ghost f: PairFamily) returns (sum: real)
    requires HoldsTetrahedron(nodes, d) && AreContributions(nodes, d, c, f) && 0 <= c.k && 0 <= c.j
    ensures sum == LoopSum(d, f)
  {
    sum := 0.0;
    ghost var g := FifthTerms(d, f);
    forall k: int | !(0 <= k <= c.k && k < d)
      ensures g(k) == 0.0
    {
      forall k2 | 0 <= k2 < d
        ensures ThirdSum(d, f, k, k2) == 0.0
      {
        NoSplitInThird(nodes, d, c, f, k, k2);
      }
      FourthIsZero(d, f, k);
    }
    SumStarts(g);
    for k1 := 0 to c.k + 1
      invariant sum == Sum(k1, g)
    {
      SumGrows(k1, g);
      sum := AddSecondK(nodes, d, c, k1, sum, f);
    }
    SumTrims(c.k + 1, d, g);
  }

  function Divided(sum: real, q: real, c: real): real
    requires c != 0.0
  {
    sum * q * q * q / c
  }

  /** `node` is the Bernstein coefficient for `c`: times its weight, it is the coefficient. */
  ghost predicate IsTetNode(nodes: seq<real>, p: nat, c: Exps, node: real)
    requires HoldsTetrahedron(nodes, p)
  {
    IsShareOf(node, Quadnomial(3 * (p - 1), c.i, c.j, c.k) as real, TetCoefficients(nodes, p)(c.i, c.j, c.k))
  }

  lemma Undivided(sum: real, q: real, c: real, node: real, s: real, whole: real)
    requires c != 0.0 && node == Divided(sum, q, c) && s == Cube(q) && whole == s * sum
    ensures IsShareOf(node, c, whole)
  {
    assert c * node == sum * q * q * q;
  }

  lemma LoopSumIsCoefficient(nodes: seq<real>, p: nat, c: Exps, sum: real)
    requires HoldsTetrahedron(nodes, p) && sum == LoopSum(p, Terms(nodes, p, c))
    ensures sum == SixProducts(nodes, p)(c.i, c.j, c.k)
  {
    var boxes := (i, j, k) => Box(p, Terms(nodes, p, c)(i, j, k));
    LoopsAddBoxes(p, Terms(nodes, p, c), boxes);
    TermsSum(nodes, p, c, boxes);
  }

  lemma NodeFromSum(nodes: seq<real>, p: nat, c: Exps, sum: real, q: real, cd: real, node: real)
    requires HoldsTetrahedron(nodes, p) && sum == SixProducts(nodes, p)(c.i, c.j, c.k)
    requires q == p as real && cd == Quadnomial(3 * (p - 1), c.i, c.j, c.k) as real
    requires cd != 0.0 && node == Divided(sum, q, cd)
    ensures IsTetNode(nodes, p, c, node)
  {
    var s, whole := Cube(q), TetCoefficients(nodes, p)(c.i, c.j, c.k);
    ScaledFrom(s, SixProducts(nodes, p), c.i, c.j, c.k, sum);
    Undivided(sum, q, cd, node, s, whole);
  }

  method Nijkl(nodes: seq<real>, d: nat, c: Exps) returns (node: real)
    requires HoldsTetrahedron(nodes, d) && InTetrahedron(3 * (d - 1), c.i, c.j, c.k)
    ensures IsTetNode(nodes, d, c, node)
  {
    TermsAreContributions(nodes, d, c);
    var sum := AddAll(nodes, d, c, Terms(nodes, d, c));
    LoopSumIsCoefficient(nodes, d, c, sum);
    var cd := Quadnomial(3 * (d - 1), c.i, c.j, c.k);
    QuadnomialIsPositive(3 * (d - 1), c.i, c.j, c.k);
    node := Divided(sum, d as real, cd as real);
    NodeFromSum(nodes, d, c, sum, d as real, cd as real, node);
  }

  /** A value and its coefficient have the same sign. */
  lemma SignOfNode(nodes: seq<real>, p: nat, c: Exps, node: real)
    requires HoldsTetrahedron(nodes, p) && InTetrahedron(3 * (p - 1), c.i, c.j, c.k) && IsTetNode(nodes, p, c, node)
    ensures 0.0 <= node <==> 0.0 <= TetCoefficients(nodes, p)(c.i, c.j, c.k)
  {
    QuadnomialIsPositive(3 * (p - 1), c.i, c.j, c.k);
    var whole := TetCoefficients(nodes, p)(c.i, c.j, c.k);
    SignOfProduct(Quadnomial(3 * (p - 1), c.i, c.j, c.k) as real, node, whole);
  }

  // ----- all values -----

  ghost predicate IsNodeAt(nodes: seq<real>, p: nat, dets: seq<real>, i: int, j: int, k: int)
    requires HoldsTetrahedron(nodes, p) && 2 <= p && InTetrahedron(3 * (p - 1), i, j, k)
    requires TetCount(3 * (p - 1)) <= |dets|
  {
    TetIndexInverts(3 * (p - 1), i, j, k);
    IsTetNode(nodes, p, Exps(i, j, k), dets[ComputeTetNodeIndex(3 * (p - 1), i, j, k)])
  }

  /** The values are at the places of their exponents. */
  ghost predicate HoldsNodes(nodes: seq<real>, p: nat, dets: seq<real>)
    requires HoldsTetrahedron(nodes, p) && 2 <= p
  {
    && TetCount(3 * (p - 1)) <= |dets|
    && forall i, j, k :: InTetrahedron(3 * (p - 1), i, j, k) ==> IsNodeAt(nodes, p, dets, i, j, k)
  }

  lemma NodeAt(
      elemNodes: seq<real>, p: nat, nodes: seq<real>, i: int, j: int, k: int, y: real, at: nat)
    requires HoldsTetrahedron(elemNodes, p) && 2 <= p && TetCount(3 * (p - 1)) <= |nodes|
    requires InTetrahedron(3 * (p - 1), i, j, k)
    requires at == ComputeTetNodeIndex(3 * (p - 1), i, j, k) && at < |nodes| && nodes[at] == y
    ensures IsNodeAt(elemNodes, p, nodes, i, j, k) <==> IsTetNode(elemNodes, p, Exps(i, j, k), y)
  {
  }

  lemma OtherNodeStays(
      elemNodes: seq<real>, p: nat, nodes: seq<real>, node: real, i: int, j: int, k: int, at: nat, other: nat)
    requires HoldsTetrahedron(elemNodes, p) && 2 <= p && TetCount(3 * (p - 1)) <= |nodes|
    requires InTetrahedron(3 * (p - 1), i, j, k)
    requires other == ComputeTetNodeIndex(3 * (p - 1), i, j, k) && other < |nodes| && at < |nodes| && other != at
    requires IsNodeAt(elemNodes, p, nodes, i, j, k)
    ensures IsNodeAt(elemNodes, p, nodes[at := node], i, j, k)
  {
    NodeAt(elemNodes, p, nodes, i, j, k, nodes[other], other);
    NodeAt(elemNodes, p, nodes[at := node], i, j, k, nodes[other], other);
  }

  lemma IndicesDiffer(n: nat, a: Exps, b: Exps)
    requires 1 <= n && InTetrahedron(n, a.i, a.j, a.k) && InTetrahedron(n, b.i, b.j, b.k) && a != b
    ensures ComputeTetNodeIndex(n, a.i, a.j, a.k) != ComputeTetNodeIndex(n, b.i, b.j, b.k)
  {
    TetIndexInverts(n, a.i, a.j, a.k);
    TetIndexInverts(n, b.i, b.j, b.k);
  }

  predicate IsBefore(i: int, j: int, k: int, c: Exps) {
    i < c.i || (i == c.i && (j < c.j || (j == c.j && k < c.k)))
  }

  /** The values for the exponents before `c`, in the order of the loops, are in their places. */
  ghost predicate HoldsNodesBefore(elemNodes: seq<real>, p: nat, nodes: seq<real>, c: Exps)
    requires HoldsTetrahedron(elemNodes, p) && 2 <= p && TetCount(3 * (p - 1)) <= |nodes|
  {
    forall i, j, k :: InTetrahedron(3 * (p - 1), i, j, k) && IsBefore(i, j, k, c) ==>
      IsNodeAt(elemNodes, p, nodes, i, j, k)
  }

  lemma OneMoreNode(
      elemNodes: seq<real>, p: nat, nodes: seq<real>, c: Exps, node: real, at: nat, n: nat)
    requires HoldsTetrahedron(elemNodes, p) && 2 <= p && n == 3 * (p - 1) && TetCount(n) <= |nodes|
    requires InTetrahedron(n, c.i, c.j, c.k) && IsTetNode(elemNodes, p, c, node)
    requires at == ComputeTetNodeIndex(n, c.i, c.j, c.k) && at < |nodes|
    requires HoldsNodesBefore(elemNodes, p, nodes, c)
    ensures HoldsNodesBefore(elemNodes, p, nodes[at := node], Exps(c.i, c.j, c.k + 1))
  {
    forall i, j, k | InTetrahedron(n, i, j, k) && IsBefore(i, j, k, Exps(c.i, c.j, c.k + 1))
      ensures IsNodeAt(elemNodes, p, nodes[at := node], i, j, k)
    {
      if IsBefore(i, j, k, c) {
        IndicesDiffer(n, Exps(i, j, k), c);
        TetIndexInverts(n, i, j, k);
        OtherNodeStays(elemNodes, p, nodes, node, i, j, k, at, ComputeTetNodeIndex(n, i, j, k));
      } else {
        NodeAt(elemNodes, p, nodes[at := node], i, j, k, node, at);
      }
    }
  }

  method GetTetJacDetNodes(p: nat, size: nat, elemNodes: seq<real>) returns (nodes: seq<real>)
    requires 2 <= p && HoldsTetrahedron(elemNodes, p) && TetCount(3 * (p - 1)) <= size
    ensures |nodes| == size && HoldsNodes(elemNodes, p, nodes)
  {
    var n := 3 * (p - 1);
    nodes := seq(size, _ => 0.0);
    for i := 0 to n + 1
      invariant |nodes| == size && HoldsNodesBefore(elemNodes, p, nodes, Exps(i, 0, 0))
    {
      for j := 0 to n - i + 1
        invariant |nodes| == size && HoldsNodesBefore(elemNodes, p, nodes, Exps(i, j, 0))
      {
        for k := 0 to n - i - j + 1
          invariant |nodes| == size && HoldsNodesBefore(elemNodes, p, nodes, Exps(i, j, k))
        {
          var c := Exps(i, j, k);
          var node := Nijkl(elemNodes, p, c);
          TetIndexInverts(n, i, j, k);
          var at := ComputeTetNodeIndex(n, i, j, k);
          OneMoreNode(elemNodes, p, nodes, c, node, at, n);
          nodes := nodes[at := node];
        }
      }
    }
  }

  // ----- the check -----

  /** Which group of values, by what the check returns, place `x` belongs to. */
  predicate IsPlaceOf(n: nat, code: int, x: int) {
    || (2 <= code <= 5 && x == code - 2)
    || (8 <= code <= 13 && 4 + (code - 8) * (n - 1) <= x < 4 + (code - 7) * (n - 1))
    || (14 <= code <= 17
        && 4 + 6 * (n - 1) + (code - 14) * Pairs(n - 1) <= x < 4 + 6 * (n - 1) + (code - 13) * Pairs(n - 1))
    || (code == 20 && 4 + 6 * (n - 1) + 4 * Pairs(n - 1) <= x < TetCount(n))
  }

  lemma SquareOf(order: int, n: int)
    requires n == 3 * (order - 1)
    ensures 18 * order * order - 36 * order + 20 == 2 * n * n + 2
  {
    assert n * n == 9 * (order * order) - 18 * order + 9;
    assert 2 * n * n == 2 * (n * n);
    assert 18 * order * order == 18 * (order * order);
  }

  lemma CubeOf(a: int, b: int, c: int, n: int)
    requires a == n - 1 && b == n - 2 && c == n - 3
    ensures a * b == (n - 1) * (n - 2) && a * b * c == (n - 1) * (n - 2) * (n - 3)
  {
  }

  /** The numbers of values inside a face and inside the element, and where those of the element start. */
  lemma Sizes(order: nat, n: nat)
    requires 2 <= order && n == 3 * (order - 1)
    ensures Quotient((3 * order - 4) * (3 * order - 5), 2) == Pairs(n - 1)
    ensures 18 * order * order - 36 * order + 20 == 4 + 6 * (n - 1) + 4 * Pairs(n - 1)
    ensures Quotient((3 * order - 4) * (3 * order - 5) * (3 * order - 6), 6) == Triples(n - 1)
  {
    PairsClosed(n - 1);
    TriplesClosed(n - 1);
    InsideStart(n);
    SquareOf(order, n);
    CubeOf(3 * order - 4, 3 * order - 5, 3 * order - 6, n);
  }

  /** No value before `x`, starting at `lo`, is negative, but the one at `x` is. */
  ghost predicate IsFirstNegative(nodes: seq<real>, lo: nat, x: int)
    requires lo <= x < |nodes|
  {
    nodes[x] < 0.0 && forall y :: lo <= y < x ==> 0.0 <= nodes[y]
  }

  /** One of the inner loops: the first of `size` values that is below zero, or -1. */
  method FirstNegative(nodes: seq<real>, start: nat, size: int) returns (at: int)
    requires 0 <= size && start + size <= |nodes|
    ensures at == -1 ==> forall x :: start <= x < start + size ==> 0.0 <= nodes[x]
    ensures at != -1 ==> start <= at < start + size && IsFirstNegative(nodes, start, at)
  {
    var minAcceptable := 0.0;
    var i := 0;
    while i < size
      invariant 0 <= i <= size && forall x :: start <= x < start + i ==> 0.0 <= nodes[x]
      decreases size - i
    {
      if nodes[start + i] < minAcceptable {
        return start + i;
      }
      i := i + 1;
    }
    return -1;
  }

  /** Between places `lo` and `hi` no value is negative, or `code` tells of the first that is. */
  ghost predicate IsVerdict(nodes: seq<real>, n: nat, code: int, lo: int, hi: int)
    requires 0 <= lo && hi <= |nodes|
  {
    if code == -1 then forall x :: lo <= x < hi ==> 0.0 <= nodes[x]
    else exists x :: lo <= x < hi && IsFirstNegative(nodes, lo, x) && IsPlaceOf(n, code, x)
  }

  method CheckEdges(nodes: seq<real>, order: nat, ghost n: nat) returns (code: int)
    requires 2 <= order && n == 3 * (order - 1) && TetCount(n) <= |nodes|
    ensures IsVerdict(nodes, n, code, 4, 4 + 6 * (n - 1))
  {
    for edge := 0 to 6
      invariant forall x :: 4 <= x < 4 + edge * (n - 1) ==> 0.0 <= nodes[x]
    {
      var at := FirstNegative(nodes, 4 + edge * (3 * (order - 1) - 1), 3 * (order - 1) - 1);
      if at != -1 {
        assert IsPlaceOf(n, 8 + edge, at);
        return 8 + edge;
      }
    }
    return -1;
  }

  method CheckFaces(nodes: seq<real>, order: nat, ghost n: nat) returns (code: int)
    requires 2 <= order && n == 3 * (order - 1) && TetCount(n) <= |nodes|
    ensures IsVerdict(nodes, n, code, 4 + 6 * (n - 1), 4 + 6 * (n - 1) + 4 * Pairs(n - 1))
  {
    Sizes(order, n);
    var faceSize := Quotient((3 * order - 4) * (3 * order - 5), 2);
    for face := 0 to 4
      invariant forall x :: 4 + 6 * (n - 1) <= x < 4 + 6 * (n - 1) + face * faceSize ==> 0.0 <= nodes[x]
    {
      var at := FirstNegative(nodes, 18 * order - 20 + face * faceSize, faceSize);
      if at != -1 {
        assert IsPlaceOf(n, 14 + face, at);
        return 14 + face;
      }
    }
    return -1;
  }

  method CheckInside(nodes: seq<real>, order: nat, ghost n: nat) returns (code: int)
    requires 2 <= order && n == 3 * (order - 1) && TetCount(n) <= |nodes|
    ensures IsVerdict(nodes, n, code, 4 + 6 * (n - 1) + 4 * Pairs(n - 1), TetCount(n))
  {
    Sizes(order, n);
    var at := FirstNegative(nodes, 18 * order * order - 36 * order + 20,
                            Quotient((3 * order - 4) * (3 * order - 5) * (3 * order - 6), 6));
    if at != -1 {
      assert IsPlaceOf(n, 20, at);
      return 20;
    }
    return -1;
  }

  method CheckMinJacDet3d(nodes: seq<real>, order: nat, vertsOnly: int) returns (code: int)
    requires 2 <= order && TetCount(3 * (order - 1)) <= |nodes|
    ensures vertsOnly == -1 ==> IsVerdict(nodes, 3 * (order - 1), code, 0, TetCount(3 * (order - 1)))
    ensures vertsOnly != -1 ==> IsVerdict(nodes, 3 * (order - 1), code, 0, 4)
  {
    ghost var n := 3 * (order - 1);
    for i := 0 to 4
      invariant forall x :: 0 <= x < i ==> 0.0 <= nodes[x]
    {
      if nodes[i] < 0.0 {
        assert IsPlaceOf(n, i + 2, i);
        return i + 2;
      }
    }
    if vertsOnly == -1 {
      code := CheckEdges(nodes, order, n);
      if code != -1 {
        return;
      }
      code := CheckFaces(nodes, order, n);
      if code != -1 {
        return;
      }
      code := CheckInside(nodes, order, n);
      return;
    }
    return -1;
  }

  /** The code for a coefficient: 2 to 5 at the corners, 8 to 13 on the edges from the first corner to the second, to
      the third and back, and from the three to the fourth, 14 to 17 on the faces without the fourth, the third, the
      first and the second corner, 20 inside. */
  function GroupOf(n: int, i: int, j: int, k: int): int {
    var l := n - i - j - k;
    if i == n then 2 else if j == n then 3 else if k == n then 4 else if l == n then 5
    else if k == 0 && l == 0 then 8 else if i == 0 && l == 0 then 9 else if j == 0 && l == 0 then 10
    else if j == 0 && k == 0 then 11 else if i == 0 && k == 0 then 12 else if i == 0 && j == 0 then 13
    else if l == 0 then 14 else if k == 0 then 15 else if i == 0 then 16 else if j == 0 then 17 else 20
  }

  ghost predicate IsNegativeIn(c: Coefficients, n: int, code: int, i: int, j: int, k: int) {
    InTetrahedron(n, i, j, k) && GroupOf(n, i, j, k) == code && c(i, j, k) < 0.0
  }

  ghost predicate IsInOneOf(n: int, groups: int, i: int, j: int, k: int) {
    InTetrahedron(n, i, j, k) && GroupOf(n, i, j, k) <= groups
  }

  /** Up to the last of the groups no coefficient is negative, or `code` is the first group with a negative one. */
  ghost predicate IsFirstBadGroup(c: Coefficients, n: int, groups: int, code: int) {
    && (code == -1 <==> forall i, j, k :: IsInOneOf(n, groups, i, j, k) ==> 0.0 <= c(i, j, k))
    && (code != -1 ==>
          && 2 <= code <= groups && (exists i, j, k :: IsNegativeIn(c, n, code, i, j, k))
          && forall i, j, k :: IsInOneOf(n, code - 1, i, j, k) ==> 0.0 <= c(i, j, k))
  }

  /** The check of one tetrahedron, of all groups or of the corners: it tells the first group of coefficients with a
      negative one, and in the full mode it accepts the tetrahedron only if the determinant is nowhere negative. */
  method CheckTetrahedron(order: nat, size: nat, points: seq<real>, vertsOnly: int) returns (code: int)
    requires 2 <= order && HoldsTetrahedron(points, order) && TetCount(3 * (order - 1)) <= size
    ensures IsFirstBadGroup(TetCoefficients(points, order), 3 * (order - 1), if vertsOnly == -1 then 20 else 5, code)
    ensures code == -1 && vertsOnly == -1 ==>
      forall x: Point :: x.IsNotNegative() ==> 0.0 <= TetJacobian(points, order, x)
  {
    ghost var n := 3 * (order - 1);
    var nodes := GetTetJacDetNodes(order, size, points);
    code := CheckMinJacDet3d(nodes, order, vertsOnly);
    VerdictIsOnCoefficients(
      points, order, nodes, n, code, if vertsOnly == -1 then 20 else 5, if vertsOnly == -1 then TetCount(n) else 4);
    if code == -1 && vertsOnly == -1 {
      forall i, j, k | InTetrahedron(n, i, j, k)
        ensures 0.0 <= TetCoefficients(points, order)(i, j, k)
      {
        assert IsInOneOf(n, 20, i, j, k);
      }
      forall x: Point | x.IsNotNegative()
        ensures 0.0 <= TetJacobian(points, order, x)
      {
        ValidTetrahedron(points, order, x, n);
      }
    }
  }

  lemma PlaceOfIndex(n: nat, i: int, j: int, k: int)
    requires 1 <= n && InTetrahedron(n, i, j, k)
    ensures IsPlaceOf(n, GroupOf(n, i, j, k), ComputeTetNodeIndex(n, i, j, k))
  {
    hide Quotient, Pairs, Triples, FindRow, DecodeTetFace, DecodeTetInside;
    if IsInside(n, i, j, k) {
      hide ComputeTetNodeIndex;
      TetInsideInverts(n, i, j, k);
    } else if IsOnFace(n, i, j, k) {
      FaceIsPlace(n, i, j, k);
    }
  }

  lemma FaceIsPlace(n: nat, i: int, j: int, k: int)
    requires IsOnFace(n, i, j, k)
    ensures IsPlaceOf(n, GroupOf(n, i, j, k), ComputeTetNodeIndex(n, i, j, k))
  {
    hide ComputeTetNodeIndex, Pairs, FindRow, RowStart;
    var l := n - i - j - k;
    FaceFormula(n, i, j, k);
    if l == 0 {
      RowInvertsFind(n - 2, k, j);
    } else if k == 0 {
      RowInvertsFind(n - 2, l, j);
    } else {
      RowInvertsFind(n - 2, l, k);
    }
  }

  predicate IsCode(code: int) {
    2 <= code <= 5 || 8 <= code <= 17 || code == 20
  }

  function NextCode(code: int): int {
    if code == 5 then 8 else if code == 17 then 20 else code + 1
  }

  /** Where a group starts, if an edge has `b` values inside and a face has `a`. */
  function GroupStart(a: nat, b: nat, code: int): int {
    if code <= 5 then code - 2
    else if code == 8 then 4 else if code == 9 then 4 + b else if code == 10 then 4 + 2 * b
    else if code == 11 then 4 + 3 * b else if code == 12 then 4 + 4 * b else if code == 13 then 4 + 5 * b
    else if code == 14 then 4 + 6 * b else if code == 15 then 4 + 6 * b + a else if code == 16 then 4 + 6 * b + 2 * a
    else if code == 17 then 4 + 6 * b + 3 * a else 4 + 6 * b + 4 * a
  }

  lemma {:induction false} PlaceIsBetween(n: nat, code: int, x: int)
    requires 1 <= n && IsPlaceOf(n, code, x)
    ensures IsCode(code) && GroupStart(Pairs(n - 1), n - 1, code) <= x
    ensures code != 20 ==> x < GroupStart(Pairs(n - 1), n - 1, NextCode(code))
  {
    hide Pairs, Triples;
  }

  lemma StartsGrow(a: nat, b: nat, other: int, code: int)
    requires IsCode(other) && IsCode(code) && other < code
    ensures GroupStart(a, b, NextCode(other)) <= GroupStart(a, b, code)
  {
  }

  /** The groups follow each other. */
  lemma PlacesAreInOrder(n: nat, code: int, x: int, other: int, y: int)
    requires 1 <= n && IsPlaceOf(n, code, x) && IsPlaceOf(n, other, y)
    ensures other < code ==> y < x
    ensures x == y ==> other == code
  {
    hide Pairs, IsPlaceOf, GroupStart;
    PlaceIsBetween(n, code, x);
    PlaceIsBetween(n, other, y);
    if other < code {
      StartsGrow(Pairs(n - 1), n - 1, other, code);
    } else if code < other {
      StartsGrow(Pairs(n - 1), n - 1, code, other);
    }
  }

  lemma SignAndPlace(points: seq<real>, p: nat, nodes: seq<real>, i: int, j: int, k: int, n: nat) returns (x: nat)
    requires 2 <= p && HoldsTetrahedron(points, p) && HoldsNodes(points, p, nodes) && n == 3 * (p - 1)
    requires InTetrahedron(n, i, j, k)
    ensures x == ComputeTetNodeIndex(n, i, j, k) && x < TetCount(n) && IsPlaceOf(n, GroupOf(n, i, j, k), x)
    ensures x < |nodes| && (0.0 <= nodes[x] <==> 0.0 <= TetCoefficients(points, p)(i, j, k))
  {
    hide ComputeTetNodeIndex, GroupOf, IsPlaceOf, TetCoefficients;
    NodeHasSign(points, p, nodes, i, j, k, n);
    PlaceOfIndex(n, i, j, k);
    x := ComputeTetNodeIndex(n, i, j, k);
  }

  lemma PlaceIsInReach(n: nat, code: int, x: int, groups: int, hi: int)
    requires 3 <= n && IsPlaceOf(n, code, x) && x < TetCount(n)
    requires (groups == 20 && hi == TetCount(n)) || (groups == 5 && hi == 4)
    ensures 2 <= code && (code <= groups <==> x < hi)
  {
    hide Pairs, Triples, TetCount;
    PlaceIsBetween(n, code, x);
  }

  lemma VerdictIsOnCoefficients(
      points: seq<real>, p: nat, nodes: seq<real>, n: nat, code: int, groups: int, hi: int)
    requires 2 <= p && HoldsTetrahedron(points, p) && HoldsNodes(points, p, nodes) && n == 3 * (p - 1)
    requires (groups == 20 && hi == TetCount(n)) || (groups == 5 && hi == 4)
    requires hi <= |nodes| && IsVerdict(nodes, n, code, 0, hi)
    ensures IsFirstBadGroup(TetCoefficients(points, p), n, groups, code)
  {
    hide ComputeTetNodeIndex, GroupOf, TetCoefficients, IsPlaceOf, HoldsNodes, TetCount, HoldsTetrahedron, DecodeTet;
    var c := TetCoefficients(points, p);
    if code == -1 {
      forall i, j, k | IsInOneOf(n, groups, i, j, k)
        ensures 0.0 <= c(i, j, k)
      {
        var y := SignAndPlace(points, p, nodes, i, j, k, n);
        PlaceIsInReach(n, GroupOf(n, i, j, k), y, groups, hi);
      }
    } else {
      var x: nat :| x < hi && IsFirstNegative(nodes, 0, x) && IsPlaceOf(n, code, x);
      BadPlaceIsBadGroup(points, p, nodes, n, code, groups, hi, x);
    }
  }

  lemma GroupHasNegative(points: seq<real>, p: nat, nodes: seq<real>, n: nat, code: int, groups: int, x: nat)
    requires 2 <= p && HoldsTetrahedron(points, p) && HoldsNodes(points, p, nodes) && n == 3 * (p - 1)
    requires x < TetCount(n) && nodes[x] < 0.0 && IsPlaceOf(n, code, x) && code <= groups
    ensures exists i, j, k ::
      IsNegativeIn(TetCoefficients(points, p), n, code, i, j, k) && IsInOneOf(n, groups, i, j, k)
  {
    hide ComputeTetNodeIndex, GroupOf, TetCoefficients, IsPlaceOf, HoldsNodes, TetCount, HoldsTetrahedron, DecodeTet;
    TetDecodeInverts(n, x);
    var (i, j, k) := DecodeTet(n, x);
    var at := SignAndPlace(points, p, nodes, i, j, k, n);
    PlacesAreInOrder(n, code, x, GroupOf(n, i, j, k), x);
    assert IsNegativeIn(TetCoefficients(points, p), n, code, i, j, k) && IsInOneOf(n, groups, i, j, k);
  }

  lemma BadPlaceIsBadGroup(
      points: seq<real>, p: nat, nodes: seq<real>, n: nat, code: int, groups: int, hi: int, x: nat)
    requires 2 <= p && HoldsTetrahedron(points, p) && HoldsNodes(points, p, nodes) && n == 3 * (p - 1)
    requires (groups == 20 && hi == TetCount(n)) || (groups == 5 && hi == 4)
    requires code != -1 && x < hi <= |nodes| && IsFirstNegative(nodes, 0, x) && IsPlaceOf(n, code, x)
    ensures IsFirstBadGroup(TetCoefficients(points, p), n, groups, code)
  {
    assert 4 <= TetCount(n);
    hide ComputeTetNodeIndex, GroupOf, TetCoefficients, IsPlaceOf, HoldsNodes, TetCount, HoldsTetrahedron;
    var c := TetCoefficients(points, p);
    PlaceIsInReach(n, code, x, groups, hi);
    GroupHasNegative(points, p, nodes, n, code, groups, x);
    forall i, j, k | IsInOneOf(n, code - 1, i, j, k)
      ensures 0.0 <= c(i, j, k)
    {
      var y := SignAndPlace(points, p, nodes, i, j, k, n);
      PlacesAreInOrder(n, code, x, GroupOf(n, i, j, k), y);
    }
  }

  lemma NodeHasSign(points: seq<real>, p: nat, nodes: seq<real>, i: int, j: int, k: int, n: nat)
    requires 2 <= p && HoldsTetrahedron(points, p) && HoldsNodes(points, p, nodes) && n == 3 * (p - 1)
    requires InTetrahedron(n, i, j, k)
    ensures 0 <= ComputeTetNodeIndex(n, i, j, k) < TetCount(n)
    ensures 0.0 <= nodes[ComputeTetNodeIndex(n, i, j, k)] <==> 0.0 <= TetCoefficients(points, p)(i, j, k)
  {
    TetIndexInverts(n, i, j, k);
    assert IsNodeAt(points, p, nodes, i, j, k);
    SignOfNode(points, p, Exps(i, j, k), nodes[ComputeTetNodeIndex(n, i, j, k)]);
  }
}
