/** The numbering of control points of triangles and tetrahedra (`computeTriNodeIndex`,
    `computeTetNodeIndex`): vertices first, then the insides of the edges, of the faces and of the
    element. It is one to one onto the numbers below the count of points. */
module NodeNumbering {

  /** Integer division that rounds toward zero. */
  function Quotient(a: int, b: int): int
    requires 0 < b
  {
    if 0 <= a then a / b else -(-a / b)
  }

  function Max2(a: int, b: int): int {
    if a < b then b else a
  }

  function Min2(a: int, b: int): int {
    if a < b then a else b
  }

  function ComputeTriNodeIndex(p: int, i: int, j: int): int {
    var k := p - i - j;
    if i == p then 0
    else if j == p then 1
    else if k == p then 2
    else if k == 0 then 2 + j
    else if i == 0 then 2 + (p - 1) + k
    else if j == 0 then 2 + (p - 1) * 2 + i
    else k * (p - 1) - Quotient(k * (k - 1), 2) + j + 2 * p
  }

  function ComputeTetNodeIndex(p: int, i: int, j: int, k: int): int {
    var l := p - i - j - k;
    if i == p then 0
    else if j == p then 1
    else if k == p then 2
    else if l == p then 3
    else if k == 0 && l == 0 then 3 + j
    else if i == 0 && l == 0 then 3 + (p - 1) + k
    else if j == 0 && l == 0 then 3 + 2 * (p - 1) + i
    else if j == 0 && k == 0 then 3 + 3 * (p - 1) + l
    else if i == 0 && k == 0 then 3 + 4 * (p - 1) + l
    else if i == 0 && j == 0 then 3 + 5 * (p - 1) + l
    else if l == 0 then k * (p - 1) - Quotient(k * (k - 1), 2) + j + 5 * p - 2
    else if k == 0 then
      l * (p - 1) - Quotient(l * (l - 1), 2) + j + 5 * p - 2 + Quotient((p - 2) * (p - 1), 2)
    else if i == 0 then l * (p - 1) - Quotient(l * (l - 1), 2) + k + 5 * p - 2 + (p - 2) * (p - 1)
    else if j == 0 then
      l * (p - 1) - Quotient(l * (l - 1), 2) + k + 5 * p - 2 + Quotient((p - 2) * (p - 1) * 3, 2)
    else
      i - p - Quotient((i - p + 1) * (i - p + 2) * (i - p + 3), 6)
      + l * (p - 1 - i) - Quotient(l * (l - 1), 2) + k + 2 * p * p + 2
  }

  predicate InTriangle(p: int, i: int, j: int) {
    0 <= i && 0 <= j && i + j <= p
  }

  predicate InTetrahedron(p: int, i: int, j: int, k: int) {
    0 <= i && 0 <= j && 0 <= k && i + j + k <= p
  }

  // ----- triangular and tetrahedral numbers -----

  /** The number of pairs out of `n`. */
  function Pairs(n: int): nat
    decreases if 0 <= n then n else 0
  {
    if n <= 1 then 0 else Pairs(n - 1) + (n - 1)
  }

  /** The number of triples out of `n`. */
  function Triples(n: int): nat
    decreases if 0 <= n then n else 0
  {
    if n <= 1 then 0 else Triples(n - 1) + Pairs(n - 1)
  }

  lemma {:induction false} PairsClosed(n: nat)
    ensures n * (n - 1) == 2 * Pairs(n)
    ensures Quotient(n * (n - 1), 2) == Pairs(n)
  {
    if n > 1 {
      PairsClosed(n - 1);
      assert n * (n - 1) == (n - 1) * (n - 2) + 2 * (n - 1);
    }
  }

  lemma {:induction false} TriplesClosed(n: nat)
    ensures n * (n - 1) * (n - 2) == 6 * Triples(n)
    ensures Quotient(-(n * (n - 1) * (n - 2)), 6) == 0 - Triples(n)
  {
    if n > 1 {
      TriplesClosed(n - 1);
      PairsClosed(n - 1);
      CubeSteps(n);
    }
  }

  lemma CubeSteps(n: int)
    ensures n * (n - 1) * (n - 2) == (n - 1) * (n - 2) * (n - 3) + 3 * ((n - 1) * (n - 2))
  {
    var m := (n - 1) * (n - 2);
    assert n * (n - 1) * (n - 2) == n * m;
    assert (n - 1) * (n - 2) * (n - 3) == m * (n - 3);
  }

  // ----- rows of a triangle -----

  /** Where row `r`, counted from 1, starts, if the rows have `length`, `length - 1`, ... places. */
  function RowStart(length: int, r: int): int
    decreases if 0 <= r then r else 0
  {
    if r <= 1 then 0 else length + RowStart(length - 1, r - 1)
  }

  lemma {:induction false} RowStartClosed(length: int, r: nat)
    requires 1 <= r
    ensures RowStart(length, r) == (r - 1) * length - Pairs(r - 1)
    decreases r
  {
    if r > 1 {
      RowStartClosed(length - 1, r - 1);
      assert (r - 2) * (length - 1) == (r - 2) * length - (r - 2);
      assert (r - 1) * length == (r - 2) * length + length;
    }
  }

  /** The place of column `c` in row `r`, counting all points, is found from a triangular number. */
  lemma RowFormula(p: int, r: nat, c: int)
    requires 1 <= r
    ensures r * (p - 1) - Quotient(r * (r - 1), 2) + c == p + RowStart(p - 2, r) + (c - 1)
  {
    RowStartClosed(p - 2, r);
    PairsClosed(r);
    assert r * (p - 1) == (r - 1) * (p - 2) + (r - 1) + (p - 1);
  }

  /** The row and the column, counted from 1, of place `y`. */
  function FindRow(length: nat, y: nat): (int, int)
    decreases length
  {
    if y < length || length == 0 then (1, y + 1)
    else var (r, c) := FindRow(length - 1, y - length); (r + 1, c)
  }

  predicate InRows(length: int, r: int, c: int) {
    1 <= r && 1 <= c && r + c <= length + 1
  }

  lemma {:induction false} FindRowInverts(length: nat, y: nat)
    requires y < Pairs(length + 1)
    ensures var (r, c) := FindRow(length, y); InRows(length, r, c) && RowStart(length, r) + (c - 1) == y
    decreases length
  {
    if length <= y {
      FindRowInverts(length - 1, y - length);
    }
  }

  lemma {:induction false} RowInvertsFind(length: nat, r: int, c: int)
    requires InRows(length, r, c)
    ensures 0 <= RowStart(length, r) + (c - 1) < Pairs(length + 1)
    ensures FindRow(length, RowStart(length, r) + (c - 1)) == (r, c)
    decreases length
  {
    if r > 1 {
      RowInvertsFind(length - 1, r - 1, c);
    } else {
      assert Pairs(length + 1) == Pairs(length) + length;
    }
  }

  // ----- triangles -----

  function TriCount(p: int): int {
    3 + 3 * (p - 1) + Pairs(p - 1)
  }

  lemma TriCountClosed(p: nat)
    requires 1 <= p
    ensures (p + 1) * (p + 2) == 2 * TriCount(p)
  {
    PairsClosed(p - 1);
    assert (p + 1) * (p + 2) == (p - 1) * (p - 2) + 6 * p;
  }

  /** The exponents of control point number `x`. */
  function DecodeTri(p: nat, x: nat): (int, int)
    requires 1 <= p
  {
    var n := p - 1;
    if x == 0 then (p, 0)
    else if x == 1 then (0, p)
    else if x == 2 then (0, 0)
    else if x < 3 + n then (p - (x - 2), x - 2)
    else if x < 3 + 2 * n then (0, p - (x - 2 - n))
    else if x < 3 + 3 * n then (x - 2 - 2 * n, 0)
    else if p < 2 then (0, 0)
    else var (k, j) := FindRow(p - 2, x - 3 - 3 * n); (p - k - j, j)
  }

  lemma TriIndexInverts(p: nat, i: int, j: int)
    requires 1 <= p && InTriangle(p, i, j)
    ensures 0 <= ComputeTriNodeIndex(p, i, j) < TriCount(p)
    ensures DecodeTri(p, ComputeTriNodeIndex(p, i, j)) == (i, j)
  {
    var k := p - i - j;
    if 0 < i && 0 < j && 0 < k {
      RowFormula(p, k, j);
      RowInvertsFind(p - 2, k, j);
    }
  }

  lemma TriDecodeInverts(p: nat, x: nat)
    requires 1 <= p && x < TriCount(p)
    ensures var (i, j) := DecodeTri(p, x); InTriangle(p, i, j) && ComputeTriNodeIndex(p, i, j) == x
  {
    if 3 + 3 * (p - 1) <= x {
      FindRowInverts(p - 2, x - 3 * p);
      var (k, j) := FindRow(p - 2, x - 3 * p);
      RowFormula(p, k, j);
    }
  }

  // ----- tetrahedra -----

  function TetCount(p: int): int {
    4 + 6 * (p - 1) + 4 * Pairs(p - 1) + Triples(p - 1)
  }

  lemma CubicIdentity(a: int)
    ensures (a + 2) * (a + 3) * (a + 4) == 24 + 36 * a + 12 * (a * (a - 1)) + a * (a - 1) * (a - 2)
  {
    var s := a * a;
    assert (a + 2) * (a + 3) == s + 5 * a + 6;
    assert (s + 5 * a + 6) * (a + 4) == s * a + 9 * s + 26 * a + 24;
    assert a * (a - 1) == s - a;
    assert (s - a) * (a - 2) == s * a - 3 * s + 2 * a;
  }

  lemma TetCountClosed(p: nat)
    requires 1 <= p
    ensures (p + 1) * (p + 2) * (p + 3) == 6 * TetCount(p)
  {
    PairsClosed(p - 1);
    TriplesClosed(p - 1);
    CubicIdentity(p - 1);
  }

  /** The slice, by its number `q` >= 3, and the place in it, of inner point `y`. */
  function FindSlice(q: nat, y: nat): (int, nat)
    decreases y
  {
    if y < Pairs(q - 1) || Pairs(q - 1) == 0 then (q, y) else FindSlice(q + 1, y - Pairs(q - 1))
  }

  lemma {:induction false} PairsArePositive(n: int)
    requires 2 <= n
    ensures 0 < Pairs(n)
  {
  }

  lemma {:induction false} TriplesGrow(m: int, n: int)
    requires 1 <= m <= n
    ensures Triples(m) <= Triples(n)
    decreases n
  {
    if m < n {
      TriplesGrow(m, n - 1);
    }
  }

  lemma FindSliceInverts(q: nat, y: nat, p: nat)
    requires 3 <= q && Triples(q - 1) + y < Triples(p - 1)
    ensures var (s, z) := FindSlice(q, y); q <= s < p && z < Pairs(s - 1) && Triples(s - 1) + z == Triples(q - 1) + y
    decreases y
  {
    PairsArePositive(q - 1);
    if p <= q {
      TriplesGrowAll(p - 1, q - 1);
    } else if Pairs(q - 1) <= y {
      FindSliceInverts(q + 1, y - Pairs(q - 1), p);
    }
  }

  lemma {:induction false} TriplesGrowAll(m: int, n: int)
    requires m <= n
    ensures Triples(m) <= Triples(n)
  {
    if 1 <= m {
      TriplesGrow(m, n);
    }
  }

  lemma SliceInvertsFind(q: nat, s: nat, z: nat)
    requires 3 <= q <= s && z < Pairs(s - 1)
    ensures Triples(q - 1) <= Triples(s - 1)
    ensures FindSlice(q, Triples(s - 1) - Triples(q - 1) + z) == (s, z)
    decreases s - q
  {
    PairsArePositive(q - 1);
    if q < s {
      SliceInvertsFind(q + 1, s, z);
    }
  }

  /** The exponents of control point number `x`. */
  function DecodeTet(p: nat, x: nat): (int, int, int)
    requires 1 <= p
  {
    var n := p - 1;
    if x == 0 then (p, 0, 0)
    else if x == 1 then (0, p, 0)
    else if x == 2 then (0, 0, p)
    else if x == 3 then (0, 0, 0)
    else if x < 4 + 6 * n then DecodeTetEdge(p, x - 3)
    else if x < 4 + 6 * n + 4 * Pairs(n) && 2 <= p then DecodeTetFace(p, x - 4 - 6 * n)
    else if x < 4 + 6 * n + 4 * Pairs(n) then (0, 0, 0)
    else DecodeTetInside(p, x - (4 + 6 * n + 4 * Pairs(n)))
  }

  function DecodeTetInside(p: nat, y: nat): (int, int, int) {
    var (q, z) := FindSlice(3, y);
    if q < 2 then (0, 0, 0)
    else
      var (l, k) := FindRow(q - 2, z);
      (p - q, q - l - k, k)
  }

  function DecodeTetEdge(p: nat, t: nat): (int, int, int)
    requires 1 <= p
  {
    var n := p - 1;
    if t <= n then (p - t, t, 0)
    else if t <= 2 * n then (0, p - (t - n), t - n)
    else if t <= 3 * n then (t - 2 * n, 0, p - (t - 2 * n))
    else if t <= 4 * n then (p - (t - 3 * n), 0, 0)
    else if t <= 5 * n then (0, p - (t - 4 * n), 0)
    else (0, 0, p - (t - 5 * n))
  }

  function DecodeTetFace(p: nat, y: nat): (int, int, int)
    requires 2 <= p
  {
    var size := Pairs(p - 1);
    if y < size then var (k, j) := FindRow(p - 2, y); (p - k - j, j, k)
    else if y < 2 * size then var (l, j) := FindRow(p - 2, y - size); (p - l - j, j, 0)
    else if y < 3 * size then var (l, k) := FindRow(p - 2, y - 2 * size); (0, p - l - k, k)
    else if y < 4 * size then var (l, k) := FindRow(p - 2, y - 3 * size); (p - l - k, 0, k)
    else (0, 0, 0)
  }

  predicate IsOnEdge(p: int, i: int, j: int, k: int) {
    var l := p - i - j - k;
    && InTetrahedron(p, i, j, k) && i != p && j != p && k != p && l != p
    && ((k == 0 && l == 0) || (i == 0 && l == 0) || (j == 0 && l == 0)
        || (j == 0 && k == 0) || (i == 0 && k == 0) || (i == 0 && j == 0))
  }

  predicate IsOnFace(p: int, i: int, j: int, k: int) {
    var l := p - i - j - k;
    && InTetrahedron(p, i, j, k)
    && ((0 < i && 0 < j && 0 < k && l == 0) || (0 < i && 0 < j && k == 0 && 0 < l)
        || (i == 0 && 0 < j && 0 < k && 0 < l) || (0 < i && j == 0 && 0 < k && 0 < l))
  }

  predicate IsInside(p: int, i: int, j: int, k: int) {
    0 < i && 0 < j && 0 < k && i + j + k < p
  }

  /** What the index is on the faces. */
  lemma {:induction false} FaceFormula(p: nat, i: int, j: int, k: int)
    requires IsOnFace(p, i, j, k)
    ensures var l := p - i - j - k; var start := 4 + 6 * (p - 1);
      ComputeTetNodeIndex(p, i, j, k) ==
        if l == 0 then start + RowStart(p - 2, k) + (j - 1)
        else if k == 0 then start + Pairs(p - 1) + RowStart(p - 2, l) + (j - 1)
        else if i == 0 then start + 2 * Pairs(p - 1) + RowStart(p - 2, l) + (k - 1)
        else start + 3 * Pairs(p - 1) + RowStart(p - 2, l) + (k - 1)
  {
    var l := p - i - j - k;
    PairsClosed(p - 1);
    assert (p - 2) * (p - 1) == (p - 1) * (p - 2) == 2 * Pairs(p - 1);
    if l == 0 {
      RowFormula(p, k, j);
    } else if k == 0 {
      RowFormula(p, l, j);
    } else {
      RowFormula(p, l, k);
    }
  }

  lemma CubeNegates(a: int, b: int)
    requires b == -a
    ensures (a + 1) * (a + 2) * (a + 3) == -((b - 1) * (b - 2) * (b - 3))
  {
    assert (a + 1) * (a + 2) == (b - 1) * (b - 2);
    var m := (b - 1) * (b - 2);
    assert m * (a + 3) == -(m * (b - 3));
  }

  lemma {:induction false} InsideStart(p: nat)
    requires 1 <= p
    ensures 4 + 6 * (p - 1) + 4 * Pairs(p - 1) == 2 * p * p + 2
  {
    PairsClosed(p - 1);
    assert (p - 1) * (p - 2) == p * p - 3 * p + 2;
  }

  /** What the index is inside. */
  lemma {:induction false} InsideFormula(p: nat, i: int, j: int, k: int)
    requires IsInside(p, i, j, k)
    ensures var l := p - i - j - k; var q := p - i;
      ComputeTetNodeIndex(p, i, j, k) ==
        4 + 6 * (p - 1) + 4 * Pairs(p - 1) + Triples(q - 1) + RowStart(q - 2, l) + (k - 1)
  {
    var l, q := p - i - j - k, p - i;
    RowFormula(q, l, k);
    TriplesClosed(q - 1);
    CubeNegates(i - p, q);
    InsideStart(p);
    assert p - 1 - i == q - 1;
  }

  lemma {:induction false} TetFaceInverts(p: nat, i: int, j: int, k: int)
    requires IsOnFace(p, i, j, k)
    ensures 4 + 6 * (p - 1) <= ComputeTetNodeIndex(p, i, j, k) < 4 + 6 * (p - 1) + 4 * Pairs(p - 1)
    ensures DecodeTetFace(p, ComputeTetNodeIndex(p, i, j, k) - 4 - 6 * (p - 1)) == (i, j, k)
  {
    hide ComputeTetNodeIndex, FindRow;
    var l := p - i - j - k;
    FaceFormula(p, i, j, k);
    if l == 0 {
      RowInvertsFind(p - 2, k, j);
    } else if k == 0 {
      RowInvertsFind(p - 2, l, j);
    } else {
      RowInvertsFind(p - 2, l, k);
    }
  }

  lemma {:induction false} TetInsideInverts(p: nat, i: int, j: int, k: int)
    requires IsInside(p, i, j, k)
    ensures 4 + 6 * (p - 1) + 4 * Pairs(p - 1) <= ComputeTetNodeIndex(p, i, j, k) < TetCount(p)
    ensures DecodeTetInside(p, ComputeTetNodeIndex(p, i, j, k) - (4 + 6 * (p - 1) + 4 * Pairs(p - 1))) == (i, j, k)
  {
    hide ComputeTetNodeIndex, FindRow, FindSlice;
    var l, q := p - i - j - k, p - i;
    InsideFormula(p, i, j, k);
    RowInvertsFind(q - 2, l, k);
    var z := RowStart(q - 2, l) + (k - 1);
    SliceInvertsFind(3, q, z);
    assert Triples(q) == Triples(q - 1) + Pairs(q - 1);
    TriplesGrow(q, p - 1);
  }

  lemma TetEdgeInverts(p: nat, i: int, j: int, k: int)
    requires IsOnEdge(p, i, j, k)
    ensures 4 <= ComputeTetNodeIndex(p, i, j, k) < 4 + 6 * (p - 1)
    ensures DecodeTetEdge(p, ComputeTetNodeIndex(p, i, j, k) - 3) == (i, j, k)
  {
  }

  lemma TetIndexInverts(p: nat, i: int, j: int, k: int)
    requires 1 <= p && InTetrahedron(p, i, j, k)
    ensures 0 <= ComputeTetNodeIndex(p, i, j, k) < TetCount(p)
    ensures DecodeTet(p, ComputeTetNodeIndex(p, i, j, k)) == (i, j, k)
  {
    if IsInside(p, i, j, k) {
      TetInsideInverts(p, i, j, k);
    } else if IsOnFace(p, i, j, k) {
      TetFaceInverts(p, i, j, k);
    } else if IsOnEdge(p, i, j, k) {
      TetEdgeInverts(p, i, j, k);
    }
  }

  lemma {:induction false} TetFaceDecodes(p: nat, y: nat)
    requires 1 <= p && y < 4 * Pairs(p - 1)
    ensures 2 <= p && var (i, j, k) := DecodeTetFace(p, y);
      IsOnFace(p, i, j, k) && ComputeTetNodeIndex(p, i, j, k) == 4 + 6 * (p - 1) + y
  {
    var size := Pairs(p - 1);
    var z := if y < size then y else if y < 2 * size then y - size else if y < 3 * size then y - 2 * size
      else y - 3 * size;
    FindRowInverts(p - 2, z);
    var (i, j, k) := DecodeTetFace(p, y);
    FaceFormula(p, i, j, k);
  }

  lemma {:induction false} TetInsideDecodes(p: nat, y: nat)
    requires 1 <= p && y < Triples(p - 1)
    ensures var (i, j, k) := DecodeTetInside(p, y);
      IsInside(p, i, j, k) && ComputeTetNodeIndex(p, i, j, k) == 4 + 6 * (p - 1) + 4 * Pairs(p - 1) + y
  {
    hide ComputeTetNodeIndex, FindRow, FindSlice;
    assert Triples(2) == 0;
    FindSliceInverts(3, y, p);
    var (q, z) := FindSlice(3, y);
    FindRowInverts(q - 2, z);
    var (l, k) := FindRow(q - 2, z);
    var i, j := p - q, q - l - k;
    assert IsInside(p, i, j, k) && p - i == q && p - i - j - k == l;
    InsideFormula(p, i, j, k);
  }

  lemma TetEdgeDecodes(p: nat, x: nat)
    requires 1 <= p && x < 4 + 6 * (p - 1)
    ensures var (i, j, k) := DecodeTet(p, x); InTetrahedron(p, i, j, k) && ComputeTetNodeIndex(p, i, j, k) == x
  {
  }

  lemma TetDecodeInverts(p: nat, x: nat)
    requires 1 <= p && x < TetCount(p)
    ensures var (i, j, k) := DecodeTet(p, x); InTetrahedron(p, i, j, k) && ComputeTetNodeIndex(p, i, j, k) == x
  {
    var faces := 4 + 6 * (p - 1);
    var inside := faces + 4 * Pairs(p - 1);
    if x < faces {
      TetEdgeDecodes(p, x);
      return;
    }
    hide ComputeTetNodeIndex, DecodeTetInside, DecodeTetFace, Pairs;
    if inside <= x {
      TetInsideDecodes(p, x - inside);
    } else {
      TetFaceDecodes(p, x - faces);
    }
  }
}
