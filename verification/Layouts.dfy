/** How the control points of an element are listed: the corners, then the insides of the edges one after the other,
    then the insides of the faces by rows, then the inside of a tetrahedron by layers. The numbering finds every
    point at its place in this list. */
module Layouts {
  import opened NodeNumbering
  import opened Surfaces

  // ----- triangles -----

  /** Row `r`, counted from 1, of a list cut into rows of `length`, `length - 1`, ... values. */
  function InnerRow<T>(s: seq<T>, length: nat, r: nat): (row: seq<T>)
    requires 1 <= r <= length + 1 && Pairs(length + 1) <= |s|
    ensures |row| == length + 1 - r
    decreases r
  {
    if r == 1 then s[..length] else InnerRow(s[length..], length - 1, r - 1)
  }

  /** A triangle is listed as its three corners, the insides of the edges from the first corner to the second, from
      the second to the third and from the third to the first, and the inner rows from the first edge to the third
      corner. So these are its rows, `k` = 0 being the first edge. */
  function TriRow<T>(list: seq<T>, p: nat, k: nat): (row: seq<T>)
    requires 1 <= p && TriCount(p) <= |list| && k <= p
    ensures |row| == p + 1 - k
  {
    var n := p - 1;
    var first, second, third := list[3..3 + n], list[3 + n..3 + 2 * n], list[3 + 2 * n..3 + 3 * n];
    if k == 0 then [list[0]] + first + [list[1]]
    else if k == p then [list[2]]
    else [third[n - k]] + InnerRow(list[3 + 3 * n..], p - 2, k) + [second[k - 1]]
  }

  function TriRows<T>(list: seq<T>, p: nat): (rows: seq<seq<T>>)
    requires 1 <= p && TriCount(p) <= |list|
    ensures |rows| == p + 1 && forall k: nat :: k <= p ==> rows[k] == TriRow(list, p, k)
  {
    seq(p + 1, k requires 0 <= k < p + 1 => TriRow(list, p, k))
  }

  /** The corners at the ends of a side and the points between them. */
  function TriSide<T>(list: seq<T>, p: nat, e: nat): (side: seq<T>)
    requires 1 <= p && TriCount(p) <= |list| && e < 3
    ensures |side| == p + 1
  {
    var n := p - 1;
    if e == 0 then [list[0]] + list[3..3 + n] + [list[1]]
    else if e == 1 then [list[1]] + list[3 + n..3 + 2 * n] + [list[2]]
    else [list[2]] + list[3 + 2 * n..3 + 3 * n] + [list[0]]
  }

  lemma {:induction false} InnerRowAt<T>(s: seq<T>, length: nat, r: nat, c: nat)
    requires 1 <= r && 1 <= c && r + c <= length + 1 && Pairs(length + 1) <= |s|
    ensures 0 <= RowStart(length, r) + (c - 1) < Pairs(length + 1)
    ensures InnerRow(s, length, r)[c - 1] == s[RowStart(length, r) + (c - 1)]
    decreases r
  {
    if r == 1 {
      assert Pairs(length + 1) == Pairs(length) + length;
    } else {
      InnerRowAt(s[length..], length - 1, r - 1, c);
    }
  }

  lemma {:induction false} TriInside(p: nat, k: nat, j: nat)
    requires 0 < k && 0 < j && k + j < p
    ensures ComputeTriNodeIndex(p, p - k - j, j) == 3 * p + (RowStart(p - 2, k) + (j - 1))
  {
    hide Quotient, RowStart;
    RowFormula(p, k, j);
  }

  lemma Between<T>(a: T, s: seq<T>, b: T, j: nat)
    requires 0 < j <= |s|
    ensures ([a] + s + [b])[j] == s[j - 1]
  {
  }

  lemma TriRowInside<T>(list: seq<T>, p: nat, k: nat, j: nat)
    requires TriCount(p) <= |list| && 0 < k && 0 < j && k + j < p
    ensures 0 <= ComputeTriNodeIndex(p, p - k - j, j) < |list|
    ensures TriRow(list, p, k)[j] == list[ComputeTriNodeIndex(p, p - k - j, j)]
  {
    hide InnerRow, ComputeTriNodeIndex, Pairs, RowStart;
    var n, x := p - 1, RowStart(p - 2, k) + (j - 1);
    var inner := list[3 + 3 * n..];
    TriInside(p, k, j);
    InnerRowAt(inner, p - 2, k, j);
    assert inner[x] == list[3 * p + x];
    Between(list[3 + 2 * n..3 + 3 * n][n - k], InnerRow(inner, p - 2, k), list[3 + n..3 + 2 * n][k - 1], j);
  }

  /** Row `k` and column `j` of a triangle is the control point with these exponents. */
  lemma TriRowAt<T>(list: seq<T>, p: nat, k: nat, j: nat)
    requires 1 <= p && TriCount(p) <= |list| && k + j <= p
    ensures 0 <= ComputeTriNodeIndex(p, p - k - j, j) < |list|
    ensures TriRow(list, p, k)[j] == list[ComputeTriNodeIndex(p, p - k - j, j)]
  {
    hide InnerRow, Pairs, Quotient;
    if 0 < k && 0 < j && k + j < p {
      TriRowInside(list, p, k, j);
    }
  }

  lemma TriSideAt<T>(list: seq<T>, p: nat, e: nat, m: nat)
    requires 1 <= p && TriCount(p) <= |list| && e < 3 && m <= p
    ensures var i := if e == 0 then p - m else if e == 1 then 0 else m;
      var j := if e == 0 then m else if e == 1 then p - m else 0;
      0 <= ComputeTriNodeIndex(p, i, j) < |list| && TriSide(list, p, e)[m] == list[ComputeTriNodeIndex(p, i, j)]
  {
  }

  // ----- tetrahedra -----

  function FromCorner(e: nat): nat {
    if e == 0 then 0 else if e == 1 then 1 else if e == 2 then 2 else if e == 3 then 0 else if e == 4 then 1 else 2
  }

  function ToCorner(e: nat): nat {
    if e == 0 then 1 else if e == 1 then 2 else if e == 2 then 0 else 3
  }

  /** A tetrahedron is listed as its four corners, the insides of the six edges, of the four faces and of the element.
      This is the inside of edge `e`. */
  function EdgeRun<T>(list: seq<T>, p: nat, e: nat): (run: seq<T>)
    requires 1 <= p && TetCount(p) <= |list| && e < 6
    ensures |run| == p - 1
  {
    var n := p - 1;
    if e == 0 then list[4..4 + n]
    else if e == 1 then list[4 + n..4 + 2 * n]
    else if e == 2 then list[4 + 2 * n..4 + 3 * n]
    else if e == 3 then list[4 + 3 * n..4 + 4 * n]
    else if e == 4 then list[4 + 4 * n..4 + 5 * n]
    else list[4 + 5 * n..4 + 6 * n]
  }

  /** The corners at the ends of an edge and the points between them. */
  function TetEdge<T>(list: seq<T>, p: nat, e: nat): (edge: seq<T>)
    requires 1 <= p && TetCount(p) <= |list| && e < 6
    ensures |edge| == p + 1
  {
    [list[FromCorner(e)]] + EdgeRun(list, p, e) + [list[ToCorner(e)]]
  }

  function Reverse<T>(s: seq<T>): (r: seq<T>)
    ensures |r| == |s| && forall m :: 0 <= m < |s| ==> r[m] == s[|s| - 1 - m]
  {
    if s == [] then [] else Reverse(s[1..]) + [s[0]]
  }

  /** The inside of face `f`. */
  function FaceRun<T>(list: seq<T>, p: nat, f: nat): (run: seq<T>)
    requires 1 <= p && TetCount(p) <= |list| && f < 4
    ensures |run| == Pairs(p - 1)
  {
    var start, size := 4 + 6 * (p - 1), Pairs(p - 1);
    if f == 0 then list[start..start + size]
    else if f == 1 then list[start + size..start + 2 * size]
    else if f == 2 then list[start + 2 * size..start + 3 * size]
    else list[start + 3 * size..start + 4 * size]
  }

  /** The faces are those with corners 0, 1, 2, with 0, 1, 3, with 1, 2, 3, and with 0, 2, 3. */
  function FaceCorners<T>(list: seq<T>, f: nat): (corners: seq<T>)
    requires 4 <= |list| && f < 4
    ensures |corners| == 3
  {
    if f == 0 then [list[0], list[1], list[2]] else if f == 1 then [list[0], list[1], list[3]]
    else if f == 2 then [list[1], list[2], list[3]] else [list[0], list[2], list[3]]
  }

  /** The insides of the sides of a face, from its first corner to the second and so on; an edge that goes the other
      way is reversed. */
  function FaceSide<T>(list: seq<T>, p: nat, f: nat, side: nat): (run: seq<T>)
    requires 1 <= p && TetCount(p) <= |list| && f < 4 && side < 3
    ensures |run| == p - 1
  {
    if side == 0 then
      if f <= 1 then EdgeRun(list, p, 0) else if f == 2 then EdgeRun(list, p, 1) else Reverse(EdgeRun(list, p, 2))
    else if side == 1 then
      EdgeRun(list, p, if f == 0 then 1 else if f == 1 then 4 else 5)
    else
      if f == 0 then EdgeRun(list, p, 2) else Reverse(EdgeRun(list, p, if f == 2 then 4 else 3))
  }

  function Joined<T>(corners: seq<T>, first: seq<T>, second: seq<T>, third: seq<T>, inside: seq<T>): seq<T> {
    corners + (first + (second + (third + inside)))
  }

  /** Face `f` listed as a triangle. */
  function FaceList<T>(list: seq<T>, p: nat, f: nat): (face: seq<T>)
    requires 1 <= p && TetCount(p) <= |list| && f < 4
    ensures |face| == TriCount(p)
  {
    Joined(FaceCorners(list, f), FaceSide(list, p, f, 0), FaceSide(list, p, f, 1), FaceSide(list, p, f, 2),
           FaceRun(list, p, f))
  }

  lemma JoinedAt<T>(corners: seq<T>, first: seq<T>, second: seq<T>, third: seq<T>, inside: seq<T>, n: nat, x: nat)
    requires |corners| == 3 && |first| == n && |second| == n && |third| == n && x < 3 + 3 * n + |inside|
    ensures |Joined(corners, first, second, third, inside)| == 3 + 3 * n + |inside|
    ensures Joined(corners, first, second, third, inside)[x] ==
      if x < 3 then corners[x] else if x < 3 + n then first[x - 3] else if x < 3 + 2 * n then second[x - 3 - n]
      else if x < 3 + 3 * n then third[x - 3 - 2 * n] else inside[x - 3 - 3 * n]
  {
    var y: int := x - 3;
    if 3 + n <= x {
      assert (first + (second + (third + inside)))[y] == (second + (third + inside))[y - n];
    }
  }

  lemma FaceListIs<T>(list: seq<T>, p: nat, f: nat, x: nat)
    requires 1 <= p && TetCount(p) <= |list| && f < 4 && x < TriCount(p)
    ensures FaceList(list, p, f)[x] ==
      if x < 3 then FaceCorners(list, f)[x] else if x < 2 + p then FaceSide(list, p, f, 0)[x - 3]
      else if x < 1 + 2 * p then FaceSide(list, p, f, 1)[x - 2 - p]
      else if x < 3 * p then FaceSide(list, p, f, 2)[x - 1 - 2 * p] else FaceRun(list, p, f)[x - 3 * p]
  {
    hide FaceCorners, FaceSide, FaceRun, Joined, Pairs, Triples;
    JoinedAt(FaceCorners(list, f), FaceSide(list, p, f, 0), FaceSide(list, p, f, 1), FaceSide(list, p, f, 2),
             FaceRun(list, p, f), p - 1, x);
  }

  /** Layer `q`, counted from `from`, of a list cut into layers of 1, 3, 6, ... points if `from` is 3. */
  function InnerLayer<T>(s: seq<T>, from: nat, q: nat): (layer: seq<T>)
    requires 3 <= from <= q && Triples(q) - Triples(from - 1) <= |s|
    ensures |layer| == Pairs(q - 1)
    decreases q - from
  {
    LayersGrow(from, q);
    if q == from then s[..Pairs(q - 1)] else InnerLayer(s[Pairs(from - 1)..], from + 1, q)
  }

  lemma {:induction false} LayersGrow(from: nat, q: nat)
    requires 3 <= from <= q
    ensures Triples(from - 1) + Pairs(from - 1) == Triples(from) <= Triples(q)
  {
    TriplesGrow(from, q);
  }

  /** The points inside, which are listed last: the layer with one point, next to the first corner, comes first. */
  function Inside<T>(list: seq<T>, p: nat): (inside: seq<T>)
    requires 1 <= p && TetCount(p) <= |list|
    ensures Triples(p - 1) <= |inside|
  {
    list[4 + 6 * (p - 1) + 4 * Pairs(p - 1)..]
  }

  lemma EdgeIndex(p: nat, e: nat, m: nat)
    requires 1 <= p && e < 6 && m <= p
    ensures var at, n := AlongEdge(p, e, m), p - 1;
      ComputeTetNodeIndex(p, at.i, at.j, at.k) ==
        if m == 0 then FromCorner(e) else if m == p then ToCorner(e) else if e == 0 then 3 + m
        else if e == 1 then 3 + n + m else if e == 2 then 3 + 2 * n + m else if e == 3 then 3 + 3 * n + m
        else if e == 4 then 3 + 4 * n + m else 3 + 5 * n + m
  {
    hide Quotient;
  }

  lemma TetEdgeAt<T>(list: seq<T>, p: nat, e: nat, m: nat)
    requires 1 <= p && TetCount(p) <= |list| && e < 6 && m <= p
    ensures var at := AlongEdge(p, e, m);
      && 0 <= ComputeTetNodeIndex(p, at.i, at.j, at.k) < |list|
      && TetEdge(list, p, e)[m] == list[ComputeTetNodeIndex(p, at.i, at.j, at.k)]
  {
    hide Pairs, Triples, ComputeTetNodeIndex, AlongEdge;
    EdgeIndex(p, e, m);
  }

  lemma {:induction false} FaceIndex(p: nat, f: nat, k: nat, j: nat)
    requires f < 4 && 0 < k && 0 < j && k + j < p
    ensures var at, start, size, x := InFace(p, f, k, j), 4 + 6 * (p - 1), Pairs(p - 1), RowStart(p - 2, k) + (j - 1);
      && 0 <= x < size
      && ComputeTetNodeIndex(p, at.i, at.j, at.k) ==
           (if f == 0 then start + x else if f == 1 then start + size + x else if f == 2 then start + 2 * size + x
            else start + 3 * size + x)
  {
    hide Pairs, RowStart, ComputeTetNodeIndex, FindRow;
    var at := InFace(p, f, k, j);
    RowInvertsFind(p - 2, k, j);
    FaceFormula(p, at.i, at.j, at.k);
  }

  lemma {:induction false} FaceRunAt<T>(list: seq<T>, p: nat, f: nat, k: nat, j: nat)
    requires TetCount(p) <= |list| && f < 4 && 0 < k && 0 < j && k + j < p
    ensures var at, x := InFace(p, f, k, j), RowStart(p - 2, k) + (j - 1);
      && 0 <= x < Pairs(p - 1) && 0 <= ComputeTetNodeIndex(p, at.i, at.j, at.k) < |list|
      && FaceRun(list, p, f)[x] == list[ComputeTetNodeIndex(p, at.i, at.j, at.k)]
  {
    hide Pairs, RowStart, ComputeTetNodeIndex, Triples, InFace;
    FaceIndex(p, f, k, j);
  }

  lemma FaceInside<T>(list: seq<T>, p: nat, f: nat, k: nat, j: nat)
    requires TetCount(p) <= |list| && f < 4 && 0 < k && 0 < j && k + j < p
    ensures var at := InFace(p, f, k, j);
      && 0 <= ComputeTriNodeIndex(p, p - k - j, j) < TriCount(p)
      && 0 <= ComputeTetNodeIndex(p, at.i, at.j, at.k) < |list|
      && FaceList(list, p, f)[ComputeTriNodeIndex(p, p - k - j, j)] == list[ComputeTetNodeIndex(p, at.i, at.j, at.k)]
  {
    hide Pairs, RowStart, FaceList, FaceRun, FaceSide, FaceCorners, ComputeTriNodeIndex, ComputeTetNodeIndex, InFace;
    FaceRunAt(list, p, f, k, j);
    TriInside(p, k, j);
    FaceListIs(list, p, f, 3 * p + (RowStart(p - 2, k) + (j - 1)));
  }

  lemma EdgeRunAt<T>(list: seq<T>, p: nat, e: nat, m: nat)
    requires 0 < m < p && TetCount(p) <= |list| && e < 6
    ensures var at := AlongEdge(p, e, m);
      && 0 <= ComputeTetNodeIndex(p, at.i, at.j, at.k) < |list|
      && EdgeRun(list, p, e)[m - 1] == list[ComputeTetNodeIndex(p, at.i, at.j, at.k)]
  {
    hide EdgeRun, ComputeTetNodeIndex, AlongEdge;
    TetEdgeAt(list, p, e, m);
    assert TetEdge(list, p, e)[m] == EdgeRun(list, p, e)[m - 1];
  }

  /** `m` steps along a side of a face. */
  function AlongSide(p: int, f: nat, side: nat, m: int): Place {
    if side == 0 then InFace(p, f, 0, m) else if side == 1 then InFace(p, f, m, p - m) else InFace(p, f, p - m, 0)
  }

  lemma FaceSideAt<T>(list: seq<T>, p: nat, f: nat, side: nat, m: nat)
    requires 0 < m < p && TetCount(p) <= |list| && f < 4 && side < 3
    ensures var at := AlongSide(p, f, side, m);
      && 0 <= ComputeTetNodeIndex(p, at.i, at.j, at.k) < |list|
      && FaceSide(list, p, f, side)[m - 1] == list[ComputeTetNodeIndex(p, at.i, at.j, at.k)]
  {
    hide EdgeRun, ComputeTetNodeIndex, Reverse, Pairs, Triples;
    if side == 0 {
      EdgeRunAt(list, p, if f <= 1 then 0 else if f == 2 then 1 else 2, if f <= 2 then m else p - m);
    } else if side == 1 {
      EdgeRunAt(list, p, if f == 0 then 1 else if f == 1 then 4 else 5, m);
    } else {
      EdgeRunAt(list, p, if f == 0 then 2 else if f == 2 then 4 else 3, if f == 0 then m else p - m);
    }
  }

  lemma FaceCornerAt<T>(list: seq<T>, p: nat, f: nat, k: nat, j: nat)
    requires 1 <= p && TetCount(p) <= |list| && f < 4 && k + j <= p && (k == p || j == p || (k == 0 && j == 0))
    ensures var at, x := InFace(p, f, k, j), ComputeTriNodeIndex(p, p - k - j, j);
      && 0 <= x < 3 && 0 <= ComputeTetNodeIndex(p, at.i, at.j, at.k) < |list|
      && FaceCorners(list, f)[x] == list[ComputeTetNodeIndex(p, at.i, at.j, at.k)]
  {
    hide Pairs, Triples, Quotient;
  }

  lemma FaceBorder<T>(list: seq<T>, p: nat, f: nat, k: nat, j: nat)
    requires 1 <= p && TetCount(p) <= |list| && f < 4 && k + j <= p && (k == 0 || j == 0 || k + j == p)
    ensures var at := InFace(p, f, k, j);
      && 0 <= ComputeTriNodeIndex(p, p - k - j, j) < TriCount(p)
      && 0 <= ComputeTetNodeIndex(p, at.i, at.j, at.k) < |list|
      && FaceList(list, p, f)[ComputeTriNodeIndex(p, p - k - j, j)] == list[ComputeTetNodeIndex(p, at.i, at.j, at.k)]
  {
    hide Pairs, Quotient, FaceRun, FaceList, FaceSide, FaceCorners, InFace, Triples, ComputeTetNodeIndex;
    FaceListIs(list, p, f, ComputeTriNodeIndex(p, p - k - j, j));
    if k == p || j == p || (k == 0 && j == 0) {
      FaceCornerAt(list, p, f, k, j);
    } else if k == 0 {
      FaceSideAt(list, p, f, 0, j);
    } else if j == 0 {
      FaceSideAt(list, p, f, 2, p - k);
    } else {
      FaceSideAt(list, p, f, 1, k);
    }
  }

  lemma FaceListAt<T>(list: seq<T>, p: nat, f: nat, k: nat, j: nat)
    requires 1 <= p && TetCount(p) <= |list| && f < 4 && k + j <= p
    ensures var at := InFace(p, f, k, j);
      && 0 <= ComputeTriNodeIndex(p, p - k - j, j) < TriCount(p)
      && 0 <= ComputeTetNodeIndex(p, at.i, at.j, at.k) < |list|
      && FaceList(list, p, f)[ComputeTriNodeIndex(p, p - k - j, j)] == list[ComputeTetNodeIndex(p, at.i, at.j, at.k)]
  {
    hide ComputeTriNodeIndex, ComputeTetNodeIndex, FaceList, InFace;
    if 0 < k && 0 < j && k + j < p {
      FaceInside(list, p, f, k, j);
    } else {
      FaceBorder(list, p, f, k, j);
    }
  }

  /** Row `k` and column `j` of a face is the control point with these exponents. */
  lemma FaceRowAt<T>(list: seq<T>, p: nat, f: nat, k: nat, j: nat)
    requires 1 <= p && TetCount(p) <= |list| && f < 4 && k + j <= p
    ensures var at := InFace(p, f, k, j);
      && 0 <= ComputeTetNodeIndex(p, at.i, at.j, at.k) < |list|
      && TriRow(FaceList(list, p, f), p, k)[j] == list[ComputeTetNodeIndex(p, at.i, at.j, at.k)]
  {
    FaceListAt(list, p, f, k, j);
    TriRowAt(FaceList(list, p, f), p, k, j);
  }

  lemma {:induction false} InnerLayerAt<T>(s: seq<T>, from: nat, q: nat, z: nat)
    requires 3 <= from <= q && Triples(q) - Triples(from - 1) <= |s| && z < Pairs(q - 1)
    ensures Triples(from - 1) <= Triples(q - 1) && Triples(q - 1) - Triples(from - 1) + z < |s|
    ensures InnerLayer(s, from, q)[z] == s[Triples(q - 1) - Triples(from - 1) + z]
    decreases q - from
  {
    LayersGrow(from, q);
    LayersGrow(q, q);
    if from < q {
      InnerLayerAt(s[Pairs(from - 1)..], from + 1, q, z);
      assert from + 1 - 1 == from;
    }
  }

  lemma {:induction false} InsideIndex(p: nat, i: nat, j: nat, k: nat)
    requires 0 < i && 0 < j && 0 < k && i + j + k < p
    ensures var q, l, start := p - i, p - i - j - k, 4 + 6 * (p - 1) + 4 * Pairs(p - 1);
      && Triples(q) <= Triples(p - 1) && 0 <= RowStart(q - 2, l) + (k - 1) < Pairs(q - 1)
      && ComputeTetNodeIndex(p, i, j, k) == start + Triples(q - 1) + (RowStart(q - 2, l) + (k - 1))
      && 0 <= ComputeTetNodeIndex(p, i, j, k) < TetCount(p)
  {
    hide ComputeTetNodeIndex, RowStart, FindRow, Pairs, Triples;
    var q, l := p - i, p - i - j - k;
    TetIndexInverts(p, i, j, k);
    InsideFormula(p, i, j, k);
    TriplesGrow(q, p - 1);
    RowInvertsFind(q - 2, l, k);
  }

  /** Inside, the layers are by the first exponent, the rows of a layer by the fourth, the columns by the third. */
  lemma InsideAt<T>(list: seq<T>, p: nat, i: nat, j: nat, k: nat)
    requires TetCount(p) <= |list| && 0 < i && 0 < j && 0 < k && i + j + k < p
    ensures var q, l := p - i, p - i - j - k;
      && 0 <= ComputeTetNodeIndex(p, i, j, k) < |list|
      && Triples(q) <= |Inside(list, p)|
      && InnerRow(InnerLayer(Inside(list, p), 3, q), q - 2, l)[k - 1] == list[ComputeTetNodeIndex(p, i, j, k)]
  {
    hide ComputeTetNodeIndex, InnerRow, InnerLayer, RowStart;
    var q, l := p - i, p - i - j - k;
    InsideIndex(p, i, j, k);
    assert Triples(2) == 0;
    var layer, x := InnerLayer(Inside(list, p), 3, q), RowStart(q - 2, l) + (k - 1);
    InnerRowAt(layer, q - 2, l, k);
    InnerLayerAt(Inside(list, p), 3, q, x);
  }
}
