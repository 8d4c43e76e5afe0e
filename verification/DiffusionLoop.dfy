/** The diffusion loop (`diffuse_densities`): exactly what it computes, what it keeps, and when it ends. */
module DiffusionLoop {
  import opened Sums
  import opened Graphs
  import opened Diffusion
  import opened ElementGraph
  import opened Settling
  import opened Sides

  function Abs(x: real): real {
    if x < 0.0 then -x else x
  }

  predicate AllBounded(x: seq<real>, tolerance: real) {
    forall e :: 0 <= e < |x| ==> Abs(x[e]) <= tolerance
  }

  // ----- the loop does not end -----

  /** A side whose total is too large for the tolerance can never be brought below it. */
  lemma {:induction false} SideStaysAbove(
      net: Net, one: set<nat>, other: set<nat>, x: seq<real>, tolerance: real, k: nat)
    requires net.Valid() && AreSides(net, one, other) && |x| == |net.rows|
    requires Abs(net.Total(one, x)) > tolerance * Size(net, one)
    ensures !AllBounded(net.Iterated(x, k), tolerance)
  {
    var y, side := net.Iterated(x, k), SideAt(one, other, k);
    SidesConserve(net, one, other, x, k);
    SidesHaveOneSize(net, one, other);
    if AllBounded(y, tolerance) {
      assert IsAbove(y, side, -tolerance) && IsBelow(y, side, tolerance);
      TotalIsAbove(net, side, y, -tolerance);
      TotalIsBelow(net, side, y, tolerance);
      NegativeProduct(Size(net, side), tolerance);
      assert false;
    }
  }

  /** The mean over the elements an even number of steps away. */
  ghost predicate MeanIsBelow(net: Net, x: seq<real>, tolerance: real, e: nat)
    requires net.Valid() && |x| == |net.rows|
  {
    Abs(net.Total(Even(net, e), x)) < tolerance * Size(net, Even(net, e))
  }

  ghost predicate MeanIsAbove(net: Net, x: seq<real>, tolerance: real, e: nat)
    requires net.Valid() && |x| == |net.rows|
  {
    Abs(net.Total(Even(net, e), x)) > tolerance * Size(net, Even(net, e))
  }

  /** The loop never ends if such a mean is above the tolerance. */
  lemma {:induction false} CannotEnd(net: Net, x: seq<real>, tolerance: real, e: nat, k: nat)
    requires net.Valid() && |x| == |net.rows| && e < |x| && MeanIsAbove(net, x, tolerance, e)
    ensures !AllBounded(net.Iterated(x, k), tolerance)
  {
    hide Even, Odd, AreSides, Net.Valid, AllBounded;
    EvenAndOddAreSides(net, e);
    SideStaysAbove(net, Even(net, e), Odd(net, e), x, tolerance, k);
  }

  // ----- elements that keep some of their own density -----

  /** Fewer neighbours than there could be, or a smaller one. */
  ghost predicate CanRest(net: Net, e: nat) {
    && e < |net.rows| == |net.sizes|
    && (|net.rows[e]| < net.maxDeg
        || exists i ::
          0 <= i < |net.rows[e]| && net.rows[e][i] < |net.sizes| && net.sizes[net.rows[e][i]] < net.sizes[e])
  }

  lemma SmallerFactor(net: Net, e: nat, o: nat) returns (f: real, unit: real)
    requires net.IsFrom([], e) && o < |net.rows| && net.sizes[e] > 0.0 && net.sizes[o] > 0.0
    ensures f == net.Factor(e, o) && unit == 1.0 / net.maxDeg as real && f <= unit
    ensures f < unit <==> net.sizes[o] < net.sizes[e]
  {
    unit := 1.0 / net.maxDeg as real;
    f := FactorBounds(net, e, o);
    var s, m, deg := net.sizes[e], Min(net.sizes[e], net.sizes[o]), net.maxDeg as real;
    var p := s * deg;
    UnitTimes(s, deg, unit, p);
    assert f * p == m;
    Cancelled(f, unit, p);
    Cancelled(unit, f, p);
  }

  lemma ShareIsFull(net: Net, row: seq<nat>, e: nat) returns (unit: real, bound: real)
    requires net.IsFrom(row, e)
    ensures unit == 1.0 / net.maxDeg as real && bound == |row| as real * unit
    ensures TakenShare(net, row, e) <= bound
    ensures TakenShare(net, row, e) < bound <==> exists i :: 0 <= i < |row| && net.sizes[row[i]] < net.sizes[e]
    decreases |row|
  {
    unit := 1.0 / net.maxDeg as real;
    bound := |row| as real * unit;
    if row != [] {
      var n := |row| - 1;
      var u, b := ShareIsFull(net, row[..n], e);
      var f, v := SmallerFactor(net, e, row[n]);
      assert |row| as real == n as real + 1.0;
      assert bound == b + unit;
      if i :| 0 <= i < n && net.sizes[row[..n][i]] < net.sizes[e] {
        assert net.sizes[row[i]] < net.sizes[e];
      }
      if i :| 0 <= i < |row| && net.sizes[row[i]] < net.sizes[e] {
        assert i < n ==> row[..n][i] == row[i];
      }
    }
  }

  lemma RestsWhen(net: Net, e: nat)
    requires net.Valid() && e < |net.rows|
    ensures CanKeep(net, e) <==> CanRest(net, e)
  {
    net.RowIsFrom(e);
    var row := net.rows[e];
    var unit, bound := ShareIsFull(net, row, e);
    assert net.maxDeg as real * unit == 1.0;
    Fraction(|row|, net.maxDeg, unit, bound);
    assert |row| == net.maxDeg ==> bound == 1.0;
  }

  // ----- the loop ends -----

  ghost predicate ZoneIsBounded(x: seq<real>, zone: set<nat>, tolerance: real) {
    IsIn(x, zone, -tolerance, tolerance)
  }

  lemma RangeOf(x: seq<real>, n: nat) returns (m: real)
    requires n <= |x|
    ensures m >= 0.0 && forall e :: 0 <= e < n ==> -m <= x[e] <= m
  {
    m := 0.0;
    if n > 0 {
      m := RangeOf(x, n - 1);
      m := if Abs(x[n - 1]) <= m then m else Abs(x[n - 1]);
    }
  }

  lemma SizeIsNotNegative(net: Net, zone: set<nat>)
    requires net.Valid()
    ensures Size(net, zone) >= 0.0
  {
    SumIsNotNegative(|net.rows|, SizeIn(net, zone));
  }

  /** The room between the mean and the tolerance. */
  lemma Room(tolerance: real, size: real, total: real) returns (eps: real)
    requires size >= 0.0 && Abs(total) < tolerance * size
    ensures size > 0.0 && eps > 0.0 && eps * size == tolerance * size - Abs(total)
  {
    assert size == 0.0 ==> tolerance * size == 0.0;
    var room := tolerance * size - Abs(total);
    eps := room / size;
    assert eps * size == room;
    Cancelled(0.0, eps, size);
  }

  lemma NarrowIsBounded(net: Net, zone: set<nat>, y: seq<real>, lo: real, hi: real, eps: real,
      tolerance: real, size: real, total: real)
    requires net.Valid() && |y| == |net.rows| && IsIn(y, zone, lo, hi) && hi - lo <= eps
    requires size == Size(net, zone) > 0.0 && total == net.Total(zone, y)
    requires eps * size == tolerance * size - Abs(total)
    ensures ZoneIsBounded(y, zone, tolerance)
  {
    TotalIsAbove(net, zone, y, lo);
    TotalIsBelow(net, zone, y, hi);
    Grows(eps - (hi - lo), size);
    WithinTolerance(lo, hi, eps, tolerance, size, total);
  }

  lemma WithinTolerance(lo: real, hi: real, eps: real, tolerance: real, size: real, total: real)
    requires size > 0.0 && lo * size <= total <= hi * size && (eps - (hi - lo)) * size >= 0.0
    requires eps * size == tolerance * size - Abs(total)
    ensures -tolerance <= lo && hi <= tolerance
  {
    assert (eps - (hi - lo)) * size == eps * size - hi * size + lo * size;
    assert (-tolerance) * size == -(tolerance * size);
    Cancelled(hi, tolerance, size);
    Cancelled(-tolerance, lo, size);
  }

  lemma SideSettles(net: Net, x: seq<real>, tolerance: real, e: nat) returns (steps: nat)
    requires net.Valid() && |x| == |net.rows| && e < |x| && CanSettle(net, x, tolerance, e)
    ensures steps % 2 == 0 && ZoneIsBounded(net.Iterated(x, steps), Even(net, e), tolerance)
  {
    hide Even, Odd, AreSides, Net.Valid, ZoneIsBounded, AllWalk;
    if ZoneIsBounded(x, Even(net, e), tolerance) {
      steps := 0;
      assert net.Iterated(x, 0) == x;
    } else {
      EvenAndOddAreSides(net, e);
      var k := EvenWalks(net, e);
      var w := PaceExists(net);
      steps := SideSettlesFrom(net, Even(net, e), Odd(net, e), x, tolerance, w, e, k);
    }
  }

  /** Already within bounds, or with a mean below the tolerance. */
  ghost predicate CanSettle(net: Net, x: seq<real>, tolerance: real, e: nat)
    requires net.Valid() && |x| == |net.rows|
  {
    ZoneIsBounded(x, Even(net, e), tolerance) || MeanIsBelow(net, x, tolerance, e)
  }

  lemma SideSettlesFrom(
      net: Net, one: set<nat>, other: set<nat>, x: seq<real>, tolerance: real, w: real, root: nat, k: nat)
    returns (steps: nat)
    requires IsPace(net, w) && AreSides(net, one, other) && |x| == |net.rows| && AllWalk(net, one, root, k)
    requires Abs(net.Total(one, x)) < tolerance * Size(net, one)
    ensures steps % 2 == 0 && ZoneIsBounded(net.Iterated(x, steps), one, tolerance)
  {
    var size, total := Size(net, one), net.Total(one, x);
    SizeIsNotNegative(net, one);
    var eps := Room(tolerance, size, total);
    var m := RangeOf(x, |x|);
    var y, lo, hi;
    steps, y, lo, hi := BecomesNarrow(net, one, other, x, m, w, root, k, eps);
    SidesConserve(net, one, other, x, steps);
    NarrowIsBounded(net, one, y, lo, hi, eps, tolerance, size, total);
  }

  lemma BecomesNarrow(
      net: Net, one: set<nat>, other: set<nat>, x: seq<real>, m: real, w: real, root: nat, k: nat, eps: real)
    returns (steps: nat, y: seq<real>, lo: real, hi: real)
    requires IsPace(net, w) && AreSides(net, one, other) && |x| == |net.rows| && IsIn(x, one, -m, m) && m >= 0.0
    requires AllWalk(net, one, root, k) && eps > 0.0
    ensures steps % 2 == 0 && y == net.Iterated(x, steps) && IsIn(y, one, lo, hi) && hi - lo <= eps
  {
    var c, width := Pow(w, k), m - -m;
    PowIsFraction(w, k);
    var j := GetsSmall(c, width, eps);
    var widths := Fades(1.0 - c, j, width);
    steps, y, lo, hi := RangeShrinksAgain(net, one, other, x, -m, m, w, root, k, 1.0 - c, widths, j);
  }

  lemma {:induction false} StaysBounded(
      net: Net, one: set<nat>, other: set<nat>, x: seq<real>, tolerance: real, j: nat, k: nat)
    requires net.Valid() && AreSides(net, one, other) && |x| == |net.rows| && j <= k && j % 2 == 0 && k % 2 == 0
    requires ZoneIsBounded(net.Iterated(x, j), one, tolerance)
    ensures ZoneIsBounded(net.Iterated(x, k), one, tolerance)
  {
    hide AreSides, Net.Valid;
    var y := net.Iterated(x, j);
    var more := k - j;
    net.IteratedTwice(x, j, more);
    StepsStayAbove(net, one, other, y, -tolerance, more);
    StepsStayBelow(net, one, other, y, tolerance, more);
  }

  /** The loop ends if every element is on a side that can settle. */
  lemma LoopEnds(net: Net, x: seq<real>, tolerance: real) returns (steps: nat)
    requires net.Valid() && |x| == |net.rows|
    requires forall e: nat :: e < |x| ==> CanSettle(net, x, tolerance, e)
    ensures AllBounded(net.Iterated(x, steps), tolerance)
  {
    steps := EndsUpTo(net, x, tolerance, |x|);
    forall e | 0 <= e < |x|
      ensures Abs(net.Iterated(x, steps)[e]) <= tolerance
    {
      assert IsBoundedAt(net, x, tolerance, steps, e);
    }
  }

  ghost predicate IsBoundedAt(net: Net, x: seq<real>, tolerance: real, k: nat, e: nat)
    requires net.Valid() && |x| == |net.rows| && e < |x|
  {
    Abs(net.Iterated(x, k)[e]) <= tolerance
  }

  lemma EndsUpTo(net: Net, x: seq<real>, tolerance: real, n: nat) returns (steps: nat)
    requires net.Valid() && |x| == |net.rows| && n <= |x|
    requires forall e: nat :: e < |x| ==> CanSettle(net, x, tolerance, e)
    ensures steps % 2 == 0
    ensures forall k: nat, e: nat :: steps <= k && k % 2 == 0 && e < n ==> IsBoundedAt(net, x, tolerance, k, e)
  {
    steps := 0;
    if n > 0 {
      var s := EndsUpTo(net, x, tolerance, n - 1);
      var last := n - 1;
      var t := SideSettles(net, x, tolerance, last);
      EvenAndOddAreSides(net, last);
      steps := if s <= t then t else s;
      forall k: nat, e: nat | steps <= k && k % 2 == 0 && e < n
        ensures IsBoundedAt(net, x, tolerance, k, e)
      {
        if e == last {
          StaysBounded(net, Even(net, last), Odd(net, last), x, tolerance, t, k);
        } else {
          assert IsBoundedAt(net, x, tolerance, k, e);
        }
      }
    }
  }

  /** Unless some mean is the tolerance itself, the loop ends exactly if all means are below it. */
  lemma {:induction false} WhenLoopEnds(net: Net, x: seq<real>, tolerance: real)
    requires net.Valid() && |x| == |net.rows|
    requires forall e: nat :: e < |x| ==> MeanIsBelow(net, x, tolerance, e) || MeanIsAbove(net, x, tolerance, e)
    ensures (exists k: nat :: AllBounded(net.Iterated(x, k), tolerance)) <==>
      forall e: nat :: e < |x| ==> MeanIsBelow(net, x, tolerance, e)
  {
    if k: nat :| AllBounded(net.Iterated(x, k), tolerance) {
      forall e: nat | e < |x|
        ensures MeanIsBelow(net, x, tolerance, e)
      {
        if MeanIsAbove(net, x, tolerance, e) {
          CannotEnd(net, x, tolerance, e, k);
          assert false;
        }
      }
    }
    if forall e: nat :: e < |x| ==> MeanIsBelow(net, x, tolerance, e) {
      var steps := LoopEnds(net, x, tolerance);
    }
  }

  // ----- a mesh on which it does not end -----

  /** Four equal elements in a ring, each with both its neighbours. */
  function Ring(): Net {
    Net([[1, 3], [0, 2], [1, 3], [0, 2]], [1.0, 1.0, 1.0, 1.0], 2)
  }

  /** A closed polygon: four edges, of which neighbours share a vertex, and no vertex is exposed. It is one of
      topology and weights only: elements with two neighbours at most are edges, and in a mesh of dimension 1, whose
      vertices have one coordinate, the four cannot all have positive size. */
  function Polygon(): Topology {
    Topology([[0, 3], [0, 1], [1, 2], [3, 2]], Graph([0, 2, 4, 6, 8], [0, 1, 1, 2, 2, 3, 0, 3]),
      [false, false, false, false])
  }

  lemma PolygonRow(g: Graph, s: nat)
    requires g == Polygon().sideElems && s < 4
    ensures g.Row(s) == if s == 3 then [0, 3] else [s, s + 1]
  {
    var i: nat := 2 * s;
    assert g.a2ab[s] == i && g.a2ab[s + 1] == i + 2;
    assert g.ab2b[i..i + 2] == [g.ab2b[i], g.ab2b[i + 1]];
  }

  lemma PolygonSides(t: Topology, s: nat)
    requires t == Polygon() && s < 4
    ensures t.sideElems.Row(s) == if s == 3 then [0, 3] else [s, s + 1]
    ensures t.SideIsShared(s)
  {
    PolygonRow(t.sideElems, s);
    hide Graph.Row;
    forall e | 0 <= e < 4
      ensures e in t.sideElems.Row(s) <==> s in t.elemSides[e]
    {
      assert t.elemSides[e] == [t.elemSides[e][0], t.elemSides[e][1]];
    }
  }

  lemma PolygonIsValid(t: Topology)
    requires t == Polygon()
    ensures t.Valid(2)
  {
    forall s: nat
      ensures t.SideIsShared(s)
    {
      if s < 4 {
        PolygonSides(t, s);
      }
    }
    forall i
      ensures IsOffsetStep(t.sideElems.a2ab, i)
    {
      assert 0 <= i < 4 ==> t.sideElems.a2ab[i] == 2 * i && t.sideElems.a2ab[i + 1] == 2 * i + 2;
    }
  }

  lemma {:induction false} AcrossTwo(t: Topology, a: nat, b: nat, e: nat)
    requires t.IsOpenSide(a) && t.IsOpenSide(b)
    ensures t.Across([a, b], e) == [t.Other(a, e), t.Other(b, e)]
  {
    assert [a, b][..1] == [a] && [a][..0] == [];
    assert t.Across([a], e) == t.Across([], e) + [t.Other(a, e)];
  }

  /** The ring is the graph of this polygon. */
  lemma {:induction false} PolygonHasRing(t: Topology, e: nat)
    requires t == Polygon() && e < 4
    ensures t.Across(t.elemSides[e], e) == Ring().rows[e]
  {
    hide Topology.SideIsShared, Graph.Row;
    var first, second := t.elemSides[e][0], t.elemSides[e][1];
    PolygonSides(t, first);
    PolygonSides(t, second);
    AcrossTwo(t, first, second, e);
    assert t.elemSides[e] == [first, second];
  }

  function Alternating(a: real): seq<real> {
    [a, -a, a, -a]
  }

  lemma RingIsValid()
    ensures Ring().Valid()
  {
    var net := Ring();
    forall e: nat
      ensures net.IsRow(e)
    {
      assert e < 4 ==> net.rows[e] == [1, 3] || net.rows[e] == [0, 2];
    }
    forall e: nat, o: nat
      ensures net.IsSymmetric(e, o)
    {
      assert multiset([1, 3]) == multiset{1, 3} && multiset([0, 2]) == multiset{0, 2};
    }
  }

  lemma RingStep(e: nat, a: real)
    requires e < 4 && Ring().Valid()
    ensures Ring().DensityAt(e, Alternating(a)) == -Alternating(a)[e]
  {
    var net, x := Ring(), Alternating(a);
    net.RowIsFrom(e);
    var row := net.rows[e];
    assert row == [row[0]] + [row[1]] && row[..1] == [row[0]] && row[..1][..0] == [];
    assert net.Inflow(row[..1], e, x) == net.Inflow([], e, x) + net.Gain(e, row[0], x);
    assert net.Inflow(row, e, x) == net.Inflow(row[..1], e, x) + net.Gain(e, row[1], x);
    assert net.Factor(e, row[0]) == 0.5 && net.Factor(e, row[1]) == 0.5;
  }

  lemma RingAlternates(k: nat) returns (a: real)
    requires Ring().Valid()
    ensures a == (if k % 2 == 0 then 1.0 else -1.0) && Ring().Iterated(Alternating(1.0), k) == Alternating(a)
  {
    a := 1.0;
    if k > 0 {
      var b := RingAlternates(k - 1);
      RingTurns(b);
      a := -b;
    }
  }

  lemma RingTurns(a: real)
    requires Ring().Valid()
    ensures Ring().Diffused(Alternating(a)) == Alternating(-a)
  {
    forall e | 0 <= e < 4
      ensures Ring().Diffused(Alternating(a))[e] == Alternating(-a)[e]
    {
      RingStep(e, a);
    }
  }

  /** The mean is 0, yet no number of steps gets below the largest value: this ring, which is the graph of a
      polygon, has no element that can rest. */
  lemma {:induction false} LoopMayNotEnd(tolerance: real, k: nat)
    requires 0.0 <= tolerance < 1.0
    ensures Polygon().Valid(2)
    ensures forall e: nat :: e < 4 ==> Polygon().Across(Polygon().elemSides[e], e) == Ring().rows[e]
    ensures Ring().Valid() && Ring().Total({0, 1, 2, 3}, Alternating(1.0)) == 0.0
    ensures forall e :: !CanRest(Ring(), e)
    ensures !AllBounded(Ring().Iterated(Alternating(1.0), k), tolerance)
  {
    hide Net.Valid, Topology.Valid, Net.Iterated;
    PolygonIsValid(Polygon());
    forall e: nat | e < 4
      ensures Polygon().Across(Polygon().elemSides[e], e) == Ring().rows[e]
    {
      PolygonHasRing(Polygon(), e);
    }
    RingIsValid();
    RingTotal();
    var a := RingAlternates(k);
    assert Abs(Alternating(a)[0]) == 1.0;
  }

  lemma RingTotal()
    ensures Ring().Total({0, 1, 2, 3}, Alternating(1.0)) == 0.0
  {
    var f := Ring().Content({0, 1, 2, 3}, Alternating(1.0));
    SumStarts(f);
    SumGrows(0, f);
    SumGrows(1, f);
    SumGrows(2, f);
    SumGrows(3, f);
  }
}
