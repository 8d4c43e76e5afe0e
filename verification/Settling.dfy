/** Bounds of a diffusing density: no step leaves the range of values, and where the density can settle it
    approaches its mean, so that the loop of `diffuse_densities` ends. */
module Settling {
  import opened Diffusion

  /** How far the neighbours are above `lo`, as far as it is taken over. */
  ghost function Lift(net: Net, row: seq<nat>, e: nat, x: seq<real>, lo: real): real
    requires net.IsFrom(row, e) && |x| == |net.rows|
  {
    if row == [] then 0.0
    else
      var n := |row| - 1;
      Lift(net, row[..n], e, x, lo) + Part(net, e, row[n], x, lo)
  }

  ghost function Part(net: Net, e: nat, o: nat, x: seq<real>, lo: real): real
    requires net.IsFrom([], e) && |x| == |net.rows| && o < |x| && net.sizes[e] > 0.0
  {
    (x[o] - lo) * net.Factor(e, o)
  }

  ghost function TakenShare(net: Net, row: seq<nat>, e: nat): real
    requires net.IsFrom(row, e)
  {
    if row == [] then 0.0
    else
      var n := |row| - 1;
      TakenShare(net, row[..n], e) + net.Factor(e, row[n])
  }

  lemma FactorIsShare(s: real, m: real, deg: real) returns (f: real)
    requires s > 0.0 && 0.0 < m <= s && deg > 0.0
    ensures f == m / (s * deg) && 0.0 < f <= 1.0 / deg
  {
    var p := s * deg;
    f := m / p;
    var u := 1.0 / deg;
    UnitTimes(s, deg, u, p);
    Quotients(m, s, p, f, u);
  }

  lemma UnitTimes(s: real, deg: real, u: real, p: real)
    requires deg > 0.0 && s > 0.0 && u == 1.0 / deg && p == s * deg
    ensures u * p == s && p > 0.0
  {
    assert u * deg == 1.0;
    assert u * p == s * (u * deg);
  }

  lemma Quotients(m: real, s: real, p: real, f: real, u: real)
    requires p > 0.0 && 0.0 < m <= s && f == m / p && u * p == s
    ensures 0.0 < f <= u
  {
    assert f * p == m;
    Cancelled(0.0, f, p);
    Cancelled(f, u, p);
  }

  lemma Cancelled(x: real, y: real, p: real)
    requires p > 0.0
    ensures x * p <= y * p ==> x <= y
    ensures x * p < y * p ==> x < y
  {
    assert (x - y) * p == x * p - y * p;
  }

  lemma NoProduct(x: real, y: real)
    requires x >= 0.0 && y > 0.0
    ensures x * y >= 0.0 && (x > 0.0 ==> x * y > 0.0)
  {
  }

  lemma FactorBounds(net: Net, e: nat, o: nat) returns (f: real)
    requires net.IsFrom([], e) && o < |net.rows| && net.sizes[e] > 0.0 && net.sizes[o] > 0.0
    ensures f == net.Factor(e, o) && 0.0 < f <= 1.0 / net.maxDeg as real
  {
    f := FactorIsShare(net.sizes[e], Min(net.sizes[e], net.sizes[o]), net.maxDeg as real);
  }

  lemma InflowSplits(net: Net, row: seq<nat>, e: nat, x: seq<real>, lo: real)
    returns (lift: real, share: real)
    requires net.IsFrom(row, e) && |x| == |net.rows|
    ensures lift == Lift(net, row, e, x, lo) && share == TakenShare(net, row, e)
    ensures net.Inflow(row, e, x) == lift - share * (x[e] - lo)
    decreases |row|
  {
    lift, share := Lift(net, row, e, x, lo), TakenShare(net, row, e);
    if row != [] {
      var n := |row| - 1;
      var lift', share' := InflowSplits(net, row[..n], e, x, lo);
      var gain, part := GainSplits(net, e, row[n], x, lo, share', share);
    }
  }

  lemma GainSplits(net: Net, e: nat, o: nat, x: seq<real>, lo: real, share: real, share': real)
    returns (gain: real, part: real)
    requires net.IsFrom([], e) && |x| == |net.rows| && o < |x| && net.sizes[e] > 0.0
    requires share' == share + net.Factor(e, o)
    ensures gain == net.Gain(e, o, x) && part == Part(net, e, o, x, lo)
    ensures gain == part - share' * (x[e] - lo) + share * (x[e] - lo)
  {
    var f := net.Factor(e, o);
    gain, part := (x[o] - x[e]) * f, (x[o] - lo) * f;
    Above(x[o], x[e], lo, f, share, share');
  }

  lemma Above(xo: real, xe: real, lo: real, f: real, share: real, share': real)
    requires share' == share + f
    ensures (xo - xe) * f == (xo - lo) * f - share' * (xe - lo) + share * (xe - lo)
  {
  }

  lemma ShareIsPartial(net: Net, row: seq<nat>, e: nat) returns (unit: real, bound: real)
    requires net.IsFrom(row, e)
    ensures unit == 1.0 / net.maxDeg as real && bound == |row| as real * unit
    ensures 0.0 <= TakenShare(net, row, e) <= bound
    decreases |row|
  {
    unit := 1.0 / net.maxDeg as real;
    bound := |row| as real * unit;
    if row != [] {
      var n := |row| - 1;
      var u, b := ShareIsPartial(net, row[..n], e);
      var f := FactorBounds(net, e, row[n]);
      assert |row| as real == n as real + 1.0;
      assert bound == b + unit;
    }
  }

  /** The share of its own density that an element keeps. */
  ghost function Rest(net: Net, e: nat): real
    requires net.Valid() && e < |net.rows|
  {
    net.RowIsFrom(e);
    1.0 - TakenShare(net, net.rows[e], e)
  }

  lemma Fraction(k: nat, n: nat, unit: real, bound: real)
    requires 0 < n && k <= n && unit == 1.0 / n as real && bound == k as real * unit
    ensures bound <= 1.0 && (k < n ==> bound < 1.0)
  {
    assert n as real * unit == 1.0;
    NoProduct(n as real - k as real, unit);
    assert (n as real - k as real) * unit == 1.0 - k as real * unit;
  }

  lemma RestIsNotNegative(net: Net, e: nat)
    requires net.Valid() && e < |net.rows|
    ensures 0.0 <= Rest(net, e) <= 1.0
    ensures |net.rows[e]| < net.maxDeg ==> Rest(net, e) > 0.0
  {
    net.RowIsFrom(e);
    var taken := TakenIsPartial(net, net.rows[e], e);
  }

  lemma TakenIsPartial(net: Net, row: seq<nat>, e: nat) returns (taken: real)
    requires net.IsFrom(row, e) && |row| <= net.maxDeg
    ensures taken == TakenShare(net, row, e) && 0.0 <= taken <= 1.0 && (|row| < net.maxDeg ==> taken < 1.0)
  {
    taken := TakenShare(net, row, e);
    var unit, bound := ShareIsPartial(net, row, e);
    Fraction(|row|, net.maxDeg, unit, bound);
  }

  ghost predicate AllAbove(x: seq<real>, lo: real, row: seq<nat>) {
    forall i :: 0 <= i < |row| && row[i] < |x| ==> x[row[i]] >= lo
  }

  lemma {:induction false} LiftIsNotNegative(net: Net, row: seq<nat>, e: nat, x: seq<real>, lo: real)
    requires net.IsFrom(row, e) && |x| == |net.rows| && AllAbove(x, lo, row)
    ensures Lift(net, row, e, x, lo) >= 0.0
    decreases |row|
  {
    if row != [] {
      var n := |row| - 1;
      assert AllAbove(x, lo, row[..n]);
      LiftIsNotNegative(net, row[..n], e, x, lo);
      var part := PartIsNotNegative(net, e, row[n], x, lo);
    }
  }

  lemma LiftHas(net: Net, row: seq<nat>, e: nat, x: seq<real>, lo: real, i: nat) returns (part: real)
    requires net.IsFrom(row, e) && |x| == |net.rows| && AllAbove(x, lo, row) && i < |row|
    ensures part == Part(net, e, row[i], x, lo) && Lift(net, row, e, x, lo) >= part
    decreases |row|
  {
    var n := |row| - 1;
    var front, o := row[..n], row[n];
    assert AllAbove(x, lo, front);
    var last := PartIsNotNegative(net, e, o, x, lo);
    if i < n {
      part := LiftHas(net, front, e, x, lo, i);
    } else {
      LiftIsNotNegative(net, front, e, x, lo);
      part := last;
    }
  }

  lemma PartIsNotNegative(net: Net, e: nat, o: nat, x: seq<real>, lo: real) returns (part: real)
    requires net.IsFrom([], e) && |x| == |net.rows| && o < |x| && net.sizes[e] > 0.0 && net.sizes[o] > 0.0
    requires x[o] >= lo
    ensures part == Part(net, e, o, x, lo) >= 0.0
  {
    var f := FactorBounds(net, e, o);
    part := (x[o] - lo) * f;
    NoProduct(x[o] - lo, f);
  }

  /** The new density is above `lo` by what is kept and what is taken over. */
  lemma DensitySplits(net: Net, e: nat, x: seq<real>, lo: real)
    returns (lift: real, rest: real, d: real, kept: real)
    requires net.Valid() && e < |net.rows| == |x| && net.IsFrom(net.rows[e], e)
    ensures lift == Lift(net, net.rows[e], e, x, lo) && rest == Rest(net, e) && d == x[e] - lo && kept == rest * d
    ensures net.DensityAt(e, x) - lo == kept + lift
  {
    net.RowIsFrom(e);
    var share;
    lift, share := InflowSplits(net, net.rows[e], e, x, lo);
    rest := 1.0 - share;
    d := x[e] - lo;
    kept := rest * d;
    Kept(share, d, rest);
  }

  lemma Kept(share: real, d: real, rest: real)
    requires rest == 1.0 - share
    ensures d - share * d == rest * d
  {
  }

  ghost predicate IsAbove(x: seq<real>, zone: set<nat>, lo: real) {
    forall e :: e in zone && e < |x| ==> x[e] >= lo
  }

  ghost predicate IsBelow(x: seq<real>, zone: set<nat>, hi: real) {
    forall e :: e in zone && e < |x| ==> x[e] <= hi
  }

  /** The element keeps some of its own density. */
  ghost predicate CanKeep(net: Net, e: nat) {
    net.Valid() && e < |net.rows| && Rest(net, e) > 0.0
  }

  /** All that the new density of `e` comes from is in the zone. */
  ghost predicate IsFedBy(net: Net, zone: set<nat>, e: nat) {
    && e < |net.rows| && (forall i :: 0 <= i < |net.rows[e]| ==> net.rows[e][i] in zone)
    && (CanKeep(net, e) ==> e in zone)
  }

  /** What the elements of one side are after a step comes from the other side, and the other way round. The
      two may be the same. */
  ghost predicate AreSides(net: Net, one: set<nat>, other: set<nat>) {
    && (forall e :: e in one ==> IsFedBy(net, other, e))
    && (forall e :: e in other ==> IsFedBy(net, one, e))
  }

  /** Where the one side has gone after `k` steps. */
  ghost function SideAt(one: set<nat>, other: set<nat>, k: nat): set<nat> {
    if k % 2 == 0 then one else other
  }

  lemma SidesTurn(net: Net, one: set<nat>, other: set<nat>, k: nat)
    requires AreSides(net, one, other)
    ensures SideAt(one, other, k + 1) == SideAt(other, one, k)
    ensures forall e :: e in SideAt(one, other, k + 1) ==> IsFedBy(net, SideAt(one, other, k), e)
  {
  }

  lemma FedFromAbove(net: Net, zone: set<nat>, x: seq<real>, lo: real, e: nat)
    requires net.Valid() && IsFedBy(net, zone, e) && |x| == |net.rows| && IsAbove(x, zone, lo)
    ensures AllAbove(x, lo, net.rows[e]) && (CanKeep(net, e) ==> x[e] >= lo)
  {
    forall i | 0 <= i < |net.rows[e]|
      ensures net.rows[e][i] < |x| && x[net.rows[e][i]] >= lo
    {
      var o := net.NeighbourIs(e, i);
    }
  }

  lemma StepAt(net: Net, zone: set<nat>, x: seq<real>, lo: real, e: nat)
    returns (rest: real, d: real, kept: real)
    requires net.Valid() && IsFedBy(net, zone, e) && |x| == |net.rows| && IsAbove(x, zone, lo)
    ensures e < |x| && net.DensityAt(e, x) >= lo && rest == Rest(net, e) && d == x[e] - lo && kept == rest * d
    ensures net.DensityAt(e, x) - lo >= kept >= 0.0
  {
    hide Net.Factor, Net.DensityAt, Lift, Part, Rest, Net.IsSymmetric, IsAbove;
    net.RowIsFrom(e);
    var lift;
    lift, rest, d, kept := DensitySplits(net, e, x, lo);
    FedFromAbove(net, zone, x, lo, e);
    LiftIsNotNegative(net, net.rows[e], e, x, lo);
    RestIsNotNegative(net, e);
    KeepsNothing(rest, d);
  }

  lemma KeepsNothing(rest: real, d: real)
    requires rest >= 0.0 && (rest > 0.0 ==> d >= 0.0)
    ensures rest * d >= 0.0
  {
    if rest > 0.0 {
      Grows(rest, d);
    } else {
      assert rest == 0.0;
    }
  }

  lemma Grows(rest: real, d: real)
    requires rest >= 0.0 && d >= 0.0
    ensures rest * d >= 0.0
  {
  }

  lemma StepTakes(net: Net, zone: set<nat>, x: seq<real>, lo: real, e: nat, i: nat)
    returns (o: nat, part: real)
    requires net.Valid() && IsFedBy(net, zone, e) && |x| == |net.rows| && IsAbove(x, zone, lo)
    requires i < |net.rows[e]|
    ensures e < |x| && o == net.rows[e][i] && o < |x| && net.sizes[e] > 0.0 && net.sizes[o] > 0.0
    ensures net.IsFrom([], e) && part == Part(net, e, o, x, lo) && net.DensityAt(e, x) - lo >= part
  {
    hide Net.Factor, Net.DensityAt, Lift, Part, Rest, Net.IsSymmetric, IsAbove;
    o := net.NeighbourIs(e, i);
    net.RowIsFrom(e);
    var lift, rest, d, kept := DensitySplits(net, e, x, lo);
    FedFromAbove(net, zone, x, lo, e);
    part := LiftHas(net, net.rows[e], e, x, lo, i);
    RestIsNotNegative(net, e);
    KeepsNothing(rest, d);
  }

  /** After a step the one side is not below what the other was before. */
  lemma StepStaysAbove(net: Net, before: set<nat>, after: set<nat>, x: seq<real>, lo: real)
    requires net.Valid() && |x| == |net.rows| && IsAbove(x, before, lo)
    requires forall e :: e in after ==> IsFedBy(net, before, e)
    ensures IsAbove(net.Diffused(x), after, lo)
  {
    forall e | e in after
      ensures e < |x| && net.Diffused(x)[e] >= lo
    {
      var _, _, _ := StepAt(net, before, x, lo, e);
    }
  }

  lemma {:induction false} StepsStayAbove(
      net: Net, one: set<nat>, other: set<nat>, x: seq<real>, lo: real, k: nat)
    requires net.Valid() && AreSides(net, one, other) && |x| == |net.rows| && IsAbove(x, one, lo)
    ensures IsAbove(net.Iterated(x, k), SideAt(one, other, k), lo)
  {
    hide IsAbove, AreSides, Net.Valid;
    if k > 0 {
      StepsStayAbove(net, one, other, x, lo, k - 1);
      SidesTurn(net, one, other, k - 1);
      StepStaysAbove(net, SideAt(one, other, k - 1), SideAt(one, other, k), net.Iterated(x, k - 1), lo);
    }
  }

  // ----- the same from above: diffusion commutes with a change of sign -----

  ghost function Negative(x: seq<real>): (y: seq<real>)
    ensures |y| == |x| && forall e :: 0 <= e < |x| ==> y[e] == -x[e]
  {
    seq(|x|, e requires 0 <= e < |x| => -x[e])
  }

  lemma {:induction false} InflowOfNegative(net: Net, row: seq<nat>, e: nat, x: seq<real>)
    requires net.IsFrom(row, e) && |x| == |net.rows|
    ensures net.Inflow(row, e, Negative(x)) == -net.Inflow(row, e, x)
    decreases |row|
  {
    if row != [] {
      var n := |row| - 1;
      InflowOfNegative(net, row[..n], e, x);
      var f := FactorBounds(net, e, row[n]);
      NegativeGain(x[row[n]], x[e], f);
    }
  }

  lemma NegativeGain(xo: real, xe: real, f: real)
    ensures (-xo - -xe) * f == -((xo - xe) * f)
  {
  }

  lemma {:induction false} IteratedNegative(net: Net, x: seq<real>, k: nat)
    requires net.Valid() && |x| == |net.rows|
    ensures net.Iterated(Negative(x), k) == Negative(net.Iterated(x, k))
  {
    if k > 0 {
      IteratedNegative(net, x, k - 1);
      var y := net.Iterated(x, k - 1);
      forall e | 0 <= e < |x|
        ensures net.Diffused(Negative(y))[e] == Negative(net.Diffused(y))[e]
      {
        net.RowIsFrom(e);
        InflowOfNegative(net, net.rows[e], e, y);
      }
    }
  }

  lemma {:induction false} StepsStayBelow(
      net: Net, one: set<nat>, other: set<nat>, x: seq<real>, hi: real, k: nat)
    requires net.Valid() && AreSides(net, one, other) && |x| == |net.rows| && IsBelow(x, one, hi)
    ensures IsBelow(net.Iterated(x, k), SideAt(one, other, k), hi)
  {
    StepsStayAbove(net, one, other, Negative(x), -hi, k);
    IteratedNegative(net, x, k);
    var y := net.Iterated(x, k);
    forall e | e in SideAt(one, other, k) && e < |y|
      ensures y[e] <= hi
    {
      assert Negative(y)[e] == -y[e];
    }
  }

  // ----- approaching the mean -----

  ghost function Pow(w: real, k: nat): real {
    if k == 0 then 1.0 else w * Pow(w, k - 1)
  }

  lemma {:induction false} PowIsFraction(w: real, k: nat)
    requires 0.0 <= w <= 1.0
    ensures 0.0 <= Pow(w, k) <= 1.0 && (w > 0.0 ==> Pow(w, k) > 0.0)
  {
    if k > 0 {
      var p := Pow(w, k - 1);
      PowIsFraction(w, k - 1);
      FractionTimes(w, p);
      assert Pow(w, k) == w * p;
    }
  }

  lemma FractionTimes(w: real, p: real)
    requires 0.0 <= w <= 1.0 && 0.0 <= p <= 1.0
    ensures 0.0 <= w * p <= 1.0 && (w > 0.0 && p > 0.0 ==> w * p > 0.0)
  {
    Grows(w, p);
    Grows(1.0 - w, p);
    assert (1.0 - w) * p == p - w * p;
    if w > 0.0 {
      NoProduct(p, w);
    }
  }

  /** A walk of exactly `k` steps over neighbours, and over elements that keep some of their own. */
  ghost predicate Walks(net: Net, e: nat, root: nat, k: nat)
    decreases k
  {
    if k == 0 then e == root
    else
      || (CanKeep(net, e) && Walks(net, e, root, k - 1))
      || (e < |net.rows| && exists i :: 0 <= i < |net.rows[e]| && Walks(net, net.rows[e][i], root, k - 1))
  }

  /** `w` is at most what any element takes over from a neighbour, and what any keeps that keeps something. */
  ghost predicate TakesAtLeast(net: Net, e: nat, i: nat, w: real) {
    net.Valid() && e < |net.rows| && i < |net.rows[e]| ==>
      var o := net.rows[e][i];
      o < |net.rows| && net.sizes[e] > 0.0 && net.Factor(e, o) >= w
  }

  ghost predicate KeepsAtLeast(net: Net, e: nat, w: real) {
    CanKeep(net, e) ==> Rest(net, e) >= w
  }

  ghost predicate IsPace(net: Net, w: real) {
    && 0.0 < w <= 1.0 && net.Valid()
    && (forall e: nat {:trigger KeepsAtLeast(net, e, w)} :: KeepsAtLeast(net, e, w))
    && forall e: nat, i: nat {:trigger TakesAtLeast(net, e, i, w)} :: TakesAtLeast(net, e, i, w)
  }

  lemma PaceOfRow(net: Net, e: nat, n: nat) returns (w: real)
    requires net.Valid() && e < |net.rows| && n <= |net.rows[e]|
    ensures 0.0 < w <= 1.0 && forall i: nat :: i < n ==> TakesAtLeast(net, e, i, w)
  {
    w := 1.0;
    if n > 0 {
      var v := PaceOfRow(net, e, n - 1);
      var o := net.NeighbourIs(e, n - 1);
      net.RowIsFrom(e);
      var f := FactorBounds(net, e, o);
      w := Min(v, f);
      forall i: nat | i < n
        ensures TakesAtLeast(net, e, i, w)
      {
        assert i < n - 1 ==> TakesAtLeast(net, e, i, v);
      }
    }
  }

  lemma PaceOfAll(net: Net, n: nat) returns (w: real)
    requires net.Valid() && n <= |net.rows|
    ensures 0.0 < w <= 1.0 && forall e: nat, i: nat :: e < n ==> TakesAtLeast(net, e, i, w)
  {
    w := 1.0;
    if n > 0 {
      var v := PaceOfAll(net, n - 1);
      var u := PaceOfRow(net, n - 1, |net.rows[n - 1]|);
      w := Min(u, v);
      forall e: nat, i: nat | e < n
        ensures TakesAtLeast(net, e, i, w)
      {
        assert e < n - 1 ==> TakesAtLeast(net, e, i, v);
        assert i < |net.rows[n - 1]| ==> TakesAtLeast(net, n - 1, i, u);
      }
    }
  }

  lemma KeptByAll(net: Net, n: nat) returns (w: real)
    requires net.Valid() && n <= |net.rows|
    ensures 0.0 < w <= 1.0 && forall e: nat :: e < n ==> KeepsAtLeast(net, e, w)
  {
    w := 1.0;
    if n > 0 {
      var v := KeptByAll(net, n - 1);
      w := if CanKeep(net, n - 1) then Min(v, Rest(net, n - 1)) else v;
      forall e: nat | e < n
        ensures KeepsAtLeast(net, e, w)
      {
        assert e < n - 1 ==> KeepsAtLeast(net, e, v);
      }
    }
  }

  lemma PaceExists(net: Net) returns (w: real)
    requires net.Valid()
    ensures IsPace(net, w)
  {
    var u := KeptByAll(net, |net.rows|);
    var v := PaceOfAll(net, |net.rows|);
    w := Min(u, v);
    forall e: nat
      ensures KeepsAtLeast(net, e, w)
    {
      assert e < |net.rows| ==> KeepsAtLeast(net, e, u);
    }
    forall e: nat, i: nat
      ensures TakesAtLeast(net, e, i, w)
    {
      assert e < |net.rows| ==> TakesAtLeast(net, e, i, v);
    }
  }

  ghost function Faded(w: real, k: nat, d: real): real {
    if k == 0 then d else w * Faded(w, k - 1, d)
  }

  lemma {:induction false} FadedIs(w: real, k: nat, d: real)
    ensures Faded(w, k, d) == Pow(w, k) * d
  {
    if k == 0 {
      assert Pow(w, 0) * d == d;
    } else {
      FadedIs(w, k - 1, d);
      Associates(w, Pow(w, k - 1), d);
    }
  }

  lemma Slower(w: real, f: real, d: real, b: real, b': real)
    requires 0.0 < w <= f && b == w * b' && d >= b' >= 0.0
    ensures d * f >= b && f * d >= b && b >= 0.0
  {
    Grows(d, f - w);
    Grows(w, d - b');
    Grows(w, b');
    assert d * f == d * (f - w) + d * w;
    assert w * (d - b') == d * w - w * b';
  }

  lemma Keeps(
      net: Net, zone: set<nat>, y: seq<real>, lo: real, w: real, e: nat, b: real, b': real)
    requires net.Valid() && IsFedBy(net, zone, e) && |y| == |net.rows| && IsAbove(y, zone, lo)
    requires CanKeep(net, e) && 0.0 < w && KeepsAtLeast(net, e, w)
    requires b == w * b' && y[e] - lo >= b' >= 0.0
    ensures net.DensityAt(e, y) - lo >= b >= 0.0
  {
    var rest, d, kept := StepAt(net, zone, y, lo, e);
    Slower(w, rest, d, b, b');
  }

  lemma TakesOver(
      net: Net, zone: set<nat>, y: seq<real>, lo: real, w: real, e: nat, i: nat, b: real, b': real)
    requires net.Valid() && 0.0 < w && TakesAtLeast(net, e, i, w) && IsFedBy(net, zone, e) && |y| == |net.rows|
    requires IsAbove(y, zone, lo) && i < |net.rows[e]| && net.rows[e][i] < |y|
    requires b == w * b' && y[net.rows[e][i]] - lo >= b' >= 0.0
    ensures net.DensityAt(e, y) - lo >= b >= 0.0
  {
    var o, part := StepTakes(net, zone, y, lo, e, i);
    var f := net.Factor(e, o);
    Slower(w, f, y[o] - lo, b, b');
  }

  ghost predicate IsLifted(net: Net, zone: set<nat>, y: seq<real>, lo: real, root: nat, k: nat, b: real) {
    forall e :: e in zone && e < |y| && Walks(net, e, root, k) ==> y[e] - lo >= b
  }

  lemma ScaledIsNotNegative(w: real, b: real, b': real)
    requires w > 0.0 && b' >= 0.0 && b == w * b'
    ensures b >= 0.0
  {
    Grows(w, b');
  }

  lemma LiftsOneStep(
      net: Net, before: set<nat>, after: set<nat>, y: seq<real>, lo: real, w: real, root: nat, k: nat,
      b: real, b': real)
    requires IsPace(net, w) && |y| == |net.rows| && IsAbove(y, before, lo)
    requires forall e :: e in after ==> IsFedBy(net, before, e)
    requires IsLifted(net, before, y, lo, root, k, b') && b' >= 0.0 && b == w * b'
    ensures IsLifted(net, after, net.Diffused(y), lo, root, k + 1, b) && b >= 0.0
  {
    ScaledIsNotNegative(w, b, b');
    forall e | e in after && Walks(net, e, root, k + 1)
      ensures e < |y| && net.DensityAt(e, y) - lo >= b
    {
      assert IsFedBy(net, before, e);
      if CanKeep(net, e) && Walks(net, e, root, k) {
        assert KeepsAtLeast(net, e, w);
        Keeps(net, before, y, lo, w, e, b, b');
      } else {
        var i :| 0 <= i < |net.rows[e]| && Walks(net, net.rows[e][i], root, k);
        var o := net.NeighbourIs(e, i);
        assert TakesAtLeast(net, e, i, w);
        TakesOver(net, before, y, lo, w, e, i, b, b');
      }
    }
  }

  ghost predicate IsFadeStep(fades: seq<real>, w: real, i: int) {
    0 <= i < |fades| - 1 ==> fades[i + 1] == w * fades[i]
  }

  lemma FadeAt(fades: seq<real>, w: real, i: nat) returns (b: real, b': real)
    requires i + 1 < |fades| && forall i {:trigger IsFadeStep(fades, w, i)} :: IsFadeStep(fades, w, i)
    ensures b == fades[i + 1] && b' == fades[i] && b == w * b'
  {
    assert IsFadeStep(fades, w, i);
    b, b' := fades[i + 1], fades[i];
  }

  /** The values of `Faded`, up to `k`. */
  lemma Fades(w: real, k: nat, d: real) returns (fades: seq<real>)
    ensures |fades| == k + 1 && fades[0] == d && fades[k] == Faded(w, k, d)
    ensures forall i {:trigger IsFadeStep(fades, w, i)} :: IsFadeStep(fades, w, i)
  {
    if k == 0 {
      fades := [d];
    } else {
      var front := Fades(w, k - 1, d);
      fades := front + [w * front[k - 1]];
      forall i
        ensures IsFadeStep(fades, w, i)
      {
        assert IsFadeStep(front, w, i);
      }
    }
  }

  lemma RootIsLifted(net: Net, one: set<nat>, x: seq<real>, lo: real, root: nat, b: real)
    requires root < |x| && x[root] - lo == b
    ensures IsLifted(net, one, x, lo, root, 0, b)
  {
  }

  /** What the root is above the least value reaches every element, if slowly. */
  lemma {:induction false} RootLifts(
      net: Net, one: set<nat>, other: set<nat>, x: seq<real>, lo: real, w: real, root: nat, fades: seq<real>, k: nat)
    requires IsPace(net, w) && AreSides(net, one, other) && |x| == |net.rows| && IsAbove(x, one, lo)
    requires root in one && root < |x| && k < |fades| && fades[0] == x[root] - lo
    requires forall i {:trigger IsFadeStep(fades, w, i)} :: IsFadeStep(fades, w, i)
    ensures fades[k] >= 0.0 && IsLifted(net, SideAt(one, other, k), net.Iterated(x, k), lo, root, k, fades[k])
    decreases k
  {
    if k == 0 {
      RootIsLifted(net, one, x, lo, root, fades[0]);
    } else {
      hide Walks, AreSides, SideAt, IsLifted, IsPace, IsAbove, Net.Iterated, IsFadeStep;
      var m: nat := k - 1;
      RootLifts(net, one, other, x, lo, w, root, fades, m);
      var b, b' := FadeAt(fades, w, m);
      LiftsFurther(net, one, other, x, lo, w, root, m, b, b');
    }
  }

  lemma LiftsFurther(
      net: Net, one: set<nat>, other: set<nat>, x: seq<real>, lo: real, w: real, root: nat, k: nat, b: real, b': real)
    requires IsPace(net, w) && AreSides(net, one, other) && |x| == |net.rows| && IsAbove(x, one, lo)
    requires IsLifted(net, SideAt(one, other, k), net.Iterated(x, k), lo, root, k, b') && b' >= 0.0 && b == w * b'
    ensures IsLifted(net, SideAt(one, other, k + 1), net.Iterated(x, k + 1), lo, root, k + 1, b) && b >= 0.0
  {
    StepsStayAbove(net, one, other, x, lo, k);
    SidesTurn(net, one, other, k);
    LiftsOneStep(net, SideAt(one, other, k), SideAt(one, other, k + 1), net.Iterated(x, k), lo, w, root, k, b, b');
  }

  ghost predicate IsIn(x: seq<real>, zone: set<nat>, lo: real, hi: real) {
    IsAbove(x, zone, lo) && IsBelow(x, zone, hi)
  }

  /** From every element of the side there is a walk of exactly `k` steps to the root, and `k` is even. */
  ghost predicate AllWalk(net: Net, one: set<nat>, root: nat, k: nat) {
    k % 2 == 0 && root in one && forall e :: e in one ==> Walks(net, e, root, k)
  }

  /** The range of the values gets narrower by a fixed factor. */
  lemma RangeShrinks(
      net: Net, one: set<nat>, other: set<nat>, x: seq<real>, lo: real, hi: real, w: real, root: nat, k: nat, q: real,
      width: real)
    returns (lo': real, hi': real)
    requires IsPace(net, w) && AreSides(net, one, other) && |x| == |net.rows| && IsIn(x, one, lo, hi)
    requires AllWalk(net, one, root, k) && q == 1.0 - Pow(w, k) && width == hi - lo
    ensures IsIn(net.Iterated(x, k), one, lo', hi') && hi' - lo' == q * width
  {
    assert IsFedBy(net, other, root);
    var up, down := x[root] - lo, hi - x[root];
    var ups := Fades(w, k, up);
    var downs := Fades(w, k, down);
    var b, b' := ups[k], downs[k];
    lo', hi' := lo + b, hi - b';
    Narrower(w, k, up, down, b, b', q, width);
    var y := net.Iterated(x, k);
    IteratedNegative(net, x, k);
    assert Negative(x)[root] - -hi == down;
    RootLifts(net, one, other, x, lo, w, root, ups, k);
    RootLifts(net, one, other, Negative(x), -hi, w, root, downs, k);
    forall e | e in one && e < |y|
      ensures lo' <= y[e] <= hi'
    {
      assert Walks(net, e, root, k);
      assert Negative(y)[e] == -y[e];
    }
  }

  lemma {:induction false} Narrower(w: real, k: nat, up: real, down: real, b: real, b': real, q: real,
      width: real)
    requires b == Faded(w, k, up) && b' == Faded(w, k, down) && q == 1.0 - Pow(w, k) && width == up + down
    ensures width - b - b' == q * width
  {
    FadedIs(w, k, up);
    FadedIs(w, k, down);
    Distributed(Pow(w, k), up, down);
  }

  lemma RangeShrinksAgain(
      net: Net, one: set<nat>, other: set<nat>, x: seq<real>, lo: real, hi: real, w: real, root: nat, k: nat, q: real,
      widths: seq<real>, j: nat)
    returns (steps: nat, y: seq<real>, lo': real, hi': real)
    requires IsPace(net, w) && AreSides(net, one, other) && |x| == |net.rows| && IsIn(x, one, lo, hi)
    requires AllWalk(net, one, root, k) && q == 1.0 - Pow(w, k)
    requires j < |widths| && widths[0] == hi - lo
    requires forall i {:trigger IsFadeStep(widths, q, i)} :: IsFadeStep(widths, q, i)
    ensures steps % 2 == 0 && y == net.Iterated(x, steps) && IsIn(y, one, lo', hi') && hi' - lo' == widths[j]
    decreases j
  {
    if j == 0 {
      return 0, x, lo, hi;
    }
    var s, y', l, h := RangeShrinksAgain(net, one, other, x, lo, hi, w, root, k, q, widths, j - 1);
    assert IsFadeStep(widths, q, j - 1);
    steps, y, lo', hi' := RangeShrinksFurther(net, one, other, x, s, y', l, h, w, root, k, q, widths[j - 1]);
  }

  lemma StepsAreEven(net: Net, one: set<nat>, root: nat, k: nat)
    requires AllWalk(net, one, root, k)
    ensures k % 2 == 0
  {
  }

  lemma RangeShrinksFurther(
      net: Net, one: set<nat>, other: set<nat>, x: seq<real>, s: nat, y': seq<real>, lo: real, hi: real, w: real,
      root: nat, k: nat, q: real, width: real)
    returns (steps: nat, y: seq<real>, lo': real, hi': real)
    requires IsPace(net, w) && AreSides(net, one, other) && |x| == |net.rows| && IsIn(y', one, lo, hi) && s % 2 == 0
    requires y' == net.Iterated(x, s) && AllWalk(net, one, root, k) && q == 1.0 - Pow(w, k) && width == hi - lo
    ensures steps % 2 == 0 && y == net.Iterated(x, steps) && IsIn(y, one, lo', hi') && hi' - lo' == q * width
  {
    StepsAreEven(net, one, root, k);
    hide AreSides, AllWalk, IsIn, Net.Iterated, Pow, IsPace, Net.Valid;
    lo', hi' := RangeShrinks(net, one, other, y', lo, hi, w, root, k, q, width);
    net.IteratedTwice(x, s, k);
    steps, y := s + k, net.Iterated(y', k);
  }

  lemma Associates(x: real, y: real, z: real)
    ensures x * (y * z) == (x * y) * z
  {
  }

  lemma PowBound(c: real, j: nat)
    requires 0.0 < c <= 1.0
    ensures Pow(1.0 - c, j) * (1.0 + j as real * c) <= 1.0
  {
    if j > 0 {
      PowBound(c, j - 1);
      PowIsFraction(1.0 - c, j - 1);
      PowBoundStep(c, Pow(1.0 - c, j - 1), (j - 1) as real);
      assert j as real == (j - 1) as real + 1.0;
    }
  }

  lemma PowBoundStep(c: real, p: real, j: real)
    requires 0.0 < c <= 1.0 && p >= 0.0 && j >= 0.0 && p * (1.0 + j * c) <= 1.0
    ensures ((1.0 - c) * p) * (1.0 + (j + 1.0) * c) <= 1.0
  {
    var d := (j + 1.0) * (c * c);
    assert (1.0 - c) * (1.0 + (j + 1.0) * c) == 1.0 + j * c - d;
    Grows(c, c);
    Grows(j + 1.0, c * c);
    Grows(p, d);
    assert ((1.0 - c) * p) * (1.0 + (j + 1.0) * c) == p * (1.0 + j * c - d);
    assert p * (1.0 + j * c - d) == p * (1.0 + j * c) - p * d;
  }

  /** A fixed factor below 1 makes any width small. */
  lemma GetsSmall(c: real, width: real, eps: real) returns (j: nat)
    requires 0.0 < c <= 1.0 && width >= 0.0 && eps > 0.0
    ensures Faded(1.0 - c, j, width) <= eps
  {
    var step := c * eps;
    NoProduct(c, eps);
    var ratio := width / step;
    assert ratio * step == width;
    Cancelled(0.0, ratio, step);
    j := ratio.Floor + 1;
    var p, r := Pow(1.0 - c, j), j as real;
    PowBound(c, j);
    PowIsFraction(1.0 - c, j);
    SmallEnough(c, eps, step, ratio, width, p, r);
    FadedIs(1.0 - c, j, width);
  }

  lemma SmallEnough(c: real, eps: real, step: real, ratio: real, width: real, p: real, r: real)
    requires 0.0 < c && eps > 0.0 && step == c * eps && ratio * step == width && step > 0.0
    requires 0.0 <= ratio <= r && p >= 0.0 && p * (1.0 + r * c) <= 1.0
    ensures p * width <= eps
  {
    Grows(r - ratio, step);
    assert (r - ratio) * step == r * step - width;
    Grows(p, r * step - width);
    assert p * (r * step - width) == p * (r * step) - p * width;
    assert p * (r * step) == (p * (r * c)) * eps;
    assert p * (1.0 + r * c) == p + p * (r * c);
    Grows(1.0 - p * (r * c), eps);
    assert (1.0 - p * (r * c)) * eps == eps - (p * (r * c)) * eps;
  }
}
