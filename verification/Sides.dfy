/** Which elements a diffusing density goes between: those an even number of steps from one another, and those an
    odd number of steps away. The integral over the one side is that over the other after a step. */
module Sides {
  import opened Sums
  import opened Diffusion
  import opened Settling

  // ----- what a new density depends on -----

  ghost predicate AgreeAround(net: Net, e: nat, x: seq<real>, y: seq<real>) {
    && e < |net.rows| == |x| == |y|
    && (forall i :: 0 <= i < |net.rows[e]| && net.rows[e][i] < |x| ==> x[net.rows[e][i]] == y[net.rows[e][i]])
    && (CanKeep(net, e) ==> x[e] == y[e])
  }

  lemma {:induction false} LiftAgrees(net: Net, row: seq<nat>, e: nat, x: seq<real>, y: seq<real>)
    requires net.IsFrom(row, e) && |x| == |net.rows| == |y|
    requires forall i :: 0 <= i < |row| ==> x[row[i]] == y[row[i]]
    ensures Lift(net, row, e, x, 0.0) == Lift(net, row, e, y, 0.0)
    decreases |row|
  {
    if row != [] {
      LiftAgrees(net, row[..|row| - 1], e, x, y);
    }
  }

  lemma SameProduct(rest: real, x: real, y: real)
    requires rest == 0.0 || x == y
    ensures rest * x == rest * y
  {
  }

  lemma DensityAgrees(net: Net, e: nat, x: seq<real>, y: seq<real>)
    requires net.Valid() && AgreeAround(net, e, x, y)
    ensures net.DensityAt(e, x) == net.DensityAt(e, y)
  {
    net.RowIsFrom(e);
    RestIsNotNegative(net, e);
    LiftAgrees(net, net.rows[e], e, x, y);
    var lift, rest, d, kept := DensitySplits(net, e, x, 0.0);
    var lift', rest', d', kept' := DensitySplits(net, e, y, 0.0);
    SameProduct(rest, d, d');
  }

  lemma {:induction false} NoInflow(net: Net, row: seq<nat>, e: nat, x: seq<real>)
    requires net.IsFrom(row, e) && |x| == |net.rows| && forall i :: 0 <= i < |row| ==> x[row[i]] == x[e]
    ensures net.Inflow(row, e, x) == 0.0
    decreases |row|
  {
    if row != [] {
      NoInflow(net, row[..|row| - 1], e, x);
    }
  }

  ghost function Constant(n: nat, c: real): (x: seq<real>)
    ensures |x| == n && forall e :: 0 <= e < n ==> x[e] == c
  {
    seq(n, _ => c)
  }

  lemma ConstantStays(net: Net, e: nat, c: real)
    requires net.Valid() && e < |net.rows|
    ensures net.DensityAt(e, Constant(|net.rows|, c)) == c
  {
    net.RowIsFrom(e);
    NoInflow(net, net.rows[e], e, Constant(|net.rows|, c));
  }

  // ----- the integral over one side -----

  /** The density where it is in the zone. */
  ghost function Masked(x: seq<real>, zone: set<nat>): (y: seq<real>)
    ensures |y| == |x| && forall e: nat :: e < |x| ==> y[e] == if e in zone then x[e] else 0.0
  {
    seq(|x|, (e: nat) => if e in zone && e < |x| then x[e] else 0.0)
  }

  lemma IsNeighbourToo(net: Net, e: nat, i: nat) returns (o: nat, j: nat)
    requires net.Valid() && e < |net.rows| && i < |net.rows[e]|
    ensures o == net.rows[e][i] && o < |net.rows| && j < |net.rows[o]| && net.rows[o][j] == e
  {
    o := net.NeighbourIs(e, i);
    assert net.IsSymmetric(e, o);
    assert o in net.rows[e];
    assert multiset(net.rows[o])[e] > 0;
    assert e in net.rows[o];
    j :| j < |net.rows[o]| && net.rows[o][j] == e;
  }

  lemma NothingFromOutside(net: Net, one: set<nat>, other: set<nat>, x: seq<real>, e: nat)
    requires net.Valid() && AreSides(net, one, other) && |x| == |net.rows| && e < |x| && e !in other
    ensures net.DensityAt(e, Masked(x, one)) == 0.0
  {
    var y := Masked(x, one);
    forall i | 0 <= i < |net.rows[e]|
      ensures net.rows[e][i] < |x| && y[net.rows[e][i]] == 0.0
    {
      var o, j := IsNeighbourToo(net, e, i);
      assert o in one ==> IsFedBy(net, other, o);
    }
    assert e in one ==> IsFedBy(net, other, e);
    DensityAgrees(net, e, y, Constant(|x|, 0.0));
    ConstantStays(net, e, 0.0);
  }

  /** What is on one side goes to the other. */
  lemma MaskedDiffuses(net: Net, one: set<nat>, other: set<nat>, x: seq<real>)
    requires net.Valid() && AreSides(net, one, other) && |x| == |net.rows|
    ensures net.Diffused(Masked(x, one)) == Masked(net.Diffused(x), other)
  {
    var y := Masked(x, one);
    forall e: nat | e < |x|
      ensures net.DensityAt(e, y) == if e in other then net.DensityAt(e, x) else 0.0
    {
      if e in other {
        assert IsFedBy(net, one, e);
        DensityAgrees(net, e, y, x);
      } else {
        NothingFromOutside(net, one, other, x, e);
      }
    }
  }

  ghost function Everything(net: Net): set<nat> {
    set e: nat | e < |net.rows| && IsElement(net, e)
  }

  ghost predicate IsElement(net: Net, e: nat) {
    e < |net.rows|
  }

  lemma EverythingIsZone(net: Net)
    requires net.Valid()
    ensures net.IsZone(Everything(net))
  {
    forall e, i | e in Everything(net) && 0 <= i < |net.rows[e]|
      ensures net.rows[e][i] in Everything(net)
    {
      assert net.IsRow(e) && IsElement(net, net.rows[e][i]);
    }
  }

  lemma TotalOfMasked(net: Net, zone: set<nat>, x: seq<real>)
    requires net.Valid() && |x| == |net.rows|
    ensures net.Total(Everything(net), Masked(x, zone)) == net.Total(zone, x)
  {
    var f, g := net.Content(Everything(net), Masked(x, zone)), net.Content(zone, x);
    forall e | 0 <= e < |net.rows|
      ensures f(e) == g(e)
    {
      assert net.sizes[e] * 0.0 == 0.0;
    }
    SumEqual(|net.rows|, f, g);
  }

  /** After a step the integral over the one side is what it was over the other. */
  lemma SidesExchange(net: Net, one: set<nat>, other: set<nat>, x: seq<real>)
    requires net.Valid() && AreSides(net, one, other) && |x| == |net.rows|
    ensures net.Total(other, net.Diffused(x)) == net.Total(one, x)
  {
    EverythingIsZone(net);
    net.StepConserves(Everything(net), Masked(x, one));
    MaskedDiffuses(net, one, other, x);
    TotalOfMasked(net, one, x);
    TotalOfMasked(net, other, net.Diffused(x));
  }

  lemma {:induction false} SidesConserve(net: Net, one: set<nat>, other: set<nat>, x: seq<real>, k: nat)
    requires net.Valid() && AreSides(net, one, other) && |x| == |net.rows|
    ensures net.Total(SideAt(one, other, k), net.Iterated(x, k)) == net.Total(one, x)
  {
    if k > 0 {
      SidesConserve(net, one, other, x, k - 1);
      if k % 2 == 1 {
        SidesExchange(net, one, other, net.Iterated(x, k - 1));
      } else {
        SidesExchange(net, other, one, net.Iterated(x, k - 1));
      }
    }
  }

  // ----- the mean of a zone -----

  ghost function SizeIn(net: Net, zone: set<nat>): int -> real {
    (e: int) => if 0 <= e < |net.sizes| && e in zone then net.sizes[e] else 0.0
  }

  ghost function Size(net: Net, zone: set<nat>): real {
    Sum(|net.rows|, SizeIn(net, zone))
  }

  ghost function Excess(net: Net, zone: set<nat>, x: seq<real>, lo: real): int -> real {
    (e: int) => if 0 <= e < |net.sizes| && e < |x| && e in zone then net.sizes[e] * (x[e] - lo) else 0.0
  }

  lemma TotalIsAbove(net: Net, zone: set<nat>, x: seq<real>, lo: real)
    requires net.Valid() && |x| == |net.rows| && IsAbove(x, zone, lo)
    ensures net.Total(zone, x) >= lo * Size(net, zone)
  {
    var n, excess := |x|, Excess(net, zone, x, lo);
    forall e | 0 <= e < n
      ensures net.Content(zone, x)(e) == 1.0 * excess(e) + lo * SizeIn(net, zone)(e) && excess(e) >= 0.0
    {
      if e in zone {
        Grows(net.sizes[e], x[e] - lo);
        Shift(net.sizes[e], x[e], lo);
      }
    }
    SumAdds(n, excess, SizeIn(net, zone), net.Content(zone, x), 1.0, lo);
    SumIsNotNegative(n, excess);
  }

  lemma Shift(s: real, x: real, lo: real)
    ensures s * x == s * (x - lo) + lo * s
  {
  }

  lemma TotalOfNegative(net: Net, zone: set<nat>, x: seq<real>)
    requires net.Valid() && |x| == |net.rows|
    ensures net.Total(zone, Negative(x)) == -net.Total(zone, x)
  {
    var f, g := net.Content(zone, x), net.Content(zone, Negative(x));
    forall e | 0 <= e < |x|
      ensures g(e) == -1.0 * f(e) + 0.0 * f(e)
    {
      if e in zone {
        NegativeProduct(net.sizes[e], x[e]);
      }
    }
    SumAdds(|x|, f, f, g, -1.0, 0.0);
  }

  lemma NegativeProduct(s: real, x: real)
    ensures s * -x == -(s * x)
  {
  }

  lemma TotalIsBelow(net: Net, zone: set<nat>, x: seq<real>, hi: real)
    requires net.Valid() && |x| == |net.rows| && IsBelow(x, zone, hi)
    ensures net.Total(zone, x) <= hi * Size(net, zone)
  {
    TotalIsAbove(net, zone, Negative(x), -hi);
    TotalOfNegative(net, zone, x);
    NegativeProduct(Size(net, zone), hi);
  }

  lemma SizeIsTotal(net: Net, zone: set<nat>)
    requires net.Valid()
    ensures net.Total(zone, Constant(|net.rows|, 1.0)) == Size(net, zone)
  {
    SumEqual(|net.rows|, net.Content(zone, Constant(|net.rows|, 1.0)), SizeIn(net, zone));
  }

  lemma SidesHaveOneSize(net: Net, one: set<nat>, other: set<nat>)
    requires net.Valid() && AreSides(net, one, other)
    ensures Size(net, other) == Size(net, one)
  {
    var x := Constant(|net.rows|, 1.0);
    forall e: nat | e < |x|
      ensures net.DensityAt(e, x) == 1.0
    {
      ConstantStays(net, e, 1.0);
    }
    assert net.Diffused(x) == x;
    SidesExchange(net, one, other, x);
    SizeIsTotal(net, one);
    SizeIsTotal(net, other);
  }

  // ----- walks -----

  lemma WalksJoin(net: Net, e: nat, r: nat, s: nat, j: nat, k: nat)
    requires Walks(net, e, r, j) && Walks(net, r, s, k)
    ensures Walks(net, e, s, j + k)
    decreases j
  {
    if j > 0 {
      if CanKeep(net, e) && Walks(net, e, r, j - 1) {
        WalksJoin(net, e, r, s, j - 1, k);
      } else {
        var i :| 0 <= i < |net.rows[e]| && Walks(net, net.rows[e][i], r, j - 1);
        WalksJoin(net, net.rows[e][i], r, s, j - 1, k);
      }
    }
  }

  lemma {:induction false} OneStep(net: Net, e: nat, i: nat)
    requires e < |net.rows| && i < |net.rows[e]|
    ensures Walks(net, e, net.rows[e][i], 1)
  {
    assert Walks(net, net.rows[e][i], net.rows[e][i], 0);
  }

  lemma {:induction false} StaysOnce(net: Net, e: nat)
    requires CanKeep(net, e)
    ensures Walks(net, e, e, 1)
  {
    assert Walks(net, e, e, 0);
  }

  /** Walks go both ways. */
  lemma {:induction false} WalksBack(net: Net, e: nat, r: nat, k: nat)
    requires net.Valid() && Walks(net, e, r, k)
    ensures Walks(net, r, e, k)
    decreases k
  {
    if k > 0 {
      if CanKeep(net, e) && Walks(net, e, r, k - 1) {
        WalksBack(net, e, r, k - 1);
        StaysOnce(net, e);
        WalksJoin(net, r, e, e, k - 1, 1);
      } else {
        var i: nat :| i < |net.rows[e]| && Walks(net, net.rows[e][i], r, k - 1);
        var o, j := IsNeighbourToo(net, e, i);
        WalksBack(net, o, r, k - 1);
        OneStep(net, o, j);
        WalksJoin(net, r, o, e, k - 1, 1);
      }
    }
  }

  lemma {:induction false} ThereAndBack(net: Net, e: nat)
    requires net.Valid() && e < |net.rows|
    ensures Walks(net, e, e, 2)
  {
    if net.rows[e] == [] {
      net.RowIsFrom(e);
      assert Rest(net, e) == 1.0;
      StaysOnce(net, e);
      WalksJoin(net, e, e, e, 1, 1);
    } else {
      var o, j := IsNeighbourToo(net, e, 0);
      OneStep(net, e, 0);
      OneStep(net, o, j);
      WalksJoin(net, e, o, e, 1, 1);
    }
  }

  lemma LongerWalk(net: Net, e: nat, root: nat, k: nat, m: nat)
    requires net.Valid() && root < |net.rows| && Walks(net, e, root, k)
    ensures Walks(net, e, root, k + 2 * m)
    decreases m
  {
    if m > 0 {
      LongerWalk(net, e, root, k, m - 1);
      ThereAndBack(net, root);
      WalksJoin(net, e, root, root, k + 2 * (m - 1), 2);
    }
  }

  // ----- an even and an odd number of steps away -----

  ghost predicate IsEvenWalk(net: Net, e: nat, root: nat, k: nat) {
    Walks(net, e, root, 2 * k)
  }

  ghost predicate IsOddWalk(net: Net, e: nat, root: nat, k: nat) {
    Walks(net, e, root, 2 * k + 1)
  }

  /** The elements an even number of steps away. */
  ghost function Even(net: Net, root: nat): set<nat> {
    set e: nat | e < |net.rows| && IsEvenAway(net, e, root)
  }

  ghost predicate IsEvenAway(net: Net, e: nat, root: nat) {
    exists k: nat :: IsEvenWalk(net, e, root, k)
  }

  ghost function Odd(net: Net, root: nat): set<nat> {
    set e: nat | e < |net.rows| && IsOddAway(net, e, root)
  }

  ghost predicate IsOddAway(net: Net, e: nat, root: nat) {
    exists k: nat :: IsOddWalk(net, e, root, k)
  }

  lemma StepAway(net: Net, e: nat, root: nat, k: nat, o: nat)
    requires net.Valid() && Walks(net, e, root, k) && Walks(net, o, e, 1)
    ensures Walks(net, o, root, k + 1)
  {
    WalksJoin(net, o, e, root, 1, k);
  }

  lemma StepBackwards(net: Net, e: nat, i: nat) returns (o: nat)
    requires net.Valid() && e < |net.rows| && i < |net.rows[e]|
    ensures o == net.rows[e][i] && o < |net.rows| && Walks(net, o, e, 1)
  {
    var j;
    o, j := IsNeighbourToo(net, e, i);
    OneStep(net, o, j);
  }

  lemma EvenIsFedByOdd(net: Net, root: nat, e: nat)
    requires net.Valid() && e in Even(net, root)
    ensures IsFedBy(net, Odd(net, root), e)
  {
    var k: nat :| IsEvenWalk(net, e, root, k);
    forall i | 0 <= i < |net.rows[e]|
      ensures net.rows[e][i] in Odd(net, root)
    {
      var o := StepBackwards(net, e, i);
      StepAway(net, e, root, 2 * k, o);
      assert IsOddWalk(net, o, root, k);
    }
    if CanKeep(net, e) {
      StaysOnce(net, e);
      StepAway(net, e, root, 2 * k, e);
      assert IsOddWalk(net, e, root, k);
    }
  }

  lemma OddIsFedByEven(net: Net, root: nat, e: nat)
    requires net.Valid() && e in Odd(net, root)
    ensures IsFedBy(net, Even(net, root), e)
  {
    var k: nat :| IsOddWalk(net, e, root, k);
    var next := k + 1;
    forall i | 0 <= i < |net.rows[e]|
      ensures net.rows[e][i] in Even(net, root)
    {
      var o := StepBackwards(net, e, i);
      StepAway(net, e, root, 2 * k + 1, o);
      assert IsEvenWalk(net, o, root, next);
    }
    if CanKeep(net, e) {
      StaysOnce(net, e);
      StepAway(net, e, root, 2 * k + 1, e);
      assert IsEvenWalk(net, e, root, next);
    }
  }

  lemma EvenAndOddAreSides(net: Net, root: nat)
    requires net.Valid() && root < |net.rows|
    ensures AreSides(net, Even(net, root), Odd(net, root)) && root in Even(net, root)
  {
    forall e | e in Even(net, root)
      ensures IsFedBy(net, Odd(net, root), e)
    {
      EvenIsFedByOdd(net, root, e);
    }
    forall e | e in Odd(net, root)
      ensures IsFedBy(net, Even(net, root), e)
    {
      OddIsFedByEven(net, root, e);
    }
    assert IsEvenWalk(net, root, root, 0);
  }

  /** One number of steps serves the first `n` elements. */
  lemma EvenWalkOf(net: Net, root: nat, n: nat) returns (k: nat)
    requires net.Valid() && root < |net.rows| && n <= |net.rows|
    ensures forall e: nat :: e < n && e in Even(net, root) ==> IsEvenWalk(net, e, root, k)
  {
    k := 0;
    if n > 0 {
      var j := EvenWalkOf(net, root, n - 1);
      var l: nat := 0;
      if n - 1 in Even(net, root) {
        l :| IsEvenWalk(net, n - 1, root, l);
      }
      k := j + l;
      forall e: nat | e < n && e in Even(net, root)
        ensures IsEvenWalk(net, e, root, k)
      {
        if e < n - 1 {
          assert IsEvenWalk(net, e, root, j);
          LongerWalk(net, e, root, 2 * j, l);
        } else {
          LongerWalk(net, e, root, 2 * l, j);
        }
      }
    }
  }

  lemma EvenWalks(net: Net, root: nat) returns (k: nat)
    requires net.Valid() && root < |net.rows|
    ensures AllWalk(net, Even(net, root), root, k)
  {
    hide Walks, AreSides, Odd, IsEvenAway, Net.Valid;
    var j := EvenWalkOf(net, root, |net.rows|);
    EvenAndOddAreSides(net, root);
    k := 2 * j;
    forall e | e in Even(net, root)
      ensures Walks(net, e, root, k)
    {
      assert IsEvenWalk(net, e, root, j);
    }
  }

  /** With a walk of an odd number of steps back to the root, what is an even number of steps away is an odd
      number of steps away, and the other way round. */
  lemma OddRoundTrip(net: Net, root: nat, j: nat, e: nat)
    requires Walks(net, root, root, 2 * j + 1)
    ensures IsEvenAway(net, e, root) <==> IsOddAway(net, e, root)
  {
    hide Walks;
    if IsEvenAway(net, e, root) {
      var k: nat :| IsEvenWalk(net, e, root, k);
      WalksJoin(net, e, root, root, 2 * k, 2 * j + 1);
      var more := k + j;
      assert IsOddWalk(net, e, root, more);
    }
    if IsOddAway(net, e, root) {
      var k: nat :| IsOddWalk(net, e, root, k);
      WalksJoin(net, e, root, root, 2 * k + 1, 2 * j + 1);
      var more := k + j + 1;
      assert IsEvenWalk(net, e, root, more);
    }
  }

  /** Where some element keeps some of its own, there are no two sides: the elements an even number of steps away
      are all that can be reached. */
  lemma {:induction false} KeepingJoinsSides(net: Net, root: nat, r: nat, j: nat)
    requires net.Valid() && root < |net.rows| && Walks(net, r, root, j) && CanKeep(net, r)
    ensures Even(net, root) == Odd(net, root) && net.IsZone(Even(net, root))
  {
    hide Walks, CanKeep, IsEvenAway, IsOddAway;
    EvenAndOddAreSides(net, root);
    WalksBack(net, r, root, j);
    StaysOnce(net, r);
    WalksJoin(net, root, r, r, j, 1);
    WalksJoin(net, root, r, root, j + 1, j);
    assert j + 1 + j == 2 * j + 1;
    forall e: nat
      ensures e in Even(net, root) <==> e in Odd(net, root)
    {
      OddRoundTrip(net, root, j, e);
    }
  }
}
