/** Diffusion of an error density between neighbouring elements (`diffuse_densities_once`): what one step
    and any number of steps keep, and when repeating them brings every density below a tolerance. */
module Diffusion {
  import opened Sums

  function Min(x: real, y: real): real {
    if x <= y then x else y
  }

  /** Neighbours and sizes of the elements; no element has more than `maxDeg` neighbours. */
  datatype Net = Net(rows: seq<seq<nat>>, sizes: seq<real>, maxDeg: nat) {

    ghost predicate IsRow(e: nat) {
      e < |rows| == |sizes| ==>
        && |rows[e]| <= maxDeg
        && (forall i :: 0 <= i < |rows[e]| ==> rows[e][i] < |rows|)
        && (rows[e] != [] ==> sizes[e] > 0.0)
    }

    ghost predicate IsSymmetric(e: nat, o: nat) {
      e < |rows| && o < |rows| ==> multiset(rows[e])[o] == multiset(rows[o])[e]
    }

    ghost predicate Valid() {
      && |rows| == |sizes| && maxDeg > 0
      && (forall e: nat {:trigger IsRow(e)} :: IsRow(e))
      && (forall e: nat, o: nat {:trigger IsSymmetric(e, o)} :: IsSymmetric(e, o))
      && (forall e :: 0 <= e < |sizes| ==> sizes[e] >= 0.0)
    }

    lemma NeighbourIs(e: nat, i: nat) returns (o: nat)
      requires Valid() && e < |rows| && i < |rows[e]|
      ensures o == rows[e][i] && o < |rows| && sizes[o] > 0.0 && sizes[e] > 0.0 && rows[o] != []
    {
      assert IsRow(e);
      o := rows[e][i];
      assert IsRow(o) && IsSymmetric(e, o);
      assert o in rows[e];
      assert multiset(rows[o])[e] > 0;
      assert e in multiset(rows[o]);
      assert e in rows[o];
    }

    /** The part of the difference of two densities that is taken over. */
    function Factor(e: nat, o: nat): real
      requires e < |sizes| && o < |sizes| && sizes[e] > 0.0 && maxDeg > 0
    {
      Min(sizes[e], sizes[o]) / (sizes[e] * maxDeg as real)
    }

    ghost predicate IsFrom(row: seq<nat>, e: nat) {
      && |rows| == |sizes| && maxDeg > 0 && e < |rows| && (row != [] ==> sizes[e] > 0.0)
      && forall i :: 0 <= i < |row| ==> row[i] < |rows| && sizes[row[i]] > 0.0
    }

    lemma RowIsFrom(e: nat)
      requires Valid() && e < |rows|
      ensures IsFrom(rows[e], e) && |rows[e]| <= maxDeg
    {
      assert IsRow(e);
      forall i | 0 <= i < |rows[e]|
        ensures rows[e][i] < |rows| && sizes[rows[e][i]] > 0.0
      {
        var _ := NeighbourIs(e, i);
      }
    }

    ghost function Gain(e: nat, o: nat, x: seq<real>): real
      requires IsFrom([], e) && |x| == |rows| && o < |rows| && sizes[e] > 0.0
    {
      (x[o] - x[e]) * Factor(e, o)
    }

    /** What the neighbours in `row` add to the density of `e`. */
    ghost function Inflow(row: seq<nat>, e: nat, x: seq<real>): real
      requires IsFrom(row, e) && |x| == |rows|
    {
      if row == [] then 0.0
      else
        var n := |row| - 1;
        Inflow(row[..n], e, x) + Gain(e, row[n], x)
    }

    ghost function DensityAt(e: nat, x: seq<real>): real
      requires Valid() && |x| == |rows| && e < |rows|
    {
      RowIsFrom(e);
      x[e] + Inflow(rows[e], e, x)
    }

    ghost function Diffused(x: seq<real>): (y: seq<real>)
      requires Valid() && |x| == |rows|
      ensures |y| == |x| && forall e :: 0 <= e < |x| ==> y[e] == DensityAt(e, x)
    {
      seq(|x|, e requires 0 <= e < |x| => DensityAt(e, x))
    }

    ghost function Iterated(x: seq<real>, k: nat): (y: seq<real>)
      requires Valid() && |x| == |rows|
      ensures |y| == |x|
    {
      if k == 0 then x else Diffused(Iterated(x, k - 1))
    }

    lemma {:induction false} IteratedTwice(x: seq<real>, j: nat, k: nat)
      requires Valid() && |x| == |rows|
      ensures Iterated(x, j + k) == Iterated(Iterated(x, j), k)
    {
      if k > 0 {
        IteratedTwice(x, j, k - 1);
      }
    }

    // ----- conservation -----

    /** No neighbour of an element of the zone is outside it. */
    ghost predicate IsZone(zone: set<nat>) {
      && (forall e :: e in zone ==> e < |rows|)
      && (forall e, i :: e in zone && 0 <= i < |rows[e]| ==> rows[e][i] in zone)
    }

    ghost function Content(zone: set<nat>, x: seq<real>): int -> real {
      (e: int) => if 0 <= e < |sizes| && e < |x| && e in zone then sizes[e] * x[e] else 0.0
    }

    /** The integral of a density over a zone. */
    ghost function Total(zone: set<nat>, x: seq<real>): real {
      Sum(|rows|, Content(zone, x))
    }

    /** What flows from `o` to `e` over one side. */
    ghost function Flow(e: nat, o: nat, x: seq<real>): real {
      if e < |sizes| && o < |sizes| && e < |x| && o < |x| && maxDeg > 0
      then (x[o] - x[e]) * (Min(sizes[e], sizes[o]) / maxDeg as real) else 0.0
    }

    lemma FlowIsAntisymmetric(e: nat, o: nat, x: seq<real>)
      ensures Flow(e, o, x) == -Flow(o, e, x)
    {
      if e < |sizes| && o < |sizes| && e < |x| && o < |x| && maxDeg > 0 {
        Opposite(x[o], x[e], Min(sizes[e], sizes[o]) / maxDeg as real);
      }
    }

    ghost function Multiplicity(row: seq<nat>, o: nat): real {
      multiset(row)[o] as real
    }

    ghost function FlowOver(row: seq<nat>, e: nat, x: seq<real>): int -> real {
      (o: int) => if o < 0 then 0.0 else Multiplicity(row, o) * Flow(e, o, x)
    }

    ghost function One(p: nat, v: real): int -> real {
      (o: int) => if o == p then v else 0.0
    }

    lemma {:induction false} InflowIsFlow(row: seq<nat>, e: nat, x: seq<real>)
      requires IsFrom(row, e) && |x| == |rows|
      ensures sizes[e] * Inflow(row, e, x) == Sum(|rows|, FlowOver(row, e, x))
      decreases |row|
    {
      if row == [] {
        SumIsZero(|rows|, FlowOver(row, e, x));
      } else {
        var n := |row| - 1;
        var front, o := row[..n], row[n];
        InflowIsFlow(front, e, x);
        FlowGrows(row, front, o, e, x);
        var before := Inflow(front, e, x);
        var gain := GainIsFlow(e, o, x);
        Distributed(sizes[e], before, gain);
      }
    }

    lemma GainIsFlow(e: nat, o: nat, x: seq<real>) returns (gain: real)
      requires IsFrom([], e) && |x| == |rows| && o < |rows| && sizes[e] > 0.0 && sizes[o] > 0.0
      ensures gain == Gain(e, o, x) && sizes[e] * gain == Flow(e, o, x)
    {
      gain := Gain(e, o, x);
      Scaled(sizes[e], x[o] - x[e], Min(sizes[e], sizes[o]), maxDeg as real);
    }

    lemma FlowGrows(row: seq<nat>, front: seq<nat>, o: nat, e: nat, x: seq<real>)
      requires row == front + [o] && o < |rows|
      ensures Sum(|rows|, FlowOver(row, e, x)) == Sum(|rows|, FlowOver(front, e, x)) + Flow(e, o, x)
    {
      var rest, flow := FlowOver(front, e, x), Flow(e, o, x);
      forall p | 0 <= p < |rows|
        ensures FlowOver(row, e, x)(p) == 1.0 * rest(p) + 1.0 * One(o, flow)(p)
      {
        assert multiset(row)[p] == multiset(front)[p] + if p == o then 1 else 0;
        More(Multiplicity(front, p), Multiplicity(row, p), Flow(e, p, x));
      }
      SumAdds(|rows|, rest, One(o, flow), FlowOver(row, e, x), 1.0, 1.0);
      SumOfOne(|rows|, o, flow);
    }

    lemma SumOfOne(n: nat, p: nat, v: real)
      requires p < n
      ensures Sum(n, One(p, v)) == v
    {
      SumTrims(n, p + 1, One(p, v));
      SumGrows(p, One(p, v));
      SumIsZero(p, One(p, v));
    }

    /** All flows into the elements of a zone. */
    ghost function Exchange(zone: set<nat>, x: seq<real>): Grid {
      (e: int, o: int) =>
        if 0 <= e < |rows| && o >= 0 && e in zone then Multiplicity(rows[e], o) * Flow(e, o, x) else 0.0
    }

    lemma ExchangeIsAntisymmetric(zone: set<nat>, x: seq<real>, e: nat, o: nat)
      requires Valid() && IsZone(zone) && e < |rows| && o < |rows|
      ensures Exchange(zone, x)(e, o) == -Exchange(zone, x)(o, e)
    {
      assert IsSymmetric(e, o);
      FlowIsAntisymmetric(e, o, x);
      Negated(Multiplicity(rows[e], o), Flow(e, o, x), Flow(o, e, x));
      if e in zone && o !in zone {
        assert o !in rows[e];
      }
      if o in zone && e !in zone {
        assert e !in rows[o];
      }
    }

    lemma ExchangeCancels(zone: set<nat>, x: seq<real>)
      requires Valid() && IsZone(zone)
      ensures Sum(|rows|, AcrossSecond(|rows|, Exchange(zone, x))) == 0.0
    {
      var n, f := |rows|, Exchange(zone, x);
      var into, from := AcrossSecond(n, f), AcrossFirst(n, f);
      SumsSwap(n, n, f);
      forall j | 0 <= j < n
        ensures from(j) == -1.0 * into(j) + 0.0 * into(j)
      {
        forall i | 0 <= i < n
          ensures First(f, j)(i) == -1.0 * Second(f, j)(i) + 0.0 * Second(f, j)(i)
        {
          ExchangeIsAntisymmetric(zone, x, i, j);
        }
        SumAdds(n, Second(f, j), Second(f, j), First(f, j), -1.0, 0.0);
      }
      SumAdds(n, into, into, from, -1.0, 0.0);
    }

    lemma ReceivesFlow(x: seq<real>, e: nat)
      requires Valid() && |x| == |rows| && e < |rows|
      ensures sizes[e] * DensityAt(e, x) == sizes[e] * x[e] + Sum(|rows|, FlowOver(rows[e], e, x))
    {
      RowIsFrom(e);
      var inflow := Inflow(rows[e], e, x);
      InflowIsFlow(rows[e], e, x);
      Distributed(sizes[e], x[e], inflow);
    }

    lemma ContentGrows(zone: set<nat>, x: seq<real>, e: nat)
      requires Valid() && |x| == |rows| && e < |rows|
      ensures Content(zone, Diffused(x))(e) == Content(zone, x)(e) + AcrossSecond(|rows|, Exchange(zone, x))(e)
    {
      var into := Second(Exchange(zone, x), e);
      if e in zone {
        ReceivesFlow(x, e);
        SumEqual(|rows|, FlowOver(rows[e], e, x), into);
        assert Diffused(x)[e] == DensityAt(e, x);
      } else {
        SumIsZero(|rows|, into);
      }
    }

    /** A step does not change the integral over any zone. */
    lemma StepConserves(zone: set<nat>, x: seq<real>)
      requires Valid() && IsZone(zone) && |x| == |rows|
      ensures Total(zone, Diffused(x)) == Total(zone, x)
    {
      var n, f := |rows|, Exchange(zone, x);
      forall e | 0 <= e < n
        ensures Content(zone, Diffused(x))(e) == 1.0 * Content(zone, x)(e) + 1.0 * AcrossSecond(n, f)(e)
      {
        ContentGrows(zone, x, e);
      }
      SumAdds(n, Content(zone, x), AcrossSecond(n, f), Content(zone, Diffused(x)), 1.0, 1.0);
      ExchangeCancels(zone, x);
    }

    lemma {:induction false} StepsConserve(zone: set<nat>, x: seq<real>, k: nat)
      requires Valid() && IsZone(zone) && |x| == |rows|
      ensures Total(zone, Iterated(x, k)) == Total(zone, x)
    {
      if k > 0 {
        StepsConserve(zone, x, k - 1);
        StepConserves(zone, Iterated(x, k - 1));
      }
    }
  }

  lemma Opposite(x: real, y: real, m: real)
    ensures (x - y) * m == -((y - x) * m)
  {
  }

  lemma Scaled(s: real, d: real, m: real, deg: real)
    requires s > 0.0 && deg > 0.0
    ensures s * (d * (m / (s * deg))) == d * (m / deg)
  {
    var q := m / (s * deg);
    assert q * (s * deg) == m;
    var p := m / deg;
    assert p * deg == m;
    assert (q * s - p) * deg == 0.0;
    assert q * s == p;
    assert s * (d * q) == d * (q * s);
  }

  lemma Distributed(s: real, x: real, y: real)
    ensures s * (x + y) == s * x + s * y
  {
  }

  lemma More(m: real, m': real, v: real)
    ensures m' == m ==> m' * v == m * v
    ensures m' == m + 1.0 ==> m' * v == m * v + v
  {
  }

  lemma Negated(m: real, v: real, w: real)
    requires v == -w
    ensures m * v == -(m * w)
  {
  }
}
