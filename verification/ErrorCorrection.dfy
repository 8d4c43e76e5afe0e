/** Correcting a density by its booked error (`diffuse_densities_once`, `diffuse_densities`,
    `diffuse_integrals_weighted`, `correct_density_error`): the error is spread out by diffusion and then
    taken off, after which the integral is what the ledger says it should be. */
module ErrorCorrection {
  import opened Sums
  import opened Graphs
  import opened ElementGraph
  import opened Diffusion
  import opened DiffusionLoop
  import Ledger

  /** Each of the `n` elements has a size, and no more than `maxDeg` neighbours. */
  ghost function NetOf(g: Graph, sizes: seq<real>, maxDeg: nat): Net {
    Net(seq(|sizes|, (e: nat) => g.Row(e)), sizes, maxDeg)
  }

  /** Sizes are not negative, and elements that have a neighbour have a size. */
  ghost predicate AreSizes(g: Graph, sizes: seq<real>) {
    forall e :: 0 <= e < |sizes| ==> sizes[e] >= 0.0 && (g.Row(e) != [] ==> sizes[e] > 0.0)
  }

  /** The graph of `elements_across_sides` has the properties that diffusion relies on. */
  lemma {:induction false} DiffusionNetIsValid(t: Topology, perElem: nat, g: Graph, sizes: seq<real>)
    requires t.Valid(perElem) && perElem > 0 && |sizes| == |t.elemSides| && AreSizes(g, sizes)
    requires g.IsFrom(|t.elemSides|, |t.elemSides|)
    requires forall e :: 0 <= e < |t.elemSides| ==> g.Row(e) == t.Across(t.elemSides[e], e)
    ensures NetOf(g, sizes, perElem).Valid()
  {
    var net := NetOf(g, sizes, perElem);
    forall e: nat
      ensures net.IsRow(e)
    {
      if e < |sizes| {
        g.RowIs(|sizes|, |sizes|, e);
      }
    }
    forall e: nat, o: nat
      ensures net.IsSymmetric(e, o)
    {
      if e < |sizes| && o < |sizes| {
        t.AcrossIsSymmetric(perElem, e, o);
      }
    }
  }

  /** What the neighbours add to the density of one element. */
  method DiffuseElement(
      g: Graph, ghost net: Net, e: nat, densities: seq<real>, sizes: seq<real>, maxDeg: nat, start: real)
    returns (out: real)
    requires |densities| == |sizes| && g.IsFrom(|sizes|, |sizes|) && net == NetOf(g, sizes, maxDeg) && net.Valid()
    requires e < |sizes| && start == densities[e]
    ensures out == net.DensityAt(e, densities)
  {
    hide Net.Factor, Net.Valid;
    g.RowIs(|sizes|, |sizes|, e);
    net.RowIsFrom(e);
    ghost var row := net.rows[e];
    var begin, end := g.a2ab[e], g.a2ab[e + 1];
    out := start;
    for ee := begin to end
      invariant net.IsFrom(row[..ee - begin], e)
      invariant out == start + net.Inflow(row[..ee - begin], e, densities)
    {
      var oe := g.ab2b[ee];
      ghost var i := ee - begin;
      assert row[i] == oe && row[..i + 1][..i] == row[..i];
      var factor := FactorBetween(net, sizes, maxDeg, e, oe);
      var more := (densities[oe] - densities[e]) * factor;
      assert more == net.Gain(e, oe, densities);
      out := out + more;
    }
    assert row[..end - begin] == row;
  }

  method FactorBetween(ghost net: Net, sizes: seq<real>, maxDeg: nat, e: nat, oe: nat) returns (factor: real)
    requires sizes == net.sizes && maxDeg == net.maxDeg > 0 && e < |sizes| && oe < |sizes| && sizes[e] > 0.0
    ensures factor == net.Factor(e, oe)
  {
    var mins := Min(sizes[e], sizes[oe]);
    factor := mins / (sizes[e] * maxDeg as real);
  }

  method DiffuseDensitiesOnce(g: Graph, densities: seq<real>, sizes: seq<real>, maxDeg: nat) returns (out: seq<real>)
    requires |densities| == |sizes| && g.IsFrom(|sizes|, |sizes|) && NetOf(g, sizes, maxDeg).Valid()
    ensures out == NetOf(g, sizes, maxDeg).Diffused(densities)
  {
    ghost var net := NetOf(g, sizes, maxDeg);
    out := densities;
    for e := 0 to |sizes|
      invariant |out| == |densities|
      invariant forall i :: 0 <= i < e ==> out[i] == net.DensityAt(i, densities)
      invariant forall i :: e <= i < |out| ==> out[i] == densities[i]
    {
      var density := DiffuseElement(g, net, e, densities, sizes, maxDeg, out[e]);
      out := out[e := density];
    }
  }

  /** The loop returns if the densities are bounded already, or after some step. */
  ghost predicate Returns(net: Net, x: seq<real>, tolerance: real) {
    AllBounded(x, tolerance)
    || (net.Valid() && |x| == |net.rows| && exists k :: IsBoundedAfter(net, x, k, tolerance))
  }

  ghost predicate IsBoundedAfter(net: Net, x: seq<real>, k: nat, tolerance: real)
    requires net.Valid() && |x| == |net.rows|
  {
    AllBounded(net.Iterated(x, k), tolerance)
  }

  /** `out` is what `niters` steps give, and fewer were not enough. */
  ghost predicate IsRun(net: Net, x: seq<real>, out: seq<real>, niters: nat, tolerance: real) {
    && net.Valid() && |x| == |net.rows| && out == net.Iterated(x, niters)
    && forall k: nat :: k < niters ==> !IsBoundedAfter(net, x, k, tolerance)
  }

  lemma RunGrows(
      net: Net, x: seq<real>, out: seq<real>, niters: nat, tolerance: real, enough: nat)
    requires IsRun(net, x, out, niters, tolerance) && niters <= enough && !AllBounded(out, tolerance)
    requires IsBoundedAfter(net, x, enough, tolerance)
    ensures IsRun(net, x, net.Diffused(out), niters + 1, tolerance) && niters < enough
  {
    assert !IsBoundedAfter(net, x, niters, tolerance);
  }

  method DiffuseDensities(g: Graph, densities: seq<real>, sizes: seq<real>, maxDeg: nat, tolerance: real)
    returns (out: seq<real>, niters: nat)
    requires |densities| == |sizes| && g.IsFrom(|sizes|, |sizes|)
    requires Returns(NetOf(g, sizes, maxDeg), densities, tolerance)
    ensures |out| == |densities| && AllBounded(out, tolerance)
    ensures niters == 0 ==> out == densities
    ensures niters > 0 ==> IsRun(NetOf(g, sizes, maxDeg), densities, out, niters, tolerance)
  {
    ghost var net := NetOf(g, sizes, maxDeg);
    ghost var enough: nat := 0;
    if !AllBounded(densities, tolerance) {
      enough :| IsBoundedAfter(net, densities, enough, tolerance);
    }
    out, niters := densities, 0;
    while !AllBounded(out, tolerance)
      invariant |out| == |densities| && (niters == 0 ==> out == densities)
      invariant niters > 0 || !AllBounded(densities, tolerance) ==>
        && IsRun(net, densities, out, niters, tolerance)
        && niters <= enough && IsBoundedAfter(net, densities, enough, tolerance)
      decreases enough - niters
    {
      RunGrows(net, densities, out, niters, tolerance, enough);
      out := DiffuseDensitiesOnce(g, out, sizes, maxDeg);
      niters := niters + 1;
    }
  }

  // ----- integrals -----

  function Max(x: real, y: real): real {
    if x <= y then y else x
  }

  /** The absolute quantities, but the floor where it is greater. */
  function WeightedSizes(quantities: seq<real>, floor: real): (sizes: seq<real>)
    ensures |sizes| == |quantities| && forall e :: 0 <= e < |sizes| ==>
      && sizes[e] >= Abs(quantities[e]) && sizes[e] >= floor
      && (sizes[e] == Abs(quantities[e]) || sizes[e] == floor)
  {
    seq(|quantities|, e requires 0 <= e < |quantities| => Max(Abs(quantities[e]), floor))
  }

  /** An error without anything to spread it over is refused. */
  predicate CanDivide(errors: seq<real>, sizes: seq<real>) {
    |errors| == |sizes| && forall e :: 0 <= e < |sizes| ==> sizes[e] != 0.0 || errors[e] == 0.0
  }

  ghost predicate IsProductAt(integrals: seq<real>, sizes: seq<real>, densities: seq<real>, e: nat) {
    e < |integrals| && e < |sizes| && e < |densities| ==> integrals[e] == sizes[e] * densities[e]
  }

  ghost predicate AreProducts(integrals: seq<real>, sizes: seq<real>, densities: seq<real>) {
    && |integrals| == |sizes| == |densities|
    && forall e: nat {:trigger IsProductAt(integrals, sizes, densities, e)} ::
      IsProductAt(integrals, sizes, densities, e)
  }

  /** The errors over the sizes; nothing where there is no size. */
  ghost predicate AreDensities(errors: seq<real>, sizes: seq<real>, x: seq<real>) {
    AreProducts(errors, sizes, x) && forall e :: 0 <= e < |sizes| && sizes[e] == 0.0 ==> x[e] == 0.0
  }

  function DivideEachMaybeZero(errors: seq<real>, sizes: seq<real>): (densities: seq<real>)
    requires CanDivide(errors, sizes)
    ensures AreDensities(errors, sizes, densities)
  {
    seq(|errors|, e requires 0 <= e < |errors| => if sizes[e] != 0.0 then errors[e] / sizes[e] else 0.0)
  }

  function MultiplyEach(densities: seq<real>, sizes: seq<real>): (integrals: seq<real>)
    requires |densities| == |sizes|
    ensures AreProducts(integrals, sizes, densities)
  {
    seq(|sizes|, e requires 0 <= e < |sizes| => sizes[e] * densities[e])
  }

  /** The values of the elements in a zone. */
  ghost function ValueIn(zone: set<nat>, values: seq<real>): int -> real {
    (e: int) => if 0 <= e < |values| && e in zone then values[e] else 0.0
  }

  ghost function ZoneSum(zone: set<nat>, values: seq<real>): real {
    Sum(|values|, ValueIn(zone, values))
  }

  /** No zone gains or loses error. */
  ghost predicate ErrorsAreKept(net: Net, errors: seq<real>, out: seq<real>) {
    forall zone :: net.IsZone(zone) ==> ZoneSum(zone, out) == ZoneSum(zone, errors)
  }

  ghost predicate IsSmallAt(errors: seq<real>, sizes: seq<real>, tolerance: real, e: nat) {
    e < |errors| && e < |sizes| ==> Abs(errors[e]) <= tolerance * sizes[e]
  }

  ghost predicate AreSmall(errors: seq<real>, sizes: seq<real>, tolerance: real) {
    forall e: nat {:trigger IsSmallAt(errors, sizes, tolerance, e)} :: IsSmallAt(errors, sizes, tolerance, e)
  }

  ghost predicate Diffuses(g: Graph, errors: seq<real>, sizes: seq<real>, maxDeg: nat, tolerance: real) {
    CanDivide(errors, sizes) ==>
      Returns(NetOf(g, sizes, maxDeg), DivideEachMaybeZero(errors, sizes), tolerance)
  }

  /** `out` is bounded, and is what the least number of steps gives that does. */
  ghost predicate IsLeastRun(net: Net, x: seq<real>, out: seq<real>, niters: nat, tolerance: real) {
    AllBounded(out, tolerance) && if niters == 0 then out == x else IsRun(net, x, out, niters, tolerance)
  }

  ghost predicate IsSpreadBy(
      net: Net, errors: seq<real>, out: seq<real>, tolerance: real, x: seq<real>, diffused: seq<real>, niters: nat)
  {
    && AreDensities(errors, net.sizes, x) && IsLeastRun(net, x, diffused, niters, tolerance)
    && AreProducts(out, net.sizes, diffused)
  }

  /** The errors spread out: over the sizes, as many diffusion steps as it takes to get them small, and back. */
  ghost predicate IsSpread(net: Net, errors: seq<real>, out: seq<real>, tolerance: real) {
    exists x, diffused, niters :: IsSpreadBy(net, errors, out, tolerance, x, diffused, niters)
  }

  method DiffuseIntegralsWeighted(
      g: Graph, errors: seq<real>, quantities: seq<real>, maxDeg: nat, tolerance: real, floor: real)
    returns (ok: bool, out: seq<real>)
    requires |errors| == |quantities| && g.IsFrom(|errors|, |errors|)
    requires Diffuses(g, errors, WeightedSizes(quantities, floor), maxDeg, tolerance)
    ensures ok <==> CanDivide(errors, WeightedSizes(quantities, floor))
    ensures |out| == |errors|
    ensures ok ==> ErrorsAreKept(NetOf(g, WeightedSizes(quantities, floor), maxDeg), errors, out)
    ensures ok ==> AreSmall(out, WeightedSizes(quantities, floor), tolerance)
    ensures ok ==> IsSpread(NetOf(g, WeightedSizes(quantities, floor), maxDeg), errors, out, tolerance)
  {
    var sizes := WeightedSizes(quantities, floor);
    out := errors;
    ok := CanDivide(errors, sizes);
    if !ok {
      return;
    }
    var densities := DivideEachMaybeZero(errors, sizes);
    var diffused, niters := DiffuseDensities(g, densities, sizes, maxDeg, tolerance);
    out := MultiplyEach(diffused, sizes);
    RunKeepsErrors(NetOf(g, sizes, maxDeg), densities, diffused, niters, tolerance, errors, out);
    ProductsAreBounded(diffused, sizes, out, tolerance);
    assert IsSpreadBy(NetOf(g, sizes, maxDeg), errors, out, tolerance, densities, diffused, niters);
  }

  lemma RunKeepsErrors(net: Net, densities: seq<real>, diffused: seq<real>, niters: nat,
      tolerance: real, errors: seq<real>, out: seq<real>)
    requires |densities| == |diffused| == |net.sizes| == |net.rows| == |errors| == |out|
    requires if niters == 0 then diffused == densities else IsRun(net, densities, diffused, niters, tolerance)
    requires AreProducts(errors, net.sizes, densities) && AreProducts(out, net.sizes, diffused)
    ensures ErrorsAreKept(net, errors, out)
  {
    forall zone | net.IsZone(zone)
      ensures ZoneSum(zone, out) == ZoneSum(zone, errors)
    {
      RunConserves(net, zone, densities, diffused, niters, tolerance);
      ErrorIsTotal(net, zone, diffused, out);
      ErrorIsTotal(net, zone, densities, errors);
    }
  }

  lemma RunConserves(
      net: Net, zone: set<nat>, x: seq<real>, out: seq<real>, niters: nat, tolerance: real)
    requires net.IsZone(zone) && |x| == |net.rows|
    requires if niters == 0 then out == x else IsRun(net, x, out, niters, tolerance)
    ensures net.Total(zone, out) == net.Total(zone, x)
  {
    if niters > 0 {
      net.StepsConserve(zone, x, niters);
    }
  }

  lemma ProductsAreBounded(x: seq<real>, sizes: seq<real>, out: seq<real>, tolerance: real)
    requires |x| == |sizes| == |out| && AllBounded(x, tolerance)
    requires AreProducts(out, sizes, x) && forall e :: 0 <= e < |sizes| ==> sizes[e] >= 0.0
    ensures AreSmall(out, sizes, tolerance)
  {
    forall e: nat
      ensures IsSmallAt(out, sizes, tolerance, e)
    {
      assert IsProductAt(out, sizes, x, e);
      if e < |out| {
        SignedProduct(x[e], sizes[e], tolerance);
      }
    }
  }

  lemma SignedProduct(x: real, s: real, t: real)
    requires -t <= x <= t && s >= 0.0
    ensures -(t * s) <= s * x <= t * s
  {
    assert (t - x) * s >= 0.0;
    assert (x + t) * s >= 0.0;
  }

  lemma ErrorIsTotal(net: Net, zone: set<nat>, x: seq<real>, errors: seq<real>)
    requires |x| == |net.sizes| == |net.rows| == |errors|
    requires AreProducts(errors, net.sizes, x)
    ensures ZoneSum(zone, errors) == net.Total(zone, x)
  {
    forall e | 0 <= e < |errors|
      ensures ValueIn(zone, errors)(e) == net.Content(zone, x)(e)
    {
      assert IsProductAt(errors, net.sizes, x, e);
    }
    SumEqual(|errors|, ValueIn(zone, errors), net.Content(zone, x));
  }

  // ----- densities -----

  function SubtractEach(a: seq<real>, b: seq<real>): (c: seq<real>)
    requires |a| == |b|
    ensures |c| == |a| && forall e :: 0 <= e < |c| ==> c[e] == a[e] - b[e]
  {
    seq(|a|, e requires 0 <= e < |a| => a[e] - b[e])
  }

  ghost predicate HaveSizes(sizes: seq<real>) {
    forall e :: 0 <= e < |sizes| ==> sizes[e] != 0.0
  }

  function DivideEach(integrals: seq<real>, sizes: seq<real>): (densities: seq<real>)
    requires |integrals| == |sizes| && HaveSizes(sizes)
    ensures AreProducts(integrals, sizes, densities)
  {
    seq(|sizes|, e requires 0 <= e < |sizes| => integrals[e] / sizes[e])
  }

  lemma ProductsAreUnique(a: seq<real>, b: seq<real>, sizes: seq<real>, x: seq<real>)
    requires AreProducts(a, sizes, x) && AreProducts(b, sizes, x)
    ensures a == b
  {
    forall e | 0 <= e < |a|
      ensures a[e] == b[e]
    {
      assert IsProductAt(a, sizes, x, e) && IsProductAt(b, sizes, x, e);
    }
  }

  /** The integral over every zone loses exactly the error that was booked there. */
  ghost predicate ErrorsAreTakenOff(net: Net, integrals: seq<real>, errors: seq<real>, out: seq<real>) {
    forall zone :: net.IsZone(zone) ==> ZoneSum(zone, out) == ZoneSum(zone, integrals) - ZoneSum(zone, errors)
  }

  method CorrectDensityError(g: Graph, densities: seq<real>, sizes: seq<real>, errors: seq<real>, maxDeg: nat,
      tolerance: real, floor: real)
    returns (ok: bool, out: seq<real>)
    requires |densities| == |sizes| == |errors| && HaveSizes(sizes) && g.IsFrom(|sizes|, |sizes|)
    requires Diffuses(g, errors, WeightedSizes(MultiplyEach(densities, sizes), floor), maxDeg, tolerance)
    ensures ok <==> CanDivide(errors, WeightedSizes(MultiplyEach(densities, sizes), floor))
    ensures |out| == |densities|
    ensures ok ==>
      var net := NetOf(g, WeightedSizes(MultiplyEach(densities, sizes), floor), maxDeg);
      ErrorsAreTakenOff(net, MultiplyEach(densities, sizes), errors, MultiplyEach(out, sizes))
    ensures ok ==>
      var net := NetOf(g, WeightedSizes(MultiplyEach(densities, sizes), floor), maxDeg);
      var taken := SubtractEach(MultiplyEach(densities, sizes), MultiplyEach(out, sizes));
      IsSpread(net, errors, taken, tolerance) && AreSmall(taken, net.sizes, tolerance)
  {
    var oldIntegrals := MultiplyEach(densities, sizes);
    var spread;
    ok, spread := DiffuseIntegralsWeighted(g, errors, oldIntegrals, maxDeg, tolerance, floor);
    out := densities;
    if !ok {
      return;
    }
    var newIntegrals := SubtractEach(oldIntegrals, spread);
    out := DivideEach(newIntegrals, sizes);
    ProductsAreUnique(newIntegrals, MultiplyEach(out, sizes), sizes, out);
    TakenOff(NetOf(g, WeightedSizes(oldIntegrals, floor), maxDeg), oldIntegrals, errors, spread, newIntegrals);
    assert SubtractEach(oldIntegrals, newIntegrals) == spread;
  }

  lemma TakenOff(
      net: Net, integrals: seq<real>, errors: seq<real>, spread: seq<real>, out: seq<real>)
    requires |integrals| == |errors| == |spread| && out == SubtractEach(integrals, spread)
    requires ErrorsAreKept(net, errors, spread)
    ensures ErrorsAreTakenOff(net, integrals, errors, out)
  {
    forall zone | net.IsZone(zone)
      ensures ZoneSum(zone, out) == ZoneSum(zone, integrals) - ZoneSum(zone, errors)
    {
      var a, b, c := ValueIn(zone, integrals), ValueIn(zone, spread), ValueIn(zone, out);
      SumAdds(|out|, a, b, c, 1.0, -1.0);
    }
  }

  // ----- the integral of the whole mesh -----

  ghost function Everything(n: nat): set<nat> {
    set e: nat | e < n && IsElement(n, e)
  }

  predicate IsElement(n: nat, e: nat) {
    e < n
  }

  lemma EverythingIsZone(g: Graph, sizes: seq<real>, maxDeg: nat)
    requires g.IsFrom(|sizes|, |sizes|)
    ensures NetOf(g, sizes, maxDeg).IsZone(Everything(|sizes|))
  {
    var net, zone := NetOf(g, sizes, maxDeg), Everything(|sizes|);
    forall e, i | e in zone && 0 <= i < |net.rows[e]|
      ensures net.rows[e][i] in zone
    {
      g.RowIs(|sizes|, |sizes|, e);
    }
  }

  lemma LedgerTotal(values: seq<real>, n: nat, f: Ledger.Amount)
    requires n <= |values| && forall e: nat :: e < n ==> f(e) == values[e]
    ensures Ledger.TotalOver(Ledger.All(n), f) == Sum(n, ValueIn(Everything(|values|), values))
  {
    var g := ValueIn(Everything(|values|), values);
    if n == 0 {
      SumStarts(g);
    } else {
      assert Ledger.All(n)[..n - 1] == Ledger.All(n - 1);
      LedgerTotal(values, n - 1, f);
      SumGrows(n - 1, g);
    }
  }

  lemma IntegralIsSum(densities: seq<real>, sizes: seq<real>)
    requires |densities| == |sizes|
    ensures Ledger.TotalOver(Ledger.All(|sizes|), Ledger.IntegralOf(densities, sizes)) ==
      ZoneSum(Everything(|sizes|), MultiplyEach(densities, sizes))
  {
    var integrals, f := MultiplyEach(densities, sizes), Ledger.IntegralOf(densities, sizes);
    forall e: nat | e < |sizes|
      ensures f(e) == integrals[e]
    {
      assert IsProductAt(integrals, sizes, densities, e);
      assert Ledger.ValueAt(densities)(e) == densities[e] && Ledger.ValueAt(sizes)(e) == sizes[e];
      assert f(e) == Ledger.Product(densities[e], sizes[e]);
      Commuted(densities[e], sizes[e]);
    }
    LedgerTotal(integrals, |sizes|, f);
  }

  lemma Commuted(x: real, y: real)
    ensures x * y == y * x
  {
  }

  /** After a transfer that leaves nothing out, and the correction of the density by the errors it has booked,
      the integral is what it was before the mesh was modified, less the error that was booked then. */
  lemma {:induction false} IntegralIsConserved(
      before: Ledger.Mesh, after: Ledger.Mesh, same: seq<(nat, nat)>, status: seq<Ledger.Parts>,
      cs: seq<Ledger.Conserved>, errors: seq<real>, g: Graph, weights: seq<real>, maxDeg: nat, out: seq<real>)
    requires before.Valid() && after.Valid() && |status| == |cs| && |errors| == |after.sizes| == |out| == |weights|
    requires Ledger.IsCover(same, status, before, after) && Ledger.SameIsSame(same, before, after)
    requires Ledger.Booked(errors) == Ledger.SameError(same, before) + Ledger.BookedForAll(status, cs, before, after)
    requires forall i :: 0 <= i < |cs| ==> !cs[i].thisTime && !cs[i].always
    requires g.IsFrom(|weights|, |weights|)
    requires ErrorsAreTakenOff(NetOf(g, weights, maxDeg), MultiplyEach(after.densities, after.sizes), errors,
        MultiplyEach(out, after.sizes))
    ensures Ledger.TotalOver(Ledger.All(|after.sizes|), Ledger.IntegralOf(out, after.sizes)) ==
      Ledger.Balance(before.densities, before.sizes, before.errors)
  {
    Ledger.LedgerBalances(before, after, same, status, cs, errors);
    Ledger.NothingLeftOut(status, cs, before, after);
    EverythingIsZone(g, weights, maxDeg);
    IntegralIsSum(out, after.sizes);
    IntegralIsSum(after.densities, after.sizes);
    LedgerTotal(errors, |errors|, Ledger.ValueAt(errors));
  }
}
