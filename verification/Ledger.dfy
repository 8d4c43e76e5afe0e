/** The conservation ledger (`transfer_integ_error`): what a mesh modification adds to or takes from the
    integral of a density is booked as an error of the new elements, and old errors are carried over, so
    that the integral less the booked error does not change. */
module Ledger {
  import opened Separation

  type Amount = nat -> real

  // ----- totals -----

  ghost function TotalOver(elems: seq<nat>, f: Amount): real {
    if elems == [] then 0.0 else TotalOver(elems[..|elems| - 1], f) + f(elems[|elems| - 1])
  }

  lemma {:induction false} TotalJoins(a: seq<nat>, b: seq<nat>, f: Amount)
    ensures TotalOver(a + b, f) == TotalOver(a, f) + TotalOver(b, f)
  {
    if b == [] {
      assert a + b == a;
    } else {
      var n := |b| - 1;
      assert (a + b)[..|a + b| - 1] == a + b[..n];
      TotalJoins(a, b[..n], f);
    }
  }

  /** Taking out the element at place `i`. */
  lemma {:induction false} TotalWithout(a: seq<nat>, i: nat, f: Amount)
    requires i < |a|
    ensures TotalOver(a, f) == TotalOver(a[..i] + a[i + 1..], f) + f(a[i])
    ensures multiset(a) == multiset(a[..i] + a[i + 1..]) + multiset{a[i]}
  {
    assert a == a[..i] + [a[i]] + a[i + 1..];
    TotalJoins(a[..i] + [a[i]], a[i + 1..], f);
    TotalJoins(a[..i], [a[i]], f);
    TotalJoins(a[..i], a[i + 1..], f);
    assert [a[i]][..0] == [];
  }

  lemma Cancel(m: multiset<nat>, n: multiset<nat>, x: nat)
    requires m + multiset{x} == n + multiset{x}
    ensures m == n
  {
    forall y: nat
      ensures m[y] == n[y]
    {
      assert (m + multiset{x})[y] == (n + multiset{x})[y];
    }
  }

  lemma PlaceOf(b: seq<nat>, x: nat) returns (i: nat)
    requires x in multiset(b)
    ensures i < |b| && b[i] == x
  {
    assert x in b;
    i :| i < |b| && b[i] == x;
  }

  /** The order does not matter. */
  lemma {:induction false} TotalOfSameElements(a: seq<nat>, b: seq<nat>, f: Amount)
    requires multiset(a) == multiset(b)
    ensures TotalOver(a, f) == TotalOver(b, f)
    decreases |a|
  {
    assert |multiset(a)| == |a| && |multiset(b)| == |b|;
    if a != [] {
      assert a[0] in multiset(a);
      var i := PlaceOf(b, a[0]);
      var a', b' := a[..0] + a[1..], b[..i] + b[i + 1..];
      TotalWithout(a, 0, f);
      TotalWithout(b, i, f);
      Cancel(multiset(a'), multiset(b'), a[0]);
      TotalOfSameElements(a', b', f);
    }
  }

  lemma {:induction false} TotalAdds(a: seq<nat>, f: Amount, g: Amount, h: Amount, s: real)
    requires forall i :: 0 <= i < |a| ==> h(a[i]) == f(a[i]) + s * g(a[i])
    ensures TotalOver(a, h) == TotalOver(a, f) + s * TotalOver(a, g)
  {
    if a != [] {
      var n := |a| - 1;
      TotalAdds(a[..n], f, g, h, s);
      Distribute(s, TotalOver(a[..n], g), g(a[n]), TotalOver(a, g));
    }
  }

  lemma Distribute(s: real, x: real, y: real, z: real)
    requires z == x + y
    ensures s * z == s * x + s * y
  {
  }

  /** The elements of a mesh. */
  ghost function All(n: nat): seq<nat> {
    seq(n, (i: nat) => i)
  }

  ghost function ValueAt(v: seq<real>): Amount {
    (e: nat) => if e < |v| then v[e] else 0.0
  }

  function Product(x: real, y: real): real {
    x * y
  }

  /** The integral of a density over one element. */
  ghost function IntegralOf(densities: seq<real>, sizes: seq<real>): Amount {
    (e: nat) => Product(ValueAt(densities)(e), ValueAt(sizes)(e))
  }

  lemma TotalAfterUpdate(v: seq<real>, n: nat, i: nat, x: real)
    requires n <= |v| && i < |v|
    ensures TotalOver(All(n), ValueAt(v[i := x])) == TotalOver(All(n), ValueAt(v)) + if i < n then x - v[i] else 0.0
  {
    if n > 0 {
      assert All(n)[..n - 1] == All(n - 1);
      TotalAfterUpdate(v, n - 1, i, x);
    }
  }

  // ----- spreading an amount over the new elements of a cavity -----

  function TotalSize(elems: seq<nat>, sizes: seq<real>): real {
    if elems == [] then 0.0
    else
      var e := elems[|elems| - 1];
      TotalSize(elems[..|elems| - 1], sizes) + if e < |sizes| then sizes[e] else 0.0
  }

  lemma {:induction false} TotalSizeIsTotal(elems: seq<nat>, sizes: seq<real>)
    ensures TotalSize(elems, sizes) == TotalOver(elems, ValueAt(sizes))
  {
    if elems != [] {
      TotalSizeIsTotal(elems[..|elems| - 1], sizes);
    }
  }

  /** The total of all errors. */
  ghost function Booked(errors: seq<real>): real {
    TotalOver(All(|errors|), ValueAt(errors))
  }

  predicate InMesh(elems: seq<nat>, n: nat) {
    forall i :: 0 <= i < |elems| ==> elems[i] < n
  }

  /** How often an element is listed. */
  ghost function Times(elems: seq<nat>, e: nat): nat {
    if elems == [] then 0 else Times(elems[..|elems| - 1], e) + if elems[|elems| - 1] == e then 1 else 0
  }

  lemma {:induction false} TimesIsMultiplicity(elems: seq<nat>, e: nat)
    ensures Times(elems, e) == multiset(elems)[e]
  {
    if elems != [] {
      var n := |elems| - 1;
      assert elems == elems[..n] + [elems[n]];
      TimesIsMultiplicity(elems[..n], e);
    }
  }

  ghost function Repeated(n: nat, x: real): real {
    n as real * x
  }

  lemma OnceMore(n: nat, x: real)
    ensures Repeated(0, x) == 0.0 && Repeated(n + 1, x) == Repeated(n, x) + x
  {
  }

  lemma NothingRepeated(elems: seq<nat>)
    requires elems == []
    ensures forall e: nat, x: real :: Repeated(Times(elems, e), x) == 0.0
  {
  }

  /** The part of `amount` that is to the whole as `x` is to `size`. */
  ghost function PartOf(amount: real, size: real, x: real): real {
    if size == 0.0 then 0.0 else amount * x / size
  }

  /** What an element gets of an amount that goes to `elems` by size: its part, each time it is one of them. */
  ghost function ShareAt(elems: seq<nat>, amount: real, sizes: seq<real>, e: nat): real {
    Repeated(Times(elems, e), PartOf(amount, TotalSize(elems, sizes), ValueAt(sizes)(e)))
  }

  lemma PartIs(amount: real, size: real, density: real, x: real)
    requires density == if size != 0.0 then amount / size else 0.0
    ensures PartOf(amount, size, x) == Product(density, x)
  {
    if size != 0.0 {
      assert density * size == amount;
      assert (density * x) * size == (density * size) * x;
    }
  }

  /** The errors after `elems`, each as often as it is listed, have got `density` times their sizes. */
  ghost predicate HaveShares(errors: seq<real>, errors': seq<real>, elems: seq<nat>, sizes: seq<real>, density: real) {
    && |errors'| == |errors| == |sizes|
    && forall e: nat :: e < |errors| ==>
      errors'[e] == errors[e] + Repeated(Times(elems, e), Product(density, sizes[e]))
  }

  lemma SharesStart(errors: seq<real>, elems: seq<nat>, sizes: seq<real>, density: real)
    requires |errors| == |sizes| && elems == []
    ensures HaveShares(errors, errors, elems, sizes, density)
    ensures density * TotalSize(elems, sizes) == 0.0
  {
    NothingRepeated(elems);
  }

  lemma {:induction false} OneMoreShare(
      errors: seq<real>, was: seq<real>, elems: seq<nat>, i: nat, sizes: seq<real>, density: real)
    requires i < |elems| && elems[i] < |sizes| && HaveShares(errors, was, elems[..i], sizes, density)
    ensures var e := elems[i];
      HaveShares(errors, was[e := was[e] + Product(density, sizes[e])], elems[..i + 1], sizes, density)
    ensures density * TotalSize(elems[..i + 1], sizes) ==
      density * TotalSize(elems[..i], sizes) + Product(density, sizes[elems[i]])
  {
    hide Repeated;
    var e := elems[i];
    assert elems[..i + 1][..i] == elems[..i];
    OnceMore(Times(elems[..i], e), Product(density, sizes[e]));
    Distribute(density, TotalSize(elems[..i], sizes), sizes[e], TotalSize(elems[..i + 1], sizes));
  }

  lemma {:induction false} SharesAreParts(
      errors: seq<real>, errors': seq<real>, elems: seq<nat>, sizes: seq<real>, amount: real, size: real,
      density: real)
    requires HaveShares(errors, errors', elems, sizes, density) && size == TotalSize(elems, sizes)
    requires density == if size != 0.0 then amount / size else 0.0
    ensures forall e: nat :: e < |errors| ==> errors'[e] == errors[e] + ShareAt(elems, amount, sizes, e)
  {
    hide Repeated, PartOf, Product;
    forall e: nat | e < |errors|
      ensures errors'[e] == errors[e] + ShareAt(elems, amount, sizes, e)
    {
      PartIs(amount, size, density, sizes[e]);
    }
  }

  /** Adds to each element of a cavity its share of `amount`, by size. This is refused if the elements
      have no size in all, but there is something to add. */
  method Spread(
      elems: seq<nat>, amount: real, sizes: seq<real>, errors: seq<real>)
    returns (ok: bool, errors': seq<real>)
    requires |sizes| == |errors| && InMesh(elems, |errors|)
    ensures ok <==> TotalSize(elems, sizes) != 0.0 || amount == 0.0
    ensures |errors'| == |errors| && (ok ==> Booked(errors') == Booked(errors) + amount)
    ensures ok ==> forall e: nat :: e < |errors| ==> errors'[e] == errors[e] + ShareAt(elems, amount, sizes, e)
  {
    hide HaveShares, ShareAt, Booked;
    var size := TotalSize(elems, sizes);
    errors' := errors;
    if size == 0.0 && amount != 0.0 {
      ok := false;
      return;
    }
    ok := true;
    var density := if size != 0.0 then amount / size else 0.0;
    SharesStart(errors, elems[..0], sizes, density);
    for i := 0 to |elems|
      invariant |errors'| == |errors| && HaveShares(errors, errors', elems[..i], sizes, density)
      invariant Booked(errors') == Booked(errors) + density * TotalSize(elems[..i], sizes)
    {
      var e := elems[i];
      OneMoreShare(errors, errors', elems, i, sizes, density);
      BookedAfterUpdate(errors', e, errors'[e] + Product(density, sizes[e]));
      errors' := errors'[e := errors'[e] + Product(density, sizes[e])];
    }
    assert elems[..|elems|] == elems;
    Whole(amount, size, density);
    SharesAreParts(errors, errors', elems, sizes, amount, size, density);
  }

  lemma BookedAfterUpdate(v: seq<real>, i: nat, x: real)
    requires i < |v|
    ensures Booked(v[i := x]) == Booked(v) + x - v[i]
  {
    TotalAfterUpdate(v, |v|, i, x);
  }

  lemma Whole(amount: real, size: real, density: real)
    requires if size != 0.0 then density == amount / size else amount == 0.0 && density == 0.0
    ensures density * size == amount
  {
  }

  // ----- the cavities -----

  /** The elements of a mesh: their sizes, densities and booked errors. */
  datatype Mesh = Mesh(sizes: seq<real>, densities: seq<real>, errors: seq<real>) {
    ghost predicate Valid() {
      |sizes| == |densities| == |errors|
    }

    ghost function Integral(elems: seq<nat>): real {
      TotalOver(elems, IntegralOf(densities, sizes))
    }

    ghost function Error(elems: seq<nat>): real {
      TotalOver(elems, ValueAt(errors))
    }
  }

  function IntegralSum(elems: seq<nat>, densities: seq<real>, sizes: seq<real>): real {
    if elems == [] then 0.0
    else
      var e := elems[|elems| - 1];
      IntegralSum(elems[..|elems| - 1], densities, sizes)
      + Product(if e < |densities| then densities[e] else 0.0, if e < |sizes| then sizes[e] else 0.0)
  }

  lemma {:induction false} IntegralSumIsTotal(elems: seq<nat>, densities: seq<real>, sizes: seq<real>)
    ensures IntegralSum(elems, densities, sizes) == TotalOver(elems, IntegralOf(densities, sizes))
  {
    if elems != [] {
      var e := elems[|elems| - 1];
      IntegralSumIsTotal(elems[..|elems| - 1], densities, sizes);
      assert ValueAt(densities)(e) == if e < |densities| then densities[e] else 0.0;
      assert ValueAt(sizes)(e) == if e < |sizes| then sizes[e] else 0.0;
    }
  }

  lemma {:induction false} ErrorSumIsTotal(m: Mesh, elems: seq<nat>)
    ensures TotalSize(elems, m.errors) == m.Error(elems)
  {
    TotalSizeIsTotal(elems, m.errors);
  }

  ghost predicate CavityInMesh(c: Cavity, before: Mesh, after: Mesh) {
    InMesh(c.olds, |before.sizes|) && InMesh(c.news, |after.sizes|)
  }

  ghost predicate CavsInMesh(cavs: Cavs, before: Mesh, after: Mesh) {
    forall k :: 0 <= k < |cavs| ==> CavityInMesh(cavs[k], before, after)
  }

  /** What a cavity has added to the integral. */
  ghost function Introduced(c: Cavity, before: Mesh, after: Mesh): real {
    after.Integral(c.news) - before.Integral(c.olds)
  }

  ghost function IntroducedBy(cavs: Cavs, before: Mesh, after: Mesh): real {
    if cavs == [] then 0.0
    else IntroducedBy(cavs[..|cavs| - 1], before, after) + Introduced(cavs[|cavs| - 1], before, after)
  }

  ghost function CarriedBy(cavs: Cavs, before: Mesh): real {
    if cavs == [] then 0.0 else CarriedBy(cavs[..|cavs| - 1], before) + before.Error(cavs[|cavs| - 1].olds)
  }

  lemma IntroducedIs(c: Cavity, before: Mesh, after: Mesh)
    ensures Introduced(c, before, after) ==
      IntegralSum(c.news, after.densities, after.sizes) - IntegralSum(c.olds, before.densities, before.sizes)
  {
    IntegralSumIsTotal(c.olds, before.densities, before.sizes);
    IntegralSumIsTotal(c.news, after.densities, after.sizes);
  }

  /** What the cavities add to, or carry over to, the error of one element. */
  ghost function IntroducedAt(cavs: Cavs, before: Mesh, after: Mesh, e: nat): real {
    if cavs == [] then 0.0
    else
      var c := cavs[|cavs| - 1];
      IntroducedAt(cavs[..|cavs| - 1], before, after, e)
      + ShareAt(c.news, Introduced(c, before, after), after.sizes, e)
  }

  ghost function CarriedAt(cavs: Cavs, before: Mesh, after: Mesh, e: nat): real {
    if cavs == [] then 0.0
    else
      var c := cavs[|cavs| - 1];
      CarriedAt(cavs[..|cavs| - 1], before, after, e) + ShareAt(c.news, before.Error(c.olds), after.sizes, e)
  }

  /** An amount can be booked on a cavity if its new elements have a size, or there is nothing to book. */
  ghost predicate CanBook(c: Cavity, sizes: seq<real>, amount: real) {
    TotalSize(c.news, sizes) != 0.0 || amount == 0.0
  }

  method IntroduceClassIntegError(before: Mesh, after: Mesh, cavs: Cavs, errors: seq<real>)
    returns (ok: bool, errors': seq<real>)
    requires before.Valid() && after.Valid() && CavsInMesh(cavs, before, after) && |errors| == |after.sizes|
    ensures ok <==> forall k :: 0 <= k < |cavs| ==> CanBook(cavs[k], after.sizes, Introduced(cavs[k], before, after))
    ensures |errors'| == |errors| && (ok ==> Booked(errors') == Booked(errors) + IntroducedBy(cavs, before, after))
    ensures ok ==> forall e: nat :: e < |errors| ==> errors'[e] == errors[e] + IntroducedAt(cavs, before, after, e)
  {
    hide ShareAt, Booked, Introduced;
    ok, errors' := true, errors;
    for k := 0 to |cavs|
      invariant ok && |errors'| == |errors|
      invariant forall l :: 0 <= l < k ==> CanBook(cavs[l], after.sizes, Introduced(cavs[l], before, after))
      invariant Booked(errors') == Booked(errors) + IntroducedBy(cavs[..k], before, after)
      invariant forall e: nat :: e < |errors| ==> errors'[e] == errors[e] + IntroducedAt(cavs[..k], before, after, e)
    {
      assert CavityInMesh(cavs[k], before, after);
      var oldIntegral := IntegralSum(cavs[k].olds, before.densities, before.sizes);
      var newIntegral := IntegralSum(cavs[k].news, after.densities, after.sizes);
      IntroducedIs(cavs[k], before, after);
      ok, errors' := Spread(cavs[k].news, newIntegral - oldIntegral, after.sizes, errors');
      assert ok <==> CanBook(cavs[k], after.sizes, Introduced(cavs[k], before, after));
      if !ok {
        return;
      }
      assert cavs[..k + 1][..k] == cavs[..k];
    }
    assert cavs[..|cavs|] == cavs;
  }

  method CarryClassBdryIntegError(before: Mesh, after: Mesh, cavs: Cavs, errors: seq<real>)
    returns (ok: bool, errors': seq<real>)
    requires before.Valid() && after.Valid() && CavsInMesh(cavs, before, after) && |errors| == |after.sizes|
    ensures ok <==> forall k :: 0 <= k < |cavs| ==> CanBook(cavs[k], after.sizes, before.Error(cavs[k].olds))
    ensures |errors'| == |errors| && (ok ==> Booked(errors') == Booked(errors) + CarriedBy(cavs, before))
    ensures ok ==> forall e: nat :: e < |errors| ==> errors'[e] == errors[e] + CarriedAt(cavs, before, after, e)
  {
    hide ShareAt, Booked;
    ok, errors' := true, errors;
    for k := 0 to |cavs|
      invariant ok && |errors'| == |errors|
      invariant forall l :: 0 <= l < k ==> CanBook(cavs[l], after.sizes, before.Error(cavs[l].olds))
      invariant Booked(errors') == Booked(errors) + CarriedBy(cavs[..k], before)
      invariant forall e: nat :: e < |errors| ==> errors'[e] == errors[e] + CarriedAt(cavs[..k], before, after, e)
    {
      assert CavityInMesh(cavs[k], before, after);
      var oldError := TotalSize(cavs[k].olds, before.errors);
      ErrorSumIsTotal(before, cavs[k].olds);
      ok, errors' := Spread(cavs[k].news, oldError, after.sizes, errors');
      assert ok <==> CanBook(cavs[k], after.sizes, before.Error(cavs[k].olds));
      if !ok {
        return;
      }
      assert cavs[..k + 1][..k] == cavs[..k];
    }
    assert cavs[..|cavs|] == cavs;
  }

  // ----- the whole transfer -----

  /** The cavities of one boundary status, all colours: a list of parts. */
  type Parts = seq<Cavs>

  ghost function IntroducedByAll(parts: Parts, before: Mesh, after: Mesh): real {
    if parts == [] then 0.0
    else IntroducedByAll(parts[..|parts| - 1], before, after) + IntroducedBy(parts[|parts| - 1], before, after)
  }

  ghost function CarriedByAll(parts: Parts, before: Mesh): real {
    if parts == [] then 0.0 else CarriedByAll(parts[..|parts| - 1], before) + CarriedBy(parts[|parts| - 1], before)
  }

  ghost function IntroducedAtAll(parts: Parts, before: Mesh, after: Mesh, e: nat): real {
    if parts == [] then 0.0
    else IntroducedAtAll(parts[..|parts| - 1], before, after, e) + IntroducedAt(parts[|parts| - 1], before, after, e)
  }

  ghost function CarriedAtAll(parts: Parts, before: Mesh, after: Mesh, e: nat): real {
    if parts == [] then 0.0
    else CarriedAtAll(parts[..|parts| - 1], before, after, e) + CarriedAt(parts[|parts| - 1], before, after, e)
  }

  ghost predicate PartsInMesh(parts: Parts, before: Mesh, after: Mesh) {
    forall p :: 0 <= p < |parts| ==> CavsInMesh(parts[p], before, after)
  }

  ghost predicate CanIntroduce(parts: Parts, before: Mesh, after: Mesh) {
    forall p, k :: 0 <= p < |parts| && 0 <= k < |parts[p]| ==>
      CanBook(parts[p][k], after.sizes, Introduced(parts[p][k], before, after))
  }

  ghost predicate CanCarry(parts: Parts, before: Mesh, after: Mesh) {
    forall p, k :: 0 <= p < |parts| && 0 <= k < |parts[p]| ==>
      CanBook(parts[p][k], after.sizes, before.Error(parts[p][k].olds))
  }

  method IntroduceAll(before: Mesh, after: Mesh, parts: Parts, errors: seq<real>) returns (ok: bool, errors': seq<real>)
    requires before.Valid() && after.Valid() && PartsInMesh(parts, before, after) && |errors| == |after.sizes|
    ensures ok <==> CanIntroduce(parts, before, after)
    ensures |errors'| == |errors| && (ok ==> Booked(errors') == Booked(errors) + IntroducedByAll(parts, before, after))
    ensures ok ==> forall e: nat :: e < |errors| ==> errors'[e] == errors[e] + IntroducedAtAll(parts, before, after, e)
  {
    hide IntroducedAt, Booked;
    ok, errors' := true, errors;
    for p := 0 to |parts|
      invariant ok && |errors'| == |errors|
      invariant forall q, k :: 0 <= q < p && 0 <= k < |parts[q]| ==>
        CanBook(parts[q][k], after.sizes, Introduced(parts[q][k], before, after))
      invariant Booked(errors') == Booked(errors) + IntroducedByAll(parts[..p], before, after)
      invariant forall e: nat :: e < |errors| ==>
        errors'[e] == errors[e] + IntroducedAtAll(parts[..p], before, after, e)
    {
      ok, errors' := IntroduceClassIntegError(before, after, parts[p], errors');
      if !ok {
        return;
      }
      assert parts[..p + 1][..p] == parts[..p];
    }
    assert parts[..|parts|] == parts;
  }

  method CarryAll(before: Mesh, after: Mesh, parts: Parts, errors: seq<real>) returns (ok: bool, errors': seq<real>)
    requires before.Valid() && after.Valid() && PartsInMesh(parts, before, after) && |errors| == |after.sizes|
    ensures ok <==> CanCarry(parts, before, after)
    ensures |errors'| == |errors| && (ok ==> Booked(errors') == Booked(errors) + CarriedByAll(parts, before))
    ensures ok ==> forall e: nat :: e < |errors| ==> errors'[e] == errors[e] + CarriedAtAll(parts, before, after, e)
  {
    hide CarriedAt, Booked;
    ok, errors' := true, errors;
    for p := 0 to |parts|
      invariant ok && |errors'| == |errors|
      invariant forall q, k :: 0 <= q < p && 0 <= k < |parts[q]| ==>
        CanBook(parts[q][k], after.sizes, before.Error(parts[q][k].olds))
      invariant Booked(errors') == Booked(errors) + CarriedByAll(parts[..p], before)
      invariant forall e: nat :: e < |errors| ==> errors'[e] == errors[e] + CarriedAtAll(parts[..p], before, after, e)
    {
      ok, errors' := CarryClassBdryIntegError(before, after, parts[p], errors');
      if !ok {
        return;
      }
      assert parts[..p + 1][..p] == parts[..p];
    }
    assert parts[..|parts|] == parts;
  }

  /** For each boundary status, whether the transfer conserves the integral this time, and always. */
  datatype Conserved = Conserved(thisTime: bool, always: bool)

  /** What is booked for one status. */
  ghost function BookedFor(parts: Parts, c: Conserved, before: Mesh, after: Mesh): real {
    (if c.thisTime then 0.0 else IntroducedByAll(parts, before, after))
    + (if c.always then 0.0 else CarriedByAll(parts, before))
  }

  ghost function BookedForAll(status: seq<Parts>, cs: seq<Conserved>, before: Mesh, after: Mesh): real
    requires |status| == |cs|
  {
    if status == [] then 0.0
    else
      var n := |status| - 1;
      BookedForAll(status[..n], cs[..n], before, after) + BookedFor(status[n], cs[n], before, after)
  }

  /** What is booked for one element. */
  ghost function BookedAt(parts: Parts, c: Conserved, before: Mesh, after: Mesh, e: nat): real {
    (if c.thisTime then 0.0 else IntroducedAtAll(parts, before, after, e))
    + (if c.always then 0.0 else CarriedAtAll(parts, before, after, e))
  }

  ghost function BookedAtAll(status: seq<Parts>, cs: seq<Conserved>, before: Mesh, after: Mesh, e: nat): real
    requires |status| == |cs|
  {
    if status == [] then 0.0
    else
      var n := |status| - 1;
      BookedAtAll(status[..n], cs[..n], before, after, e) + BookedAt(status[n], cs[n], before, after, e)
  }

  ghost predicate CanBookFor(parts: Parts, c: Conserved, before: Mesh, after: Mesh) {
    (c.thisTime || CanIntroduce(parts, before, after)) && (c.always || CanCarry(parts, before, after))
  }

  /** The errors of the elements that are the same in both meshes. */
  ghost function SameError(same: seq<(nat, nat)>, before: Mesh): real {
    if same == [] then 0.0
    else SameError(same[..|same| - 1], before) + ValueAt(before.errors)(same[|same| - 1].0)
  }

  /** The error that a new element has kept: that of the old element it is the same as, if there is one. */
  ghost function SameErrorAt(same: seq<(nat, nat)>, before: Mesh, e: nat): real {
    if same == [] then 0.0
    else if same[|same| - 1].1 == e then ValueAt(before.errors)(same[|same| - 1].0)
    else SameErrorAt(same[..|same| - 1], before, e)
  }

  lemma {:induction false} SameErrorIsKept(same: seq<(nat, nat)>, before: Mesh, after: Mesh)
    requires before.Valid() && SameInMesh(same, before, after)
    ensures forall i :: 0 <= i < |same| ==> SameErrorAt(same, before, same[i].1) == before.errors[same[i].0]
    ensures forall e: nat :: (forall i :: 0 <= i < |same| ==> same[i].1 != e) ==> SameErrorAt(same, before, e) == 0.0
  {
    if same != [] {
      var n := |same| - 1;
      SameErrorIsKept(same[..n], before, after);
      forall i | 0 <= i < n
        ensures SameErrorAt(same, before, same[i].1) == before.errors[same[i].0]
      {
        assert same[..n][i] == same[i];
      }
    }
  }

  ghost predicate SameInMesh(same: seq<(nat, nat)>, before: Mesh, after: Mesh) {
    && (forall i :: 0 <= i < |same| ==> same[i].0 < |before.sizes| && same[i].1 < |after.sizes|)
    && (forall i, j :: 0 <= i < j < |same| ==> same[i].1 != same[j].1)
  }

  method MapSame(before: Mesh, ghost after: Mesh, same: seq<(nat, nat)>, zeros: seq<real>) returns (errors: seq<real>)
    requires before.Valid() && SameInMesh(same, before, after) && |zeros| == |after.sizes|
    requires forall e :: 0 <= e < |zeros| ==> zeros[e] == 0.0
    ensures |errors| == |zeros| && Booked(errors) == SameError(same, before)
    ensures forall e: nat :: e < |errors| ==> errors[e] == SameErrorAt(same, before, e)
  {
    errors := zeros;
    NothingIsBooked(zeros, |zeros|);
    for i := 0 to |same|
      invariant |errors| == |zeros|
      invariant forall j :: i <= j < |same| ==> errors[same[j].1] == 0.0
      invariant Booked(errors) == SameError(same[..i], before)
      invariant forall e: nat :: e < |errors| ==> errors[e] == SameErrorAt(same[..i], before, e)
    {
      var (o, n) := same[i];
      TotalAfterUpdate(errors, |errors|, n, before.errors[o]);
      assert same[..i + 1][..i] == same[..i];
      errors := errors[n := before.errors[o]];
    }
    assert same[..|same|] == same;
  }

  lemma NothingIsBooked(zeros: seq<real>, n: nat)
    requires n <= |zeros| && forall e :: 0 <= e < |zeros| ==> zeros[e] == 0.0
    ensures TotalOver(All(n), ValueAt(zeros)) == 0.0
  {
    if n > 0 {
      assert All(n)[..n - 1] == All(n - 1);
      NothingIsBooked(zeros, n - 1);
    }
  }

  method TransferIntegError(
      before: Mesh, after: Mesh, same: seq<(nat, nat)>, status: seq<Parts>, cs: seq<Conserved>)
    returns (ok: bool, errors: seq<real>)
    requires before.Valid() && after.Valid() && |status| == |cs| && SameInMesh(same, before, after)
    requires forall i :: 0 <= i < |status| ==> PartsInMesh(status[i], before, after)
    ensures ok <==> forall i :: 0 <= i < |status| ==> CanBookFor(status[i], cs[i], before, after)
    ensures |errors| == |after.sizes|
    ensures ok ==> Booked(errors) == SameError(same, before) + BookedForAll(status, cs, before, after)
    ensures ok ==> forall e: nat :: e < |errors| ==>
      errors[e] == SameErrorAt(same, before, e) + BookedAtAll(status, cs, before, after, e)
  {
    hide Booked, IntroducedAtAll, CarriedAtAll;
    ok, errors := true, seq(|after.sizes|, _ => 0.0);
    errors := MapSame(before, after, same, errors);
    for i := 0 to |status|
      invariant ok && |errors| == |after.sizes|
      invariant forall j :: 0 <= j < i ==> CanBookFor(status[j], cs[j], before, after)
      invariant Booked(errors) == SameError(same, before) + BookedForAll(status[..i], cs[..i], before, after)
      invariant forall e: nat :: e < |errors| ==>
        errors[e] == SameErrorAt(same, before, e) + BookedAtAll(status[..i], cs[..i], before, after, e)
    {
      if !cs[i].thisTime {
        ok, errors := IntroduceAll(before, after, status[i], errors);
        if !ok {
          return;
        }
      }
      if !cs[i].always {
        ok, errors := CarryAll(before, after, status[i], errors);
        if !ok {
          return;
        }
      }
      assert status[..i + 1][..i] == status[..i] && cs[..i + 1][..i] == cs[..i];
    }
    assert status[..|status|] == status && cs[..|cs|] == cs;
  }

  // ----- the ledger balances -----

  ghost function OldsOf(cavs: Cavs): seq<nat> {
    if cavs == [] then [] else OldsOf(cavs[..|cavs| - 1]) + cavs[|cavs| - 1].olds
  }

  ghost function NewsOf(cavs: Cavs): seq<nat> {
    if cavs == [] then [] else NewsOf(cavs[..|cavs| - 1]) + cavs[|cavs| - 1].news
  }

  ghost function OldsOfParts(parts: Parts): seq<nat> {
    if parts == [] then [] else OldsOfParts(parts[..|parts| - 1]) + OldsOf(parts[|parts| - 1])
  }

  ghost function NewsOfParts(parts: Parts): seq<nat> {
    if parts == [] then [] else NewsOfParts(parts[..|parts| - 1]) + NewsOf(parts[|parts| - 1])
  }

  ghost function OldsOfAll(status: seq<Parts>): seq<nat> {
    if status == [] then [] else OldsOfAll(status[..|status| - 1]) + OldsOfParts(status[|status| - 1])
  }

  ghost function NewsOfAll(status: seq<Parts>): seq<nat> {
    if status == [] then [] else NewsOfAll(status[..|status| - 1]) + NewsOfParts(status[|status| - 1])
  }

  lemma {:induction false} CavsTotals(cavs: Cavs, before: Mesh, after: Mesh)
    ensures IntroducedBy(cavs, before, after) == after.Integral(NewsOf(cavs)) - before.Integral(OldsOf(cavs))
    ensures CarriedBy(cavs, before) == before.Error(OldsOf(cavs))
  {
    if cavs != [] {
      var n := |cavs| - 1;
      CavsTotals(cavs[..n], before, after);
      TotalJoins(NewsOf(cavs[..n]), cavs[n].news, IntegralOf(after.densities, after.sizes));
      TotalJoins(OldsOf(cavs[..n]), cavs[n].olds, IntegralOf(before.densities, before.sizes));
      TotalJoins(OldsOf(cavs[..n]), cavs[n].olds, ValueAt(before.errors));
    }
  }

  lemma {:induction false} PartsTotals(parts: Parts, before: Mesh, after: Mesh)
    ensures IntroducedByAll(parts, before, after) ==
      after.Integral(NewsOfParts(parts)) - before.Integral(OldsOfParts(parts))
    ensures CarriedByAll(parts, before) == before.Error(OldsOfParts(parts))
  {
    if parts != [] {
      var n := |parts| - 1;
      PartsTotals(parts[..n], before, after);
      CavsTotals(parts[n], before, after);
      TotalJoins(NewsOfParts(parts[..n]), NewsOf(parts[n]), IntegralOf(after.densities, after.sizes));
      TotalJoins(OldsOfParts(parts[..n]), OldsOf(parts[n]), IntegralOf(before.densities, before.sizes));
      TotalJoins(OldsOfParts(parts[..n]), OldsOf(parts[n]), ValueAt(before.errors));
    }
  }

  /** What is not booked: the change of the integral of the statuses taken to conserve it this time, and
      the old errors of those taken to do so always. */
  ghost function NotBooked(status: seq<Parts>, cs: seq<Conserved>, before: Mesh, after: Mesh): real
    requires |status| == |cs|
  {
    if status == [] then 0.0
    else
      var n := |status| - 1;
      NotBooked(status[..n], cs[..n], before, after)
      + (if cs[n].thisTime then IntroducedByAll(status[n], before, after) else 0.0)
      + (if cs[n].always then CarriedByAll(status[n], before) else 0.0)
  }

  lemma {:induction false} StatusTotals(status: seq<Parts>, cs: seq<Conserved>, before: Mesh, after: Mesh)
    requires |status| == |cs|
    ensures BookedForAll(status, cs, before, after) + NotBooked(status, cs, before, after) ==
      after.Integral(NewsOfAll(status)) - before.Integral(OldsOfAll(status)) + before.Error(OldsOfAll(status))
  {
    if status != [] {
      var n := |status| - 1;
      StatusTotals(status[..n], cs[..n], before, after);
      PartsTotals(status[n], before, after);
      TotalJoins(NewsOfAll(status[..n]), NewsOfParts(status[n]), IntegralOf(after.densities, after.sizes));
      TotalJoins(OldsOfAll(status[..n]), OldsOfParts(status[n]), IntegralOf(before.densities, before.sizes));
      TotalJoins(OldsOfAll(status[..n]), OldsOfParts(status[n]), ValueAt(before.errors));
    }
  }

  ghost function SameOlds(same: seq<(nat, nat)>): seq<nat> {
    seq(|same|, i requires 0 <= i < |same| => same[i].0)
  }

  ghost function SameNews(same: seq<(nat, nat)>): seq<nat> {
    seq(|same|, i requires 0 <= i < |same| => same[i].1)
  }

  /** Every old element, and every new one, is either the same in both meshes or in exactly one cavity. */
  ghost predicate IsCover(same: seq<(nat, nat)>, status: seq<Parts>, before: Mesh, after: Mesh) {
    && multiset(SameOlds(same) + OldsOfAll(status)) == multiset(All(|before.sizes|))
    && multiset(SameNews(same) + NewsOfAll(status)) == multiset(All(|after.sizes|))
  }

  /** The same elements have the same size and density. */
  ghost predicate SameIsSame(same: seq<(nat, nat)>, before: Mesh, after: Mesh) {
    forall i :: 0 <= i < |same| ==>
      IntegralOf(before.densities, before.sizes)(same[i].0) == IntegralOf(after.densities, after.sizes)(same[i].1)
  }

  lemma {:induction false} SameTotals(same: seq<(nat, nat)>, before: Mesh, after: Mesh)
    requires SameIsSame(same, before, after)
    ensures before.Integral(SameOlds(same)) == after.Integral(SameNews(same))
    ensures SameError(same, before) == before.Error(SameOlds(same))
  {
    if same != [] {
      var n := |same| - 1;
      SameTotals(same[..n], before, after);
      assert SameOlds(same)[..n] == SameOlds(same[..n]) && SameNews(same)[..n] == SameNews(same[..n]);
    }
  }

  // ----- what one element gets -----

  /** What one cavity gives to a new element that it lists once. */
  ghost function BookedIn(cav: Cavity, c: Conserved, before: Mesh, after: Mesh, e: nat): real {
    var size, own := TotalSize(cav.news, after.sizes), ValueAt(after.sizes)(e);
    (if c.thisTime then 0.0 else PartOf(Introduced(cav, before, after), size, own))
    + (if c.always then 0.0 else PartOf(before.Error(cav.olds), size, own))
  }

  lemma {:induction false} ShareByTimes(elems: seq<nat>, amount: real, sizes: seq<real>, e: nat)
    ensures multiset(elems)[e] == 0 ==> ShareAt(elems, amount, sizes, e) == 0.0
    ensures multiset(elems)[e] == 1 ==>
      ShareAt(elems, amount, sizes, e) == PartOf(amount, TotalSize(elems, sizes), ValueAt(sizes)(e))
  {
    hide PartOf;
    TimesIsMultiplicity(elems, e);
  }

  lemma {:induction false} CavsGive(cavs: Cavs, before: Mesh, after: Mesh, k: nat, e: nat)
    requires multiset(NewsOf(cavs))[e] <= 1
    ensures multiset(NewsOf(cavs))[e] == 0 ==>
      IntroducedAt(cavs, before, after, e) == 0.0 == CarriedAt(cavs, before, after, e)
    ensures k < |cavs| && e in cavs[k].news ==>
      && IntroducedAt(cavs, before, after, e) ==
        PartOf(Introduced(cavs[k], before, after), TotalSize(cavs[k].news, after.sizes), ValueAt(after.sizes)(e))
      && CarriedAt(cavs, before, after, e) ==
        PartOf(before.Error(cavs[k].olds), TotalSize(cavs[k].news, after.sizes), ValueAt(after.sizes)(e))
      && multiset(NewsOf(cavs))[e] == 1
  {
    hide ShareAt, PartOf, Introduced;
    if cavs != [] {
      var n := |cavs| - 1;
      CavsGive(cavs[..n], before, after, k, e);
      ShareByTimes(cavs[n].news, Introduced(cavs[n], before, after), after.sizes, e);
      ShareByTimes(cavs[n].news, before.Error(cavs[n].olds), after.sizes, e);
      assert k < |cavs| && e in cavs[k].news ==> if k == n then e in multiset(cavs[n].news) else k < |cavs[..n]|;
    }
  }

  lemma {:induction false} PartsGive(parts: Parts, before: Mesh, after: Mesh, p: nat, k: nat, e: nat)
    requires multiset(NewsOfParts(parts))[e] <= 1
    ensures multiset(NewsOfParts(parts))[e] == 0 ==>
      IntroducedAtAll(parts, before, after, e) == 0.0 == CarriedAtAll(parts, before, after, e)
    ensures p < |parts| && k < |parts[p]| && e in parts[p][k].news ==>
      var cav := parts[p][k];
      && IntroducedAtAll(parts, before, after, e) ==
        PartOf(Introduced(cav, before, after), TotalSize(cav.news, after.sizes), ValueAt(after.sizes)(e))
      && CarriedAtAll(parts, before, after, e) ==
        PartOf(before.Error(cav.olds), TotalSize(cav.news, after.sizes), ValueAt(after.sizes)(e))
      && multiset(NewsOfParts(parts))[e] == 1
  {
    hide IntroducedAt, CarriedAt, NewsOf, PartOf, Introduced;
    if parts != [] {
      var n := |parts| - 1;
      PartsGive(parts[..n], before, after, p, k, e);
      CavsGive(parts[n], before, after, k, e);
    }
  }

  lemma {:induction false} StatusGives(
      status: seq<Parts>, cs: seq<Conserved>, before: Mesh, after: Mesh, i: nat, p: nat, k: nat, e: nat)
    requires |status| == |cs| && multiset(NewsOfAll(status))[e] <= 1
    ensures multiset(NewsOfAll(status))[e] == 0 ==> BookedAtAll(status, cs, before, after, e) == 0.0
    ensures i < |status| && p < |status[i]| && k < |status[i][p]| && e in status[i][p][k].news ==>
      && BookedAtAll(status, cs, before, after, e) == BookedIn(status[i][p][k], cs[i], before, after, e)
      && multiset(NewsOfAll(status))[e] == 1
  {
    hide IntroducedAtAll, CarriedAtAll, NewsOfParts, PartOf, Introduced;
    if status != [] {
      var n := |status| - 1;
      StatusGives(status[..n], cs[..n], before, after, i, p, k, e);
      PartsGive(status[n], before, after, p, k, e);
    }
  }

  lemma AllOnce(n: nat, e: nat)
    ensures multiset(All(n))[e] == if e < n then 1 else 0
  {
    if n > 0 {
      AllOnce(n - 1, e);
      assert All(n) == All(n - 1) + [n - 1];
    }
  }

  /** With a cover, each new element has either the error of the old element it is the same as, or its part, by
      size, of what its one cavity books. */
  lemma {:induction false} EachErrorIsOwn(
      before: Mesh, after: Mesh, same: seq<(nat, nat)>, status: seq<Parts>, cs: seq<Conserved>, errors: seq<real>,
      e: nat)
    requires before.Valid() && after.Valid() && |status| == |cs| && |errors| == |after.sizes|
    requires SameInMesh(same, before, after) && IsCover(same, status, before, after) && e < |errors|
    requires errors[e] == SameErrorAt(same, before, e) + BookedAtAll(status, cs, before, after, e)
    ensures forall i :: 0 <= i < |same| && same[i].1 == e ==> errors[e] == before.errors[same[i].0]
    ensures forall i, p, k ::
      0 <= i < |status| && 0 <= p < |status[i]| && 0 <= k < |status[i][p]| && e in status[i][p][k].news ==>
      errors[e] == BookedIn(status[i][p][k], cs[i], before, after, e)
  {
    hide BookedIn, BookedAtAll, SameErrorAt;
    AllOnce(|after.sizes|, e);
    var kept, news: seq<nat> := SameNews(same), NewsOfAll(status);
    assert multiset(kept + news)[e] == multiset(kept)[e] + multiset(news)[e] == 1;
    SameErrorIsKept(same, before, after);
    forall i | 0 <= i < |same| && same[i].1 == e
      ensures errors[e] == before.errors[same[i].0]
    {
      assert kept[i] == e;
      StatusGives(status, cs, before, after, 0, 0, 0, e);
    }
    forall i, p, k | 0 <= i < |status| && 0 <= p < |status[i]| && 0 <= k < |status[i][p]| && e in status[i][p][k].news
      ensures errors[e] == BookedIn(status[i][p][k], cs[i], before, after, e)
    {
      StatusGives(status, cs, before, after, i, p, k, e);
      assert e !in multiset(kept);
      assert forall j :: 0 <= j < |same| ==> kept[j] == same[j].1 && kept[j] in kept;
    }
  }

  /** The integral of a mesh less its booked errors. */
  ghost function Balance(densities: seq<real>, sizes: seq<real>, errors: seq<real>): real {
    TotalOver(All(|sizes|), IntegralOf(densities, sizes)) - TotalOver(All(|sizes|), ValueAt(errors))
  }

  /** The transfer changes the balance by exactly what it has not booked: not at all, if no status is taken
      to conserve the integral. */
  lemma {:induction false} LedgerBalances(
      before: Mesh, after: Mesh, same: seq<(nat, nat)>, status: seq<Parts>, cs: seq<Conserved>, errors: seq<real>)
    requires before.Valid() && after.Valid() && |status| == |cs| && |errors| == |after.sizes|
    requires IsCover(same, status, before, after) && SameIsSame(same, before, after)
    requires Booked(errors) == SameError(same, before) + BookedForAll(status, cs, before, after)
    ensures Balance(after.densities, after.sizes, errors) ==
      Balance(before.densities, before.sizes, before.errors) + NotBooked(status, cs, before, after)
  {
    var newIntegral := IntegralOf(after.densities, after.sizes);
    var oldIntegral := IntegralOf(before.densities, before.sizes);
    TotalOfSameElements(SameNews(same) + NewsOfAll(status), All(|after.sizes|), newIntegral);
    TotalOfSameElements(SameOlds(same) + OldsOfAll(status), All(|before.sizes|), oldIntegral);
    TotalOfSameElements(SameOlds(same) + OldsOfAll(status), All(|before.sizes|), ValueAt(before.errors));
    TotalJoins(SameNews(same), NewsOfAll(status), newIntegral);
    TotalJoins(SameOlds(same), OldsOfAll(status), oldIntegral);
    TotalJoins(SameOlds(same), OldsOfAll(status), ValueAt(before.errors));
    SameTotals(same, before, after);
    StatusTotals(status, cs, before, after);
  }

  lemma {:induction false} NothingLeftOut(status: seq<Parts>, cs: seq<Conserved>, before: Mesh, after: Mesh)
    requires |status| == |cs| && forall i :: 0 <= i < |cs| ==> !cs[i].thisTime && !cs[i].always
    ensures NotBooked(status, cs, before, after) == 0.0
  {
    if status != [] {
      var n := |status| - 1;
      NothingLeftOut(status[..n], cs[..n], before, after);
    }
  }
}
