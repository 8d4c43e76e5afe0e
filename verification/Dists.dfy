/** Building a distributed map from the destinations of its items, and reading them off again
    (`Dist::set_dest_ranks`, `set_dest_idxs`, `items2dests`). */
module Dists {
  import opened Containers
  import opened Graphs
  import opened Inversion
  import opened Exchange

  // ----- sorting a small range of values -----

  function CountOf(a: seq<nat>, value: nat, n: nat): (count: nat)
    requires n <= |a|
    ensures count <= n
  {
    if n == 0 then 0 else CountOf(a, value, n - 1) + if a[n - 1] == value then 1 else 0
  }

  ghost function CountIn(a: seq<nat>, values: seq<nat>, n: nat): (count: nat)
    requires n <= |a|
    ensures count <= n
  {
    if n == 0 then 0 else CountIn(a, values, n - 1) + if a[n - 1] in values then 1 else 0
  }

  lemma {:induction false} CountInGrows(a: seq<nat>, values: seq<nat>, value: nat, n: nat)
    requires n <= |a| && value !in values
    ensures CountIn(a, values + [value], n) == CountIn(a, values, n) + CountOf(a, value, n)
  {
    if n > 0 {
      CountInGrows(a, values, value, n - 1);
    }
  }

  lemma {:induction false} AllAreIn(a: seq<nat>, values: seq<nat>, n: nat)
    requires n <= |a|
    ensures CountIn(a, values, n) == n <==> forall i :: 0 <= i < n ==> a[i] in values
  {
    if n > 0 {
      AllAreIn(a, values, n - 1);
    }
  }

  lemma {:induction false} CountAscends(a: seq<nat>, value: nat, i: nat, j: nat)
    requires i < j <= |a|
    ensures CountOf(a, value, i) <= CountOf(a, value, j)
    ensures a[i] == value ==> CountOf(a, value, i) < CountOf(a, value, j)
  {
    if i + 1 < j {
      CountAscends(a, value, i, j - 1);
    }
  }

  lemma NthOf(a: seq<nat>, value: nat, n: nat, k: nat) returns (i: nat)
    requires n <= |a| && k < CountOf(a, value, n)
    ensures i < n && a[i] == value && CountOf(a, value, i) == k
  {
    if a[n - 1] == value && CountOf(a, value, n - 1) == k {
      i := n - 1;
    } else {
      i := NthOf(a, value, n - 1, k);
    }
  }

  /** Where an item of group `m` goes. */
  ghost predicate IsInGroup(a: seq<nat>, perm: seq<nat>, fan: seq<nat>, uniq: seq<nat>, i: nat, m: nat) {
    i < |a| && i < |perm| && m < |uniq| && m + 1 < |fan| && uniq[m] == a[i] ==> fan[m] <= perm[i] < fan[m + 1]
  }

  ghost predicate IsReached(a: seq<nat>, perm: seq<nat>, uniq: seq<nat>, c: nat) {
    exists i :: 0 <= i < |a| && i < |perm| && a[i] in uniq && perm[i] == c
  }

  ghost predicate IsGrouped(a: seq<nat>, perm: seq<nat>, fan: seq<nat>, uniq: seq<nat>) {
    && |fan| == |uniq| + 1 && AreOffsets(fan, |uniq|, fan[|uniq|]) && |perm| == |a|
    && (forall m, l :: 0 <= m < l < |uniq| ==> uniq[m] < uniq[l])
    && (forall i: nat, m: nat {:trigger IsInGroup(a, perm, fan, uniq, i, m)} :: IsInGroup(a, perm, fan, uniq, i, m))
    && (forall i, j :: 0 <= i < j < |a| && a[i] in uniq && a[j] in uniq ==> perm[i] != perm[j])
    && (forall i, j :: 0 <= i < j < |a| && a[i] in uniq && a[j] == a[i] ==> perm[i] < perm[j])
    && (forall i :: 0 <= i < |a| && a[i] in uniq ==> perm[i] < fan[|uniq|])
    && (forall c: nat {:trigger IsReached(a, perm, uniq, c)} :: c < fan[|uniq|] ==> IsReached(a, perm, uniq, c))
  }

  ghost predicate IsSortedSmallRange(a: seq<nat>, perm: seq<nat>, fan: seq<nat>, uniq: seq<nat>) {
    && IsGrouped(a, perm, fan, uniq) && IsPerm(perm, |a|) && fan[|uniq|] == |a|
    && (forall i :: 0 <= i < |a| ==> a[i] in uniq)
    && (forall m :: 0 <= m < |uniq| ==> uniq[m] in a)
  }

  method NumberSameValues(a: seq<nat>, value: nat) returns (tmpPerm: seq<nat>)
    ensures |tmpPerm| == |a| + 1 && forall n :: 0 <= n <= |a| ==> tmpPerm[n] == CountOf(a, value, n)
  {
    tmpPerm := [0];
    for i := 0 to |a|
      invariant |tmpPerm| == i + 1 && forall n :: 0 <= n <= i ==> tmpPerm[n] == CountOf(a, value, n)
    {
      tmpPerm := tmpPerm + [tmpPerm[i] + if a[i] == value then 1 else 0];
    }
  }

  method CombinePerms(a: seq<nat>, value: nat, tmpPerm: seq<nat>, perm: seq<nat>, ndone: nat) returns (perm': seq<nat>)
    requires |tmpPerm| == |a| + 1 && |perm| == |a|
    ensures |perm'| == |a|
    ensures forall i :: 0 <= i < |a| ==> perm'[i] == if a[i] == value then tmpPerm[i] + ndone else perm[i]
  {
    perm' := perm;
    for i := 0 to |a|
      invariant |perm'| == |a|
      invariant forall j :: 0 <= j < |a| ==> perm'[j] == if j < i && a[j] == value then tmpPerm[j] + ndone else perm[j]
    {
      if a[i] == value {
        perm' := perm'[i := tmpPerm[i] + ndone];
      }
    }
  }

  /** The smallest value above the given ones; `floor` is one more than the last. */
  method NextSmallestValue(a: seq<nat>, floor: nat) returns (value: nat)
    requires exists i :: 0 <= i < |a| && a[i] >= floor
    ensures value in a && value >= floor && forall i :: 0 <= i < |a| && a[i] >= floor ==> value <= a[i]
  {
    var found := false;
    value := 0;
    for i := 0 to |a|
      invariant found <==> exists j :: 0 <= j < i && a[j] >= floor
      invariant found ==> value in a && value >= floor && forall j :: 0 <= j < i && a[j] >= floor ==> value <= a[j]
    {
      if a[i] >= floor && (!found || a[i] < value) {
        value, found := a[i], true;
      }
    }
  }

  /** The values below `floor` are done, and only they. */
  ghost predicate AreDone(a: seq<nat>, uniq: seq<nat>, floor: nat) {
    && (forall m :: 0 <= m < |uniq| ==> uniq[m] < floor && uniq[m] in a)
    && (forall i :: 0 <= i < |a| && a[i] < floor ==> a[i] in uniq)
  }

  /** One more group. */
  lemma {:induction false} GroupAdded(
      a: seq<nat>, perm: seq<nat>, fan: seq<nat>, uniq: seq<nat>, ndone: nat, value: nat,
      perm': seq<nat>, ndid: nat)
    requires IsGrouped(a, perm, fan, uniq) && fan[|uniq|] == ndone
    requires ndid == CountOf(a, value, |a|) && forall m :: 0 <= m < |uniq| ==> uniq[m] < value
    requires |perm'| == |a|
    requires forall i :: 0 <= i < |a| ==> perm'[i] == if a[i] == value then CountOf(a, value, i) + ndone else perm[i]
    ensures IsGrouped(a, perm', fan + [ndone + ndid], uniq + [value])
  {
    var fan', uniq' := fan + [ndone + ndid], uniq + [value];
    assert value !in uniq;
    forall i | 0 <= i < |a| && a[i] == value
      ensures ndone <= perm'[i] < ndone + ndid
    {
      CountAscends(a, value, i, |a|);
    }
    forall i
      ensures IsOffsetStep(fan', i)
    {
      assert IsOffsetStep(fan, i);
    }
    forall i: nat, m: nat
      ensures IsInGroup(a, perm', fan', uniq', i, m)
    {
      assert IsInGroup(a, perm, fan, uniq, i, m);
      if i < |a| && m < |uniq'| && uniq'[m] == a[i] && m < |uniq| {
        assert a[i] != value;
      }
    }
    forall i, j | 0 <= i < j < |a| && a[i] == value && a[j] == value
      ensures perm'[i] < perm'[j]
    {
      CountAscends(a, value, i, j);
    }
    forall c: nat | c < ndone + ndid
      ensures IsReached(a, perm', uniq', c)
    {
      if c < ndone {
        assert IsReached(a, perm, uniq, c);
        var i :| 0 <= i < |a| && i < |perm| && a[i] in uniq && perm[i] == c;
        assert perm'[i] == c;
      } else {
        var i := NthOf(a, value, |a|, c - ndone);
        assert perm'[i] == c;
      }
    }
  }

  lemma {:induction false} NothingIsIn(a: seq<nat>, n: nat)
    requires n <= |a|
    ensures CountIn(a, [], n) == 0
  {
    if n > 0 {
      NothingIsIn(a, n - 1);
    }
  }

  lemma {:induction false} NothingIsGrouped(a: seq<nat>, perm: seq<nat>)
    requires |perm| == |a|
    ensures IsGrouped(a, perm, [0], []) && AreDone(a, [], 0) && CountIn(a, [], |a|) == 0
  {
    NothingIsIn(a, |a|);
  }

  /** The sorting, so far: the values below `floor` have their groups. */
  ghost predicate IsSorting(a: seq<nat>, perm: seq<nat>, fan: seq<nat>, uniq: seq<nat>, ndone: nat, floor: nat) {
    IsGrouped(a, perm, fan, uniq) && fan[|uniq|] == ndone == CountIn(a, uniq, |a|) && AreDone(a, uniq, floor)
  }

  lemma DoneGrows(a: seq<nat>, uniq: seq<nat>, floor: nat, value: nat)
    requires AreDone(a, uniq, floor) && value in a && value >= floor
    requires forall i :: 0 <= i < |a| && a[i] >= floor ==> value <= a[i]
    ensures AreDone(a, uniq + [value], value + 1)
  {
    var uniq' := uniq + [value];
    forall i | 0 <= i < |a| && a[i] < value + 1
      ensures a[i] in uniq'
    {
      if a[i] == value {
        assert uniq'[|uniq|] == value;
      } else {
        assert a[i] in uniq;
      }
    }
  }

  method AddGroup(a: seq<nat>, perm: seq<nat>, ghost fan: seq<nat>, ghost uniq: seq<nat>, ndone: nat, floor: nat)
    returns (value: nat, perm': seq<nat>, ndone': nat)
    requires IsSorting(a, perm, fan, uniq, ndone, floor) && ndone < |a|
    ensures IsSorting(a, perm', fan + [ndone'], uniq + [value], ndone', value + 1) && ndone < ndone' <= |a|
  {
    SomeIsLeft(a, perm, fan, uniq, ndone, floor);
    value := NextSmallestValue(a, floor);
    var tmpPerm := NumberSameValues(a, value);
    var ndid := tmpPerm[|a|];
    perm' := CombinePerms(a, value, tmpPerm, perm, ndone);
    SortingGrows(a, perm, fan, uniq, ndone, floor, value, perm', ndid);
    ndone' := ndone + ndid;
  }

  lemma SomeIsLeft(
      a: seq<nat>, perm: seq<nat>, fan: seq<nat>, uniq: seq<nat>, ndone: nat, floor: nat)
    requires IsSorting(a, perm, fan, uniq, ndone, floor) && ndone < |a|
    ensures exists i :: 0 <= i < |a| && a[i] >= floor
  {
    AllAreIn(a, uniq, |a|);
  }

  lemma {:induction false} SortingGrows(a: seq<nat>, perm: seq<nat>, fan: seq<nat>, uniq: seq<nat>, ndone: nat,
      floor: nat, value: nat, perm': seq<nat>, ndid: nat)
    requires IsSorting(a, perm, fan, uniq, ndone, floor) && value in a && value >= floor
    requires forall i :: 0 <= i < |a| && a[i] >= floor ==> value <= a[i]
    requires ndid == CountOf(a, value, |a|) && |perm'| == |a|
    requires forall i :: 0 <= i < |a| ==> perm'[i] == if a[i] == value then CountOf(a, value, i) + ndone else perm[i]
    ensures IsSorting(a, perm', fan + [ndone + ndid], uniq + [value], ndone + ndid, value + 1) && ndid > 0
    ensures ndone + ndid <= |a|
  {
    GroupAdded(a, perm, fan, uniq, ndone, value, perm', ndid);
    CountInGrows(a, uniq, value, |a|);
    ValueOccurs(a, value);
    DoneGrows(a, uniq, floor, value);
  }

  method SortSmallRange(a: seq<nat>) returns (perm: seq<nat>, fan: seq<nat>, uniq: seq<nat>)
    ensures IsSortedSmallRange(a, perm, fan, uniq)
  {
    perm, fan, uniq := seq(|a|, _ => 0), [0], [];
    var ndone, floor := 0, 0;
    NothingIsGrouped(a, perm);
    while ndone < |a|
      invariant IsSorting(a, perm, fan, uniq, ndone, floor) && ndone <= |a|
      decreases |a| - ndone
    {
      var value;
      value, perm, ndone := AddGroup(a, perm, fan, uniq, ndone, floor);
      fan, uniq, floor := fan + [ndone], uniq + [value], value + 1;
    }
    AllAreIn(a, uniq, |a|);
    GroupingIsSorted(a, perm, fan, uniq);
  }

  lemma {:induction false} ValueOccurs(a: seq<nat>, value: nat)
    requires value in a
    ensures CountOf(a, value, |a|) > 0
  {
    var i :| 0 <= i < |a| && a[i] == value;
    CountAscends(a, value, i, |a|);
  }

  lemma GroupingIsSorted(a: seq<nat>, perm: seq<nat>, fan: seq<nat>, uniq: seq<nat>)
    requires IsGrouped(a, perm, fan, uniq) && fan[|uniq|] == |a|
    requires forall i :: 0 <= i < |a| ==> a[i] in uniq
    ensures IsPerm(perm, |a|)
  {
    forall c: nat | c < |a|
      ensures c in perm
    {
      assert IsReached(a, perm, uniq, c);
    }
  }

  // ----- destinations -----

  /** The forward side that sorts the items by the rank they go to. */
  ghost predicate IsSortedSide(side: Side, ranks: seq<nat>) {
    && side.roots2items.None? && side.items2content.Some?
    && IsSortedSmallRange(ranks, side.items2content.value, side.msgs2content, side.msgs2ranks)
  }

  /** The item goes to that rank. */
  ghost predicate GoesTo(side: Side, i: nat, rank: nat) {
    forall m: nat :: side.InMessage(side.ContentAt(i), m) && m < |side.msgs2ranks| ==> side.msgs2ranks[m] == rank
  }

  lemma SortedSideIs(side: Side, ranks: seq<nat>, nranks: nat)
    requires IsSortedSide(side, ranks) && forall i :: 0 <= i < |ranks| ==> ranks[i] < nranks
    ensures side.Valid(nranks) && side.NItems() == |ranks|
    ensures forall i: nat :: i < |ranks| ==> GoesTo(side, i, ranks[i])
    ensures forall rank :: rank in side.msgs2ranks <==> rank in ranks
  {
    forall m | 0 <= m < |side.msgs2ranks|
      ensures side.msgs2ranks[m] < nranks && side.msgs2ranks[m] in ranks
    {
    }
    forall i: nat | i < |ranks|
      ensures GoesTo(side, i, ranks[i])
    {
      ItemGoesTo(side, ranks, nranks, i);
    }
  }

  lemma ItemGoesTo(side: Side, ranks: seq<nat>, nranks: nat, i: nat)
    requires IsSortedSide(side, ranks) && i < |ranks|
    ensures GoesTo(side, i, ranks[i])
  {
    var fan, uniq := side.msgs2content, side.msgs2ranks;
    assert ranks[i] in uniq;
    var l :| 0 <= l < |uniq| && uniq[l] == ranks[i];
    assert IsInGroup(ranks, side.items2content.value, fan, uniq, i, l);
    forall m: nat | side.InMessage(side.ContentAt(i), m) && m < |uniq|
      ensures uniq[m] == ranks[i]
    {
      OffsetsApart(fan, |uniq|, fan[|uniq|], side.ContentAt(i), m, l);
    }
  }

  lemma OffsetsApart(fan: seq<nat>, n: nat, total: nat, c: nat, m: nat, l: nat)
    requires AreOffsets(fan, n, total) && m < n && l < n && fan[m] <= c < fan[m + 1] && fan[l] <= c < fan[l + 1]
    ensures m == l
  {
    if m < l {
      OffsetsAscend(fan, n, total, m + 1, l);
    } else if l < m {
      OffsetsAscend(fan, n, total, l + 1, m);
    }
  }

  ghost predicate SendsLength(side: Side, q: nat, degree: nat) {
    forall m :: 0 <= m < |side.msgs2ranks| && m + 1 < |side.msgs2content| && side.msgs2ranks[m] == q ==>
      side.msgs2content[m] + degree == side.msgs2content[m + 1]
  }

  /** The ranks that name `q`, in order, with the lengths of their messages. */
  method FindSenders(sides: seq<Side>, q: nat) returns (senders: seq<nat>, degrees: seq<nat>)
    requires forall p :: 0 <= p < |sides| ==> sides[p].Valid(|sides|)
    ensures |degrees| == |senders|
    ensures forall k :: 0 <= k < |senders| ==> senders[k] < |sides|
    ensures forall k, l :: 0 <= k < l < |senders| ==> senders[k] < senders[l]
    ensures forall p :: 0 <= p < |sides| ==> (p in senders <==> q in sides[p].msgs2ranks)
    ensures forall k :: 0 <= k < |senders| ==> SendsLength(sides[senders[k]], q, degrees[k])
  {
    senders, degrees := [], [];
    for p := 0 to |sides|
      invariant |degrees| == |senders|
      invariant forall k :: 0 <= k < |senders| ==> senders[k] < p
      invariant forall k, l :: 0 <= k < l < |senders| ==> senders[k] < senders[l]
      invariant forall r :: 0 <= r < p ==> (r in senders <==> q in sides[r].msgs2ranks)
      invariant forall k :: 0 <= k < |senders| ==> SendsLength(sides[senders[k]], q, degrees[k])
    {
      if q in sides[p].msgs2ranks {
        var m := FindMessage(sides[p], q);
        assert IsOffsetStep(sides[p].msgs2content, m);
        senders, degrees := senders + [p], degrees + [sides[p].msgs2content[m + 1] - sides[p].msgs2content[m]];
      }
    }
  }

  /** A reverse side as the exchange of message lengths gives it: items are content. */
  ghost predicate IsReverseSide(sides: seq<Side>, q: nat, side: Side) {
    && side.roots2items.None? && side.items2content.None? && side.Valid(|sides|)
    && (forall p :: 0 <= p < |sides| ==> (p in side.msgs2ranks <==> q in sides[p].msgs2ranks))
    && (forall k: nat, m: nat {:trigger AgreeOnLength(sides, q, side, k, m)} :: AgreeOnLength(sides, q, side, k, m))
  }

  ghost predicate AgreeOnLength(sides: seq<Side>, q: nat, side: Side, k: nat, m: nat) {
    k < |side.msgs2ranks| && side.msgs2ranks[k] < |sides| && k + 1 < |side.msgs2content| ==>
      var from := sides[side.msgs2ranks[k]];
      m < |from.msgs2ranks| && m + 1 < |from.msgs2content| && from.msgs2ranks[m] == q ==>
        from.msgs2content[m + 1] + side.msgs2content[k] == side.msgs2content[k + 1] + from.msgs2content[m]
  }

  method MakeReverseSide(sides: seq<Side>, q: nat) returns (side: Side)
    requires forall p :: 0 <= p < |sides| ==> sides[p].Valid(|sides|)
    ensures IsReverseSide(sides, q, side)
  {
    var senders, degrees := FindSenders(sides, q);
    var offsets := OffsetScan(degrees);
    side := Side(None, None, offsets, senders);
    forall k: nat, m: nat
      ensures AgreeOnLength(sides, q, side, k, m)
    {
      assert IsScanStep(degrees, offsets, k);
    }
  }

  lemma SidesMakeWorld(w: World, sides: seq<Side>)
    requires |w| == |sides| && forall p :: 0 <= p < |w| ==> w[p].f == sides[p] && sides[p].Valid(|w|)
    requires forall q :: 0 <= q < |w| ==> IsReverseSide(sides, q, w[q].r)
    ensures IsWorld(w)
  {
    forall p: nat, m: nat
      ensures IsReceived(w, p, m)
    {
      if p < |w| && m < |w[p].f.msgs2ranks| {
        var q := w[p].f.msgs2ranks[m];
        assert p in w[q].r.msgs2ranks;
        var k: nat :| k < |w[q].r.msgs2ranks| && w[q].r.msgs2ranks[k] == p;
        assert IsLinked(w, p, m, q, k);
      }
    }
    forall q: nat, k: nat
      ensures IsSentBy(w, q, k)
    {
      if q < |w| && k < |w[q].r.msgs2ranks| {
        var p := w[q].r.msgs2ranks[k];
        assert q in w[p].f.msgs2ranks;
        var m: nat :| m < |w[p].f.msgs2ranks| && w[p].f.msgs2ranks[m] == q;
        assert IsLinked(w, p, m, q, k);
      }
    }
    forall p: nat, m: nat, q: nat, k: nat
      ensures SameLength(w, p, m, q, k)
    {
      if q < |w| {
        assert AgreeOnLength(sides, q, w[q].r, k, m);
      }
    }
  }

  /** Ranks of the destinations of each rank's items. */
  ghost predicate AreRanks(ranks: seq<seq<nat>>) {
    forall p, i :: 0 <= p < |ranks| && 0 <= i < |ranks[p]| ==> ranks[p][i] < |ranks|
  }

  /** The world sends every item to its rank. */
  ghost predicate SendsTo(w: World, ranks: seq<seq<nat>>) {
    && IsWorld(w) && |w| == |ranks|
    && forall p :: 0 <= p < |w| ==> IsSortedSide(w[p].f, ranks[p])
  }

  method SetDestRanks(ranks: seq<seq<nat>>) returns (w: World)
    requires AreRanks(ranks)
    ensures SendsTo(w, ranks)
    ensures forall q :: 0 <= q < |w| ==> w[q].r.roots2items.None? && w[q].r.items2content.None?
  {
    var sides: seq<Side> := [];
    for p := 0 to |ranks|
      invariant |sides| == p && forall r :: 0 <= r < p ==> IsSortedSide(sides[r], ranks[r])
    {
      var perm, fan, uniq := SortSmallRange(ranks[p]);
      sides := sides + [Side(None, Some(perm), fan, uniq)];
    }
    forall p | 0 <= p < |sides|
      ensures sides[p].Valid(|sides|)
    {
      SortedSideIs(sides[p], ranks[p], |ranks|);
    }
    w := [];
    for q := 0 to |sides|
      invariant |w| == q
      invariant forall p :: 0 <= p < q ==> w[p].f == sides[p] && IsReverseSide(sides, p, w[p].r)
    {
      var reverse := MakeReverseSide(sides, q);
      w := w + [Dist(sides[q], reverse)];
    }
    SidesMakeWorld(w, sides);
  }

  lemma CarriedToRank(w: World, ranks: seq<seq<nat>>, p: nat, i: nat, q: nat, j: nat)
    requires SendsTo(w, ranks) && AreRanks(ranks) && IsCarried(w, p, i, q, j)
    ensures i < |ranks[p]| && ranks[p][i] == q
  {
    SortedSideIs(w[p].f, ranks[p], |w|);
    var m: nat, k: nat :| IsSentAs(w, p, w[p].f.ContentAt(i), q, w[q].r.ContentAt(j), m, k);
    assert GoesTo(w[p].f, i, ranks[p][i]);
  }

  // ----- destination roots -----

  /** The reverse items are sorted by the roots they are for. */
  function WithRoots(d: Dist, g: Graph): Dist {
    d.(r := d.r.(roots2items := Some(g.a2ab), items2content := Some(g.ab2b)))
  }

  ghost predicate HasSameMessages(w: World, v: World) {
    && |v| == |w|
    && forall q :: 0 <= q < |w| ==>
      v[q].f == w[q].f && v[q].r.msgs2content == w[q].r.msgs2content && v[q].r.msgs2ranks == w[q].r.msgs2ranks
  }

  lemma SameMessagesMakeWorld(w: World, v: World)
    requires IsWorld(w) && HasSameMessages(w, v) && forall q :: 0 <= q < |w| ==> v[q].r.Valid(|w|)
    ensures IsWorld(v)
  {
    forall p: nat, m: nat
      ensures IsReceived(v, p, m)
    {
      assert IsReceived(w, p, m);
      if p < |w| && m < |w[p].f.msgs2ranks| {
        var k: nat :| IsLinked(w, p, m, w[p].f.msgs2ranks[m], k);
        assert IsLinked(v, p, m, w[p].f.msgs2ranks[m], k);
      }
    }
    forall q: nat, k: nat
      ensures IsSentBy(v, q, k)
    {
      assert IsSentBy(w, q, k);
      if q < |w| && k < |w[q].r.msgs2ranks| {
        var m: nat :| IsLinked(w, w[q].r.msgs2ranks[k], m, q, k);
        assert IsLinked(v, w[q].r.msgs2ranks[k], m, q, k);
      }
    }
    forall p: nat, m: nat, q: nat, k: nat
      ensures SameLength(v, p, m, q, k)
    {
      assert SameLength(w, p, m, q, k);
    }
  }

  lemma SameMessagesAreSent(w: World, v: World, p: nat, c: nat, q: nat, c2: nat)
    requires HasSameMessages(w, v) && IsSent(v, p, c, q, c2)
    ensures IsSent(w, p, c, q, c2)
  {
    var m: nat, k: nat :| IsSentAs(v, p, c, q, c2, m, k);
    assert IsSentAs(w, p, c, q, c2, m, k);
  }

  /** Every item is in the bucket of its root, at the rank it goes to. */
  ghost predicate IsDistFor(w: World, ranks: seq<seq<nat>>, idxs: seq<seq<nat>>, nrroots: seq<nat>) {
    && SendsTo(w, ranks) && |idxs| == |ranks| == |nrroots|
    && (forall q :: 0 <= q < |w| ==>
      w[q].r.roots2items.Some? && w[q].r.items2content.Some? && w[q].r.NRoots() == nrroots[q])
    && (forall p: nat, i: nat, q: nat, j: nat {:trigger IsCarried(w, p, i, q, j)} ::
          IsCarried(w, p, i, q, j) ==> i < |idxs[p]| && w[q].r.InRoot(j, idxs[p][i]))
  }

  /** As many destination roots as items, and each exists. */
  ghost predicate AreIdxs(ranks: seq<seq<nat>>, idxs: seq<seq<nat>>, nrroots: seq<nat>) {
    && AreRanks(ranks) && |idxs| == |ranks| == |nrroots| && (forall p :: 0 <= p < |ranks| ==> |idxs[p]| == |ranks[p]|)
    && forall p, i :: 0 <= p < |ranks| && 0 <= i < |ranks[p]| ==> idxs[p][i] < nrroots[ranks[p][i]]
  }

  lemma InvertedSideIs(side: Side, nranks: nat, got: seq<nat>, nroots: nat, g: Graph)
    requires side.Valid(nranks) && |got| == side.NItems() && InvertsMap(g, got, nroots)
    ensures side.(roots2items := Some(g.a2ab), items2content := Some(g.ab2b)).Valid(nranks)
  {
    forall i | 0 <= i < |g.ab2b|
      ensures g.ab2b[i] < |got|
    {
      var b := BucketOf(g.a2ab, nroots, |got|, i, nroots);
      assert HasBucket(g, got, b, i);
    }
    forall c: nat | c < |got|
      ensures c in g.ab2b
    {
    }
  }

  /** What arrives at a rank are roots of that rank. */
  lemma ArrivingRootsExist(
      w: World, ranks: seq<seq<nat>>, idxs: seq<seq<nat>>, nrroots: seq<nat>, got: seq<seq<nat>>, q: nat)
    requires SendsTo(w, ranks) && AreIdxs(ranks, idxs, nrroots) && AreBrought(w, idxs, got) && q < |w|
    ensures IsMap(got[q], nrroots[q])
  {
    forall j | 0 <= j < |got[q]|
      ensures got[q][j] < nrroots[q]
    {
      var p, i := ItemIsBrought(w, q, j);
      CarriedToRank(w, ranks, p, i, q, j);
      assert w[p].f.InRoot(i, i);
      assert Brings(w, idxs, got, p, i, i, q, j);
    }
  }

  lemma RootsAreRight(w: World, ranks: seq<seq<nat>>, idxs: seq<seq<nat>>, nrroots: seq<nat>,
      got: seq<seq<nat>>, v: World, gs: seq<Graph>, p: nat, i: nat, q: nat, j: nat)
    requires SendsTo(w, ranks) && AreIdxs(ranks, idxs, nrroots) && AreBrought(w, idxs, got) && HasSameMessages(w, v)
    requires q < |w| ==>
      && w[q].r.items2content.None? && q < |gs| && InvertsMap(gs[q], got[q], nrroots[q])
      && v[q] == WithRoots(w[q], gs[q])
    requires IsCarried(v, p, i, q, j)
    ensures i < |idxs[p]| && v[q].r.InRoot(j, idxs[p][i])
  {
    var g := gs[q];
    var b := BucketOf(g.a2ab, nrroots[q], |got[q]|, j, nrroots[q]);
    assert HasBucket(g, got[q], b, j);
    var c2 := g.ab2b[j];
    SameMessagesAreSent(w, v, p, v[p].f.ContentAt(i), q, c2);
    assert IsCarried(w, p, i, q, c2);
    CarriedToRank(w, ranks, p, i, q, c2);
    assert w[p].f.InRoot(i, i);
    assert Brings(w, idxs, got, p, i, i, q, c2);
  }

  method SetDestIdxs(w: World, ghost ranks: seq<seq<nat>>, idxs: seq<seq<nat>>, nrroots: seq<nat>) returns (v: World)
    requires SendsTo(w, ranks) && AreIdxs(ranks, idxs, nrroots)
    requires forall q :: 0 <= q < |w| ==> w[q].r.roots2items.None? && w[q].r.items2content.None?
    ensures IsDistFor(v, ranks, idxs, nrroots)
  {
    forall p | 0 <= p < |w|
      ensures w[p].f.NRoots() == |idxs[p]|
    {
      SortedSideIs(w[p].f, ranks[p], |w|);
    }
    var got := Exch(w, idxs);
    v := [];
    ghost var gs: seq<Graph> := [];
    for q := 0 to |w|
      invariant |v| == q == |gs|
      invariant forall p :: 0 <= p < q ==> InvertsMap(gs[p], got[p], nrroots[p]) && v[p] == WithRoots(w[p], gs[p])
    {
      ArrivingRootsExist(w, ranks, idxs, nrroots, got, q);
      var g := InvertMapByAtomics(got[q], nrroots[q]);
      v, gs := v + [WithRoots(w[q], g)], gs + [g];
    }
    RootedIsDist(w, ranks, idxs, nrroots, got, v, gs);
  }

  lemma RootedIsDist(w: World, ranks: seq<seq<nat>>, idxs: seq<seq<nat>>, nrroots: seq<nat>,
      got: seq<seq<nat>>, v: World, gs: seq<Graph>)
    requires SendsTo(w, ranks) && AreIdxs(ranks, idxs, nrroots) && AreBrought(w, idxs, got) && |v| == |w| == |gs|
    requires forall q :: 0 <= q < |w| ==> w[q].r.roots2items.None? && w[q].r.items2content.None?
    requires forall p :: 0 <= p < |w| ==> InvertsMap(gs[p], got[p], nrroots[p]) && v[p] == WithRoots(w[p], gs[p])
    ensures IsDistFor(v, ranks, idxs, nrroots)
  {
    forall q | 0 <= q < |w|
      ensures v[q].r.Valid(|w|)
    {
      InvertedSideIs(w[q].r, |w|, got[q], nrroots[q], gs[q]);
    }
    SameMessagesMakeWorld(w, v);
    forall p: nat, i: nat, q: nat, j: nat | IsCarried(v, p, i, q, j)
      ensures i < |idxs[p]| && v[q].r.InRoot(j, idxs[p][i])
    {
      RootsAreRight(w, ranks, idxs, nrroots, got, v, gs, p, i, q, j);
    }
  }

  /** The constructor. */
  method MakeDist(ranks: seq<seq<nat>>, idxs: seq<seq<nat>>, nrroots: seq<nat>) returns (w: World)
    requires AreIdxs(ranks, idxs, nrroots)
    ensures IsDistFor(w, ranks, idxs, nrroots)
  {
    w := SetDestRanks(ranks);
    w := SetDestIdxs(w, ranks, idxs, nrroots);
  }

  // ----- reading the destinations -----

  /** The message of each place of the content. */
  method InvertFan(a2b: seq<nat>, ghost total: nat) returns (b2a: seq<nat>)
    requires |a2b| > 0 && AreOffsets(a2b, |a2b| - 1, total)
    ensures |b2a| == total
    ensures forall a, b :: 0 <= a < |a2b| - 1 && a2b[a] <= b < a2b[a + 1] && b < |b2a| ==> b2a[b] == a
  {
    b2a := [];
    for a := 0 to |a2b| - 1
      invariant |b2a| == a2b[a]
      invariant forall d, b :: 0 <= d < a && a2b[d] <= b < a2b[d + 1] && b < |b2a| ==> b2a[b] == d
    {
      assert IsOffsetStep(a2b, a);
      ghost var was := b2a;
      b2a := b2a + seq(a2b[a + 1] - a2b[a], _ => a);
      forall d, b | 0 <= d < a + 1 && a2b[d] <= b < a2b[d + 1] && b < |b2a|
        ensures b2a[b] == d
      {
        if d < a {
          OffsetsAscend(a2b, |a2b| - 1, total, d + 1, a);
          assert b2a[b] == was[b];
        }
      }
    }
  }

  ghost predicate AreRanksOf(side: Side, ranks: seq<nat>) {
    |ranks| == side.NItems() && forall i: nat :: i < |ranks| ==> GoesTo(side, i, ranks[i])
  }

  method Items2Ranks(side: Side, ghost nranks: nat) returns (ranks: seq<nat>)
    requires side.Valid(nranks)
    ensures AreRanksOf(side, ranks)
  {
    var content2msgs := InvertFan(side.msgs2content, side.NItems());
    var items2msgs := content2msgs;
    if side.items2content.Some? {
      items2msgs := Unmap(side.items2content.value, content2msgs);
    }
    ranks := [];
    for i := 0 to |items2msgs|
      invariant |ranks| == i && forall k: nat :: k < i ==> GoesTo(side, k, ranks[k])
    {
      var m := MessageOfItem(side, nranks, content2msgs, items2msgs, i);
      ranks := ranks + [side.msgs2ranks[m]];
    }
  }

  method MessageOfItem(side: Side, ghost nranks: nat, ghost content2msgs: seq<nat>, items2msgs: seq<nat>, i: nat)
    returns (m: nat)
    requires side.Valid(nranks) && |content2msgs| == side.NItems() == |items2msgs| && i < side.NItems()
    requires forall a: nat, b: nat :: side.InMessage(b, a) && b < |content2msgs| ==> content2msgs[b] == a
    requires side.ContentAt(i) < |content2msgs| && items2msgs[i] == content2msgs[side.ContentAt(i)]
    ensures m < |side.msgs2ranks| && GoesTo(side, i, side.msgs2ranks[m])
  {
    m := items2msgs[i];
    ghost var l := MessageOf(side, nranks, side.ContentAt(i), |side.msgs2ranks|);
  }

  /** Where each item of a world goes: rank and root. */
  ghost predicate AreDests(w: World, ranks: seq<seq<nat>>, idxs: seq<seq<nat>>) {
    && |ranks| == |w| == |idxs| && (forall p :: 0 <= p < |w| ==> |ranks[p]| == w[p].f.NItems() == |idxs[p]|)
    && forall p: nat, i: nat, q: nat, j: nat, root: nat {:trigger IsCarried(w, p, i, q, j), w[q].r.InRoot(j, root)} ::
      IsCarried(w, p, i, q, j) && w[q].r.InRoot(j, root) ==> ranks[p][i] == q && idxs[p][i] == root
  }

  function Identity(n: nat): (s: seq<nat>)
    ensures |s| == n && forall i :: 0 <= i < n ==> s[i] == i
  {
    seq(n, (i: nat) => i)
  }

  ghost predicate RanksAreFound(w: World, ranks: seq<seq<nat>>) {
    |ranks| == |w| && forall p :: 0 <= p < |w| ==> AreRanksOf(w[p].f, ranks[p])
  }

  lemma DestsAre(w: World, roots: seq<seq<nat>>, ranks: seq<seq<nat>>, idxs: seq<seq<nat>>)
    requires IsWorld(w) && IsWorld(Invert(w)) && RanksAreFound(w, ranks)
    requires |roots| == |w| && forall q :: 0 <= q < |w| ==> roots[q] == Identity(w[q].r.NRoots())
    requires AreBrought(Invert(w), roots, idxs)
    ensures AreDests(w, ranks, idxs)
  {
    hide IsWorld;
    forall p: nat, i: nat, q: nat, j: nat, root: nat | IsCarried(w, p, i, q, j) && w[q].r.InRoot(j, root)
      ensures ranks[p][i] == q && idxs[p][i] == root
    {
      assert AreRanksOf(w[p].f, ranks[p]);
      CarriedInverts(w, p, i, q, j);
      assert Brings(Invert(w), roots, idxs, q, j, root, p, i);
      CarriedGoesTo(w, p, i, q, j, ranks[p][i]);
    }
  }

  method Items2Dests(w: World) returns (ranks: seq<seq<nat>>, idxs: seq<seq<nat>>)
    requires IsWorld(w)
    ensures AreDests(w, ranks, idxs)
  {
    ranks := [];
    for p := 0 to |w|
      invariant |ranks| == p && forall r :: 0 <= r < p ==> AreRanksOf(w[r].f, ranks[r])
    {
      var ofRank := Items2Ranks(w[p].f, |w|);
      ranks := ranks + [ofRank];
    }
    InverseIsWorld(w);
    var roots: seq<seq<nat>> := seq(|w|, q requires 0 <= q < |w| => Identity(w[q].r.NRoots()));
    idxs := Exch(Invert(w), roots);
    DestsAre(w, roots, ranks, idxs);
  }

  lemma CarriedGoesTo(w: World, p: nat, i: nat, q: nat, j: nat, rank: nat)
    requires IsCarried(w, p, i, q, j) && GoesTo(w[p].f, i, rank)
    ensures rank == q
  {
    var m: nat, k: nat :| IsSentAs(w, p, w[p].f.ContentAt(i), q, w[q].r.ContentAt(j), m, k);
  }

  /** The round trip: what the map was built from is what it gives back. */
  lemma DestsComeBack(w: World, ranks: seq<seq<nat>>, idxs: seq<seq<nat>>, nrroots: seq<nat>,
      ranks': seq<seq<nat>>, idxs': seq<seq<nat>>)
    requires AreIdxs(ranks, idxs, nrroots) && IsDistFor(w, ranks, idxs, nrroots) && AreDests(w, ranks', idxs')
    ensures ranks' == ranks && idxs' == idxs
  {
    forall p | 0 <= p < |w|
      ensures ranks'[p] == ranks[p] && idxs'[p] == idxs[p]
    {
      SortedSideIs(w[p].f, ranks[p], |w|);
      forall i | 0 <= i < |ranks[p]|
        ensures ranks'[p][i] == ranks[p][i] && idxs'[p][i] == idxs[p][i]
      {
        var q, j := ItemIsCarried(w, p, i);
        CarriedToRank(w, ranks, p, i, q, j);
      }
    }
  }

  /** What `exch` brings into the bucket of a root is exactly what was sent there. */
  lemma BucketIsExact(
      w: World, ranks: seq<seq<nat>>, idxs: seq<seq<nat>>, nrroots: seq<nat>, q: nat, root: nat, j: nat)
    returns (p: nat, i: nat)
    requires AreIdxs(ranks, idxs, nrroots) && IsDistFor(w, ranks, idxs, nrroots)
    requires q < |w| && j < w[q].r.NItems() && w[q].r.InRoot(j, root)
    ensures IsCarried(w, p, i, q, j) && i < |ranks[p]| && ranks[p][i] == q && idxs[p][i] == root
  {
    p, i := ItemIsBrought(w, q, j);
    CarriedToRank(w, ranks, p, i, q, j);
    OneRoot(w[q].r, |w|, j, root, idxs[p][i]);
  }

  lemma OneRoot(side: Side, nranks: nat, j: nat, r1: nat, r2: nat)
    requires side.Valid(nranks) && side.InRoot(j, r1) && side.InRoot(j, r2)
    ensures r1 == r2
  {
    if side.roots2items.Some? {
      var offsets := side.roots2items.value;
      OffsetsApart(offsets, |offsets| - 1, side.NItems(), j, r1, r2);
    }
  }
}
