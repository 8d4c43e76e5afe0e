/** Sorting cavities by how they meet the boundary, and by colour those whose key is on it
    (`get_elems_are_bdry`, `separate_cavities`), before the ledger is transferred: every changed element is
    still accounted for once. */
module BoundaryStatus {
  import opened Separation
  import opened Ledger

  /** On what model entities the vertices and elements of a mesh are. */
  datatype Classes = Classes(dim: int, vertDims: seq<int>, elemVerts: seq<seq<nat>>, ids: seq<int>) {
    predicate IsBdryVert(v: nat) {
      v < |vertDims| && vertDims[v] != dim
    }

    /** The element has a vertex on the boundary. */
    ghost predicate IsBdryElem(e: nat) {
      e < |elemVerts| && exists v :: v in elemVerts[e] && IsBdryVert(v)
    }

    ghost predicate TouchesBdry(c: Cavity) {
      exists e :: e in c.olds && IsBdryElem(e)
    }

    method ElemsAreBdry() returns (marks: seq<bool>)
      ensures |marks| == |elemVerts| && forall e :: 0 <= e < |marks| ==> (marks[e] <==> IsBdryElem(e))
    {
      marks := [];
      for e := 0 to |elemVerts|
        invariant |marks| == e && forall d :: 0 <= d < e ==> (marks[d] <==> IsBdryElem(d))
      {
        var verts, mark := elemVerts[e], false;
        for i := 0 to |verts|
          invariant mark <==> exists j :: 0 <= j < i && IsBdryVert(verts[j])
        {
          if IsBdryVert(verts[i]) {
            mark := true;
          }
        }
        assert mark <==> IsBdryElem(e);
        marks := marks + [mark];
      }
    }
  }

  /** How many elements of a cavity are marked. */
  function Marked(elems: seq<nat>, marks: seq<bool>): (n: nat)
    ensures n > 0 <==> exists e :: e in elems && e < |marks| && marks[e]
  {
    if elems == [] then 0
    else
      var front, e := elems[..|elems| - 1], elems[|elems| - 1];
      assert elems == front + [e];
      Marked(front, marks) + if e < |marks| && marks[e] then 1 else 0
  }

  // ----- the elements of cavities -----

  ghost function Bag1(c: Cavity, olds: bool): multiset<nat> {
    if olds then multiset(c.olds) else multiset(c.news)
  }

  /** All old elements, or all new ones. */
  ghost function Bag(cavs: Cavs, olds: bool): multiset<nat> {
    if cavs == [] then multiset{} else Bag(cavs[..|cavs| - 1], olds) + Bag1(cavs[|cavs| - 1], olds)
  }

  lemma {:induction false} BagIs(cavs: Cavs)
    ensures Bag(cavs, true) == multiset(OldsOf(cavs)) && Bag(cavs, false) == multiset(NewsOf(cavs))
  {
    if cavs != [] {
      BagIs(cavs[..|cavs| - 1]);
    }
  }

  // ----- picking cavities -----

  function Picked(cavs: Cavs, marks: seq<bool>): Cavs {
    if cavs == [] || |cavs| != |marks| then []
    else
      var n := |cavs| - 1;
      Picked(cavs[..n], marks[..n]) + if marks[n] then [cavs[n]] else []
  }

  method Pick(cavs: Cavs, marks: seq<bool>) returns (picked: Cavs)
    requires |marks| == |cavs|
    ensures picked == Picked(cavs, marks)
  {
    picked := [];
    for k := 0 to |cavs|
      invariant picked == Picked(cavs[..k], marks[..k])
    {
      assert cavs[..k + 1][..k] == cavs[..k] && marks[..k + 1][..k] == marks[..k];
      if marks[k] {
        picked := picked + [cavs[k]];
      }
    }
    assert cavs[..|cavs|] == cavs && marks[..|cavs|] == marks;
  }

  lemma PickedAre(cavs: Cavs, marks: seq<bool>, i: nat) returns (k: nat)
    requires i < |Picked(cavs, marks)|
    ensures k < |cavs| && Picked(cavs, marks)[i] == cavs[k]
  {
    var n := |cavs| - 1;
    if i < |Picked(cavs[..n], marks[..n])| {
      k := PickedAre(cavs[..n], marks[..n], i);
    } else {
      k := n;
    }
  }

  /** One mark for each status, and one for cavities that have two. */
  ghost predicate AreStatusMarks(not: seq<bool>, touch: seq<bool>, key: seq<bool>, double: seq<bool>, n: nat) {
    && |not| == |touch| == |key| == |double| == n
    && forall k :: 0 <= k < n ==> IsStatusMark(not[k], touch[k], key[k], double[k])
  }

  ghost predicate IsStatusMark(not: bool, touch: bool, key: bool, double: bool) {
    (touch <==> !not && !key) && (double <==> not && key)
  }

  /** Every cavity is picked once, but for those that are picked twice. */
  lemma {:induction false} PickedAreAll(
      cavs: Cavs, not: seq<bool>, touch: seq<bool>, key: seq<bool>, double: seq<bool>, olds: bool)
    requires AreStatusMarks(not, touch, key, double, |cavs|)
    ensures Bag(Picked(cavs, not), olds) + Bag(Picked(cavs, touch), olds) + Bag(Picked(cavs, key), olds)
      == Bag(cavs, olds) + Bag(Picked(cavs, double), olds)
  {
    hide Bag, Bag1, Picked;
    if cavs == [] {
      NoneToPick(not, olds);
      NoneToPick(touch, olds);
      NoneToPick(key, olds);
      NoneToPick(double, olds);
    } else {
      var n := |cavs| - 1;
      PickedAreAll(cavs[..n], not[..n], touch[..n], key[..n], double[..n], olds);
      assert IsStatusMark(not[n], touch[n], key[n], double[n]);
      var a, a' := PickedOnce(cavs, not, olds);
      var b, b' := PickedOnce(cavs, touch, olds);
      var c, c' := PickedOnce(cavs, key, olds);
      var d, d' := PickedOnce(cavs, double, olds);
      LastOfBag(cavs, olds);
      AddLast(a, b, c, d, Bag(cavs[..n], olds), a', b', c', d', Bag1(cavs[n], olds));
    }
  }

  lemma {:induction false} NoneToPick(marks: seq<bool>, olds: bool)
    ensures Bag(Picked([], marks), olds) == Bag([], olds) == multiset{}
  {
  }

  lemma {:induction false} LastOfBag(cavs: Cavs, olds: bool)
    requires cavs != []
    ensures Bag(cavs, olds) == Bag(cavs[..|cavs| - 1], olds) + Bag1(cavs[|cavs| - 1], olds)
  {
  }

  lemma AddLast(
      a: multiset<nat>, b: multiset<nat>, c: multiset<nat>, d: multiset<nat>, all: multiset<nat>,
      a': multiset<nat>, b': multiset<nat>, c': multiset<nat>, d': multiset<nat>, last: multiset<nat>)
    requires a + b + c == all + d && a' + b' + c' == last + d'
    ensures (a + a') + (b + b') + (c + c') == (all + last) + (d + d')
  {
    forall e: nat
      ensures ((a + a') + (b + b') + (c + c'))[e] == ((all + last) + (d + d'))[e]
    {
      assert (a + b + c)[e] == (all + d)[e] && (a' + b' + c')[e] == (last + d')[e];
    }
  }

  /** The elements of the last cavity join those of the others, if it is picked. */
  lemma PickedOnce(cavs: Cavs, marks: seq<bool>, olds: bool)
    returns (front: multiset<nat>, last: multiset<nat>)
    requires cavs != [] && |marks| == |cavs|
    ensures front == Bag(Picked(cavs[..|cavs| - 1], marks[..|cavs| - 1]), olds)
    ensures last == if marks[|cavs| - 1] then Bag1(cavs[|cavs| - 1], olds) else multiset{}
    ensures Bag(Picked(cavs, marks), olds) == front + last
  {
    var n := |cavs| - 1;
    var picked := Picked(cavs[..n], marks[..n]);
    front := Bag(picked, olds);
    if marks[n] {
      last := Bag1(cavs[n], olds);
      assert (picked + [cavs[n]])[..|picked|] == picked;
    } else {
      last := multiset{};
      assert picked + [] == picked;
    }
  }

  lemma {:induction false} NonePicked(cavs: Cavs, marks: seq<bool>)
    requires forall k :: 0 <= k < |marks| ==> !marks[k]
    ensures Picked(cavs, marks) == []
  {
    if cavs != [] && |cavs| == |marks| {
      NonePicked(cavs[..|cavs| - 1], marks[..|cavs| - 1]);
    }
  }

  // ----- parts by colour -----

  lemma KeyElemsGrow(parts: Parts, part: Cavs, k: nat, olds: bool)
    requires k < |part|
    ensures KeyElems(parts + [part], k, olds) == KeyElems(parts, k, olds) + Bag1(part[k], olds)
  {
    ElemsGrow(parts, part, k);
  }

  /** The elements that key `k` has in all the parts. */
  ghost function KeyElems(parts: Parts, k: nat, olds: bool): multiset<nat> {
    if olds then OldElems(parts, k) else NewElems(parts, k)
  }

  /** The elements of the first `n` keys in all the parts. */
  ghost function BagOfKeys(parts: Parts, n: nat, olds: bool): multiset<nat> {
    if n == 0 then multiset{} else BagOfKeys(parts, n - 1, olds) + KeyElems(parts, n - 1, olds)
  }

  ghost function BagOfParts(parts: Parts, olds: bool): multiset<nat> {
    if parts == [] then multiset{}
    else BagOfParts(parts[..|parts| - 1], olds) + Bag(parts[|parts| - 1], olds)
  }

  lemma {:induction false} NoPartsNoKeys(n: nat, olds: bool)
    ensures BagOfKeys([], n, olds) == multiset{}
  {
    if n > 0 {
      NoPartsNoKeys(n - 1, olds);
    }
  }

  lemma Swap(a: multiset<nat>, b: multiset<nat>, c: multiset<nat>, d: multiset<nat>)
    ensures (a + b) + (c + d) == (a + c) + (b + d)
  {
  }

  lemma {:induction false} KeysGrow(parts: Parts, part: Cavs, n: nat, olds: bool)
    requires n <= |part|
    ensures BagOfKeys(parts + [part], n, olds) == BagOfKeys(parts, n, olds) + Bag(part[..n], olds)
  {
    hide KeyElems, Bag1;
    if n > 0 {
      KeysGrow(parts, part, n - 1, olds);
      KeyElemsGrow(parts, part, n - 1, olds);
      assert part[..n][..n - 1] == part[..n - 1];
      Swap(BagOfKeys(parts, n - 1, olds), Bag(part[..n - 1], olds), KeyElems(parts, n - 1, olds),
        Bag1(part[n - 1], olds));
    }
  }

  /** It is the same to go by parts or by keys. */
  lemma {:induction false} PartsAreKeys(parts: Parts, n: nat, olds: bool)
    requires forall r :: 0 <= r < |parts| ==> |parts[r]| == n
    ensures BagOfParts(parts, olds) == BagOfKeys(parts, n, olds)
  {
    hide BagOfKeys;
    if parts == [] {
      NoPartsNoKeys(n, olds);
    } else {
      var front, last := parts[..|parts| - 1], parts[|parts| - 1];
      PartsAreKeys(front, n, olds);
      KeysGrow(front, last, n, olds);
      assert front + [last] == parts && last[..n] == last;
    }
  }

  /** The parts hold the elements of the cavities between them. */
  ghost predicate HoldTheElements(parts: Parts, cavs: Cavs) {
    && (forall r :: 0 <= r < |parts| ==> |parts[r]| == |cavs|)
    && forall k :: 0 <= k < |cavs| ==>
      OldElems(parts, k) == multiset(cavs[k].olds) && NewElems(parts, k) == multiset(cavs[k].news)
  }

  lemma KeyIsCavity(parts: Parts, cavs: Cavs, k: nat, olds: bool)
    requires HoldTheElements(parts, cavs) && k < |cavs|
    ensures KeyElems(parts, k, olds) == Bag1(cavs[k], olds)
  {
  }

  lemma {:induction false} KeysAreCavities(parts: Parts, cavs: Cavs, n: nat, olds: bool)
    requires HoldTheElements(parts, cavs) && n <= |cavs|
    ensures BagOfKeys(parts, n, olds) == Bag(cavs[..n], olds)
  {
    hide KeyElems, Bag1, HoldTheElements;
    if n > 0 {
      KeysAreCavities(parts, cavs, n - 1, olds);
      assert cavs[..n][..n - 1] == cavs[..n - 1];
      KeyIsCavity(parts, cavs, n - 1, olds);
    }
  }

  lemma {:induction false} PartsHoldAll(parts: Parts, cavs: Cavs, olds: bool)
    requires HoldTheElements(parts, cavs)
    ensures BagOfParts(parts, olds) == Bag(cavs, olds)
  {
    PartsAreKeys(parts, |cavs|, olds);
    KeysAreCavities(parts, cavs, |cavs|, olds);
    assert cavs[..|cavs|] == cavs;
  }

  lemma {:induction false} BagOfPartsIs(parts: Parts)
    ensures BagOfParts(parts, true) == multiset(OldsOfParts(parts))
    ensures BagOfParts(parts, false) == multiset(NewsOfParts(parts))
  {
    if parts != [] {
      BagOfPartsIs(parts[..|parts| - 1]);
      BagIs(parts[|parts| - 1]);
    }
  }

  // ----- elements are in the meshes -----

  lemma {:induction false} PartIsHeld(parts: Parts, r: nat, k: nat)
    requires r < |parts| && k < |parts[r]|
    ensures multiset(parts[r][k].olds) <= OldElems(parts, k) && multiset(parts[r][k].news) <= NewElems(parts, k)
  {
    if r < |parts| - 1 {
      PartIsHeld(parts[..|parts| - 1], r, k);
    }
  }

  lemma {:induction false} CavityIsHeld(cavs: Cavs, k: nat)
    requires k < |cavs|
    ensures multiset(cavs[k].olds) <= multiset(OldsOf(cavs)) && multiset(cavs[k].news) <= multiset(NewsOf(cavs))
  {
    if k < |cavs| - 1 {
      CavityIsHeld(cavs[..|cavs| - 1], k);
    }
  }

  lemma FewerStayInMesh(elems: seq<nat>, more: multiset<nat>, n: nat)
    requires multiset(elems) <= more && forall e :: e in more ==> e < n
    ensures InMesh(elems, n)
  {
    forall i | 0 <= i < |elems|
      ensures elems[i] < n
    {
      assert elems[i] in multiset(elems);
    }
  }

  lemma AllHasEach(n: nat, e: nat)
    ensures multiset(All(n))[e] == if e < n then 1 else 0
  {
    if n > 0 {
      AllHasEach(n - 1, e);
      assert All(n) == All(n - 1) + [n - 1];
    } else {
      assert All(0) == [];
    }
  }

  /** Every old element, and every new one, is either the same in both meshes or in exactly one cavity. */
  ghost predicate CavsCover(same: seq<(nat, nat)>, cavs: Cavs, before: Mesh, after: Mesh) {
    && multiset(SameOlds(same) + OldsOf(cavs)) == multiset(All(|before.sizes|))
    && multiset(SameNews(same) + NewsOf(cavs)) == multiset(All(|after.sizes|))
  }

  lemma {:induction false} CoverIsInMesh(same: seq<(nat, nat)>, cavs: Cavs, before: Mesh, after: Mesh)
    requires CavsCover(same, cavs, before, after)
    ensures forall e :: e in multiset(OldsOf(cavs)) ==> e < |before.sizes|
    ensures forall e :: e in multiset(NewsOf(cavs)) ==> e < |after.sizes|
    ensures CavsInMesh(cavs, before, after) && SameInMesh(same, before, after)
  {
    CoverHasEach(SameOlds(same), OldsOf(cavs), |before.sizes|);
    CoverHasEach(SameNews(same), NewsOf(cavs), |after.sizes|);
    forall k | 0 <= k < |cavs|
      ensures CavityInMesh(cavs[k], before, after)
    {
      CavityIsHeld(cavs, k);
      FewerStayInMesh(cavs[k].olds, multiset(OldsOf(cavs)), |before.sizes|);
      FewerStayInMesh(cavs[k].news, multiset(NewsOf(cavs)), |after.sizes|);
    }
    forall i | 0 <= i < |same|
      ensures same[i].0 < |before.sizes| && same[i].1 < |after.sizes|
    {
      assert SameOlds(same)[i] == same[i].0 && SameNews(same)[i] == same[i].1;
    }
    forall i, j | 0 <= i < j < |same|
      ensures same[i].1 != same[j].1
    {
      assert SameNews(same)[i] == same[i].1 && SameNews(same)[j] == same[j].1;
    }
  }

  lemma EachIsOnce(a: seq<nat>, b: seq<nat>, n: nat, e: nat)
    requires multiset(a + b) == multiset(All(n))
    ensures multiset(a)[e] + multiset(b)[e] == if e < n then 1 else 0
  {
    AllHasEach(n, e);
    assert multiset(a + b) == multiset(a) + multiset(b);
    assert (multiset(a) + multiset(b))[e] == multiset(a)[e] + multiset(b)[e];
  }

  lemma CoverHasEach(a: seq<nat>, b: seq<nat>, n: nat)
    requires multiset(a + b) == multiset(All(n))
    ensures forall e :: e in multiset(b) ==> e < n
    ensures forall i :: 0 <= i < |a| ==> a[i] < n
    ensures forall i, j :: 0 <= i < j < |a| ==> a[i] != a[j]
  {
    forall e | e in multiset(b)
      ensures e < n
    {
      EachIsOnce(a, b, n, e);
    }
    forall i | 0 <= i < |a|
      ensures a[i] < n
    {
      assert a[i] in multiset(a);
      EachIsOnce(a, b, n, a[i]);
    }
    forall i, j | 0 <= i < j < |a|
      ensures a[i] != a[j]
    {
      EachIsOnce(a, b, n, a[j]);
      assert a == a[..j] + ([a[j]] + a[j + 1..]);
      assert a[..j][i] == a[i];
      assert multiset(a) == multiset(a[..j]) + (multiset{a[j]} + multiset(a[j + 1..]));
      assert a[i] in multiset(a[..j]);
    }
  }

  // ----- the three statuses -----

  /** No vertex of the cavity is on the boundary, some are but the key is not, or the key is. */
  datatype Status = NotBdry | TouchBdry | KeyBdry

  /** The cavities, on what entities the old elements are, how high the model entities of the keys are, and the
      colours of the new elements. */
  datatype Setting = Setting(cavs: Cavs, classes: Classes, keyDims: seq<int>, newIds: seq<int>) {
    predicate IsKeyOnBdry(k: nat) {
      k < |keyDims| && keyDims[k] < classes.dim
    }

    ghost predicate HasStatus(k: nat, s: Status)
      requires k < |cavs|
    {
      match s
      case NotBdry => !classes.TouchesBdry(cavs[k])
      case TouchBdry => classes.TouchesBdry(cavs[k]) && !IsKeyOnBdry(k)
      case KeyBdry => IsKeyOnBdry(k)
    }

    ghost function Marks(s: Status): (marks: seq<bool>)
      ensures |marks| == |cavs|
    {
      seq(|cavs|, k requires 0 <= k < |cavs| => HasStatus(k, s))
    }

    /** The key is on the boundary although the cavity does not touch it. */
    ghost function Doubles(): (marks: seq<bool>)
      ensures |marks| == |cavs|
    {
      seq(|cavs|, k requires 0 <= k < |cavs| => HasStatus(k, NotBdry) && HasStatus(k, KeyBdry))
    }

    predicate OldsAreIn(n: nat) {
      forall k :: 0 <= k < |cavs| ==> InMesh(cavs[k].olds, n)
    }

    ghost predicate IsColoredAll() {
      CavsAreColored(Picked(cavs, Marks(KeyBdry)), classes.ids, newIds)
    }

    /** What the ledger goes by: cavities whose key is on the boundary are split by colour. */
    ghost predicate IsByStatus(status: seq<Parts>)
      requires IsColoredAll()
    {
      && |status| == 3
      && status[0] == [Picked(cavs, Marks(NotBdry))] && status[1] == [Picked(cavs, Marks(TouchBdry))]
      && HoldTheElements(status[2], Picked(cavs, Marks(KeyBdry)))
      && forall k :: 0 <= k < |Picked(cavs, Marks(KeyBdry))| ==>
        (AllAreOneColor(status[2], k, classes.ids, newIds) <==>
         UncoveredAgree(Picked(cavs, Marks(KeyBdry))[k], classes.ids, newIds))
    }

    /** Some vertex of an old element of the cavity is on a model entity no higher than that of the key: in a
        mesh with proper classification, any vertex of the key is. */
    ghost predicate IsClassified(k: nat)
      requires k < |cavs| && |keyDims| == |cavs|
    {
      exists e, v :: e in cavs[k].olds && e < |classes.elemVerts| && v in classes.elemVerts[e] && v < |classes.vertDims|
        && classes.vertDims[v] <= keyDims[k]
    }

    /** With proper classification no cavity has two statuses. */
    lemma ClassifiedHasNoDoubles()
      requires |keyDims| == |cavs| && forall k :: 0 <= k < |cavs| ==> IsClassified(k)
      ensures Picked(cavs, Doubles()) == []
    {
      forall k | 0 <= k < |cavs|
        ensures !Doubles()[k]
      {
        assert IsClassified(k);
        var e, v :| e in cavs[k].olds && e < |classes.elemVerts| && v in classes.elemVerts[e]
          && v < |classes.vertDims| && classes.vertDims[v] <= keyDims[k];
        if IsKeyOnBdry(k) {
          assert classes.IsBdryVert(v);
          assert classes.IsBdryElem(e);
          assert classes.TouchesBdry(cavs[k]);
        }
      }
      NonePicked(cavs, Doubles());
    }

    lemma {:induction false} StatusesHold(status: seq<Parts>, olds: bool)
      requires IsColoredAll() && IsByStatus(status)
      ensures BagOfParts(status[0], olds) + BagOfParts(status[1], olds) + BagOfParts(status[2], olds)
        == Bag(cavs, olds) + Bag(Picked(cavs, Doubles()), olds)
    {
      hide Bag, Bag1, UncoveredAgree, AllAreOneColor;
      var not, touch, key := Marks(NotBdry), Marks(TouchBdry), Marks(KeyBdry);
      assert AreStatusMarks(not, touch, key, Doubles(), |cavs|);
      PickedAreAll(cavs, not, touch, key, Doubles(), olds);
      OnePart(Picked(cavs, not), olds);
      OnePart(Picked(cavs, touch), olds);
      PartsHoldAll(status[2], Picked(cavs, key), olds);
    }

    /** Every changed element is accounted for exactly once, just if no cavity with elements has two statuses. */
    lemma StatusesCover(
        status: seq<Parts>, same: seq<(nat, nat)>, before: Mesh, after: Mesh)
      requires IsColoredAll() && IsByStatus(status) && CavsCover(same, cavs, before, after)
      ensures IsCover(same, status, before, after) <==>
        OldsOf(Picked(cavs, Doubles())) == [] && NewsOf(Picked(cavs, Doubles())) == []
    {
      var doubles := Picked(cavs, Doubles());
      ThreeStatuses(status);
      StatusesHold(status, true);
      StatusesHold(status, false);
      BagIs(cavs);
      BagIs(doubles);
      AddsNothing(SameOlds(same), OldsOf(cavs), OldsOfAll(status), OldsOf(doubles));
      AddsNothing(SameNews(same), NewsOf(cavs), NewsOfAll(status), NewsOf(doubles));
    }
  }

  lemma {:induction false} OnePart(cavs: Cavs, olds: bool)
    ensures BagOfParts([cavs], olds) == Bag(cavs, olds)
  {
    assert [cavs][..0] == [];
    assert BagOfParts([], olds) == multiset{};
  }

  lemma AddsNothing(same: seq<nat>, once: seq<nat>, all: seq<nat>, more: seq<nat>)
    requires multiset(all) == multiset(once) + multiset(more)
    ensures multiset(same + all) == multiset(same + once) <==> more == []
  {
    assert multiset(same + all) == multiset(same + once) + multiset(more);
    if more != [] {
      assert more[0] in multiset(more);
      assert multiset(same + all)[more[0]] == multiset(same + once)[more[0]] + multiset(more)[more[0]];
    }
  }

  lemma {:induction false} LastStatus(status: seq<Parts>)
    requires status != []
    ensures var n := |status| - 1;
      && multiset(OldsOfAll(status)) == multiset(OldsOfAll(status[..n])) + BagOfParts(status[n], true)
      && multiset(NewsOfAll(status)) == multiset(NewsOfAll(status[..n])) + BagOfParts(status[n], false)
  {
    hide BagOfParts;
    BagOfPartsIs(status[|status| - 1]);
  }

  lemma {:induction false} ThreeStatuses(status: seq<Parts>)
    requires |status| == 3
    ensures multiset(OldsOfAll(status)) ==
      BagOfParts(status[0], true) + BagOfParts(status[1], true) + BagOfParts(status[2], true)
    ensures multiset(NewsOfAll(status)) ==
      BagOfParts(status[0], false) + BagOfParts(status[1], false) + BagOfParts(status[2], false)
  {
    hide OldsOfAll, NewsOfAll, BagOfParts;
    var two, one, none := status[..2], status[..1], status[..0];
    assert two[..1] == one && one[..0] == none;
    LastStatus(status);
    LastStatus(two);
    LastStatus(one);
    NoStatus();
  }

  lemma NoStatus()
    ensures OldsOfAll([]) == NewsOfAll([]) == []
  {
  }

  // ----- sorting the cavities -----

  /** Which cavities have elements on the boundary. */
  method CavsAreBdry(s: Setting) returns (marks: seq<bool>)
    requires s.OldsAreIn(|s.classes.elemVerts|)
    ensures |marks| == |s.cavs| && forall k :: 0 <= k < |marks| ==> (marks[k] <==> s.classes.TouchesBdry(s.cavs[k]))
  {
    var elems := s.classes.ElemsAreBdry();
    marks := [];
    for k := 0 to |s.cavs|
      invariant |marks| == k && forall l :: 0 <= l < k ==> (marks[l] <==> s.classes.TouchesBdry(s.cavs[l]))
    {
      marks := marks + [Marked(s.cavs[k].olds, elems) > 0];
    }
  }

  method SeparateCavities(s: Setting) returns (status: seq<Parts>)
    requires s.OldsAreIn(|s.classes.elemVerts|) && |s.keyDims| == |s.cavs| && s.IsColoredAll()
    ensures s.IsByStatus(status)
  {
    var bdry := CavsAreBdry(s);
    var n := |s.cavs|;
    var not := seq(n, k requires 0 <= k < n => !bdry[k]);
    var key := seq(n, k requires 0 <= k < n => s.keyDims[k] < s.classes.dim);
    var touch := seq(n, k requires 0 <= k < n => bdry[k] && !key[k]);
    assert not == s.Marks(NotBdry) && key == s.Marks(KeyBdry) && touch == s.Marks(TouchBdry);
    var notCavs := Pick(s.cavs, not);
    var keyCavs := Pick(s.cavs, key);
    var touchCavs := Pick(s.cavs, touch);
    var parts := SeparateByColor(keyCavs, s.classes.ids, s.newIds);
    status := [[notCavs], [touchCavs], parts];
  }

  // ----- in the meshes -----

  lemma {:induction false} PickedIsInMesh(cavs: Cavs, marks: seq<bool>, before: Mesh, after: Mesh)
    requires CavsInMesh(cavs, before, after)
    ensures CavsInMesh(Picked(cavs, marks), before, after)
  {
    var picked := Picked(cavs, marks);
    forall i | 0 <= i < |picked|
      ensures CavityInMesh(picked[i], before, after)
    {
      var k := PickedAre(cavs, marks, i);
    }
  }

  lemma PartsStayInMesh(parts: Parts, cavs: Cavs, before: Mesh, after: Mesh)
    requires HoldTheElements(parts, cavs) && CavsInMesh(cavs, before, after)
    ensures PartsInMesh(parts, before, after)
  {
    forall r, k | 0 <= r < |parts| && 0 <= k < |parts[r]|
      ensures CavityInMesh(parts[r][k], before, after)
    {
      assert CavityInMesh(cavs[k], before, after);
      PartIsHeld(parts, r, k);
      InMeshIsBelow(cavs[k].olds, |before.sizes|);
      InMeshIsBelow(cavs[k].news, |after.sizes|);
      FewerStayInMesh(parts[r][k].olds, OldElems(parts, k), |before.sizes|);
      FewerStayInMesh(parts[r][k].news, NewElems(parts, k), |after.sizes|);
    }
  }

  lemma InMeshIsBelow(elems: seq<nat>, n: nat)
    requires InMesh(elems, n)
    ensures forall e :: e in multiset(elems) ==> e < n
  {
    forall e | e in multiset(elems)
      ensures e < n
    {
      assert e in elems;
    }
  }

  lemma StatusIsInMesh(s: Setting, status: seq<Parts>, before: Mesh, after: Mesh)
    requires s.IsColoredAll() && s.IsByStatus(status) && CavsInMesh(s.cavs, before, after)
    ensures forall i :: 0 <= i < |status| ==> PartsInMesh(status[i], before, after)
  {
    PickedIsInMesh(s.cavs, s.Marks(NotBdry), before, after);
    PickedIsInMesh(s.cavs, s.Marks(TouchBdry), before, after);
    PickedIsInMesh(s.cavs, s.Marks(KeyBdry), before, after);
    PartsStayInMesh(status[2], Picked(s.cavs, s.Marks(KeyBdry)), before, after);
  }

  lemma SettingIsColored(s: Setting, before: Mesh, after: Mesh)
    requires CavsInMesh(s.cavs, before, after) && |s.classes.ids| == |before.sizes| && |s.newIds| == |after.sizes|
    ensures s.IsColoredAll() && s.OldsAreIn(|before.sizes|)
  {
    var picked := Picked(s.cavs, s.Marks(KeyBdry));
    PickedIsInMesh(s.cavs, s.Marks(KeyBdry), before, after);
    forall k | 0 <= k < |picked|
      ensures IsColored(picked[k].olds, s.classes.ids) && IsColored(picked[k].news, s.newIds)
    {
      assert CavityInMesh(picked[k], before, after);
    }
    forall k | 0 <= k < |s.cavs|
      ensures InMesh(s.cavs[k].olds, |before.sizes|)
    {
      assert CavityInMesh(s.cavs[k], before, after);
    }
  }

  /** Each new element has the error of the old one that it is the same as, or its part, by size, of what its
      cavity books. */
  ghost predicate EachHasItsError(
      same: seq<(nat, nat)>, status: seq<Parts>, cs: seq<Conserved>, before: Mesh, after: Mesh, errors: seq<real>)
  {
    && |status| == |cs| && before.Valid() && SameInMesh(same, before, after) && |errors| == |after.sizes|
    && (forall i :: 0 <= i < |same| ==> errors[same[i].1] == before.errors[same[i].0])
    && forall i, p, k, e: nat ::
      0 <= i < |status| && 0 <= p < |status[i]| && 0 <= k < |status[i][p]| && e in status[i][p][k].news ==>
      e < |errors| && errors[e] == BookedIn(status[i][p][k], cs[i], before, after, e)
  }

  lemma ErrorsAreOwn(
      before: Mesh, after: Mesh, same: seq<(nat, nat)>, status: seq<Parts>, cs: seq<Conserved>, errors: seq<real>)
    requires before.Valid() && after.Valid() && |status| == |cs| && |errors| == |after.sizes|
    requires SameInMesh(same, before, after) && IsCover(same, status, before, after)
    requires forall i :: 0 <= i < |status| ==> PartsInMesh(status[i], before, after)
    requires forall e: nat :: e < |errors| ==>
      errors[e] == SameErrorAt(same, before, e) + BookedAtAll(status, cs, before, after, e)
    ensures EachHasItsError(same, status, cs, before, after, errors)
  {
    hide IsCover, BookedIn, BookedAtAll, SameErrorAt;
    forall i | 0 <= i < |same|
      ensures errors[same[i].1] == before.errors[same[i].0]
    {
      EachErrorIsOwn(before, after, same, status, cs, errors, same[i].1);
    }
    forall i, p, k, e: nat |
      0 <= i < |status| && 0 <= p < |status[i]| && 0 <= k < |status[i][p]| && e in status[i][p][k].news
      ensures e < |errors| && errors[e] == BookedIn(status[i][p][k], cs[i], before, after, e)
    {
      assert CavsInMesh(status[i][p], before, after) && CavityInMesh(status[i][p][k], before, after);
      EachErrorIsOwn(before, after, same, status, cs, errors, e);
    }
  }

  /** The whole transfer of one density's error: the cavities are sorted, and the ledger balances. */
  method TransferDensityError(s: Setting, before: Mesh, after: Mesh, same: seq<(nat, nat)>, cs: seq<Conserved>)
    returns (ok: bool, errors: seq<real>, status: seq<Parts>)
    requires before.Valid() && after.Valid() && |cs| == 3
    requires |s.classes.ids| == |s.classes.elemVerts| == |before.sizes| && |s.newIds| == |after.sizes|
    requires CavsCover(same, s.cavs, before, after) && SameIsSame(same, before, after)
    requires |s.keyDims| == |s.cavs| && forall k :: 0 <= k < |s.cavs| ==> s.IsClassified(k)
    ensures s.IsColoredAll() && s.IsByStatus(status) && IsCover(same, status, before, after)
    ensures ok <==> forall i :: 0 <= i < 3 ==> CanBookFor(status[i], cs[i], before, after)
    ensures |errors| == |after.sizes|
    ensures ok ==>
      Balance(after.densities, after.sizes, errors) ==
      Balance(before.densities, before.sizes, before.errors) + NotBooked(status, cs, before, after)
    ensures ok ==> EachHasItsError(same, status, cs, before, after, errors)
  {
    hide EachHasItsError, IsCover, CanBookFor, Setting.IsClassified, Setting.IsByStatus, Setting.IsColoredAll,
      NotBooked, BookedForAll;
    CoverIsInMesh(same, s.cavs, before, after);
    SettingIsColored(s, before, after);
    status := SeparateCavities(s);
    ThreeAreByStatus(s, status);
    StatusIsInMesh(s, status, before, after);
    s.ClassifiedHasNoDoubles();
    s.StatusesCover(status, same, before, after);
    ok, errors := TransferIntegError(before, after, same, status, cs);
    if ok {
      LedgerBalances(before, after, same, status, cs, errors);
      ErrorsAreOwn(before, after, same, status, cs, errors);
    }
  }

  lemma ThreeAreByStatus(s: Setting, status: seq<Parts>)
    requires s.IsColoredAll() && s.IsByStatus(status)
    ensures |status| == 3
  {
  }
}
