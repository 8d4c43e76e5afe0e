/** Deriving lower entities and finding them again (`find_unique_deg`, `reflect_down`): each use of the higher
    entities finds exactly the entity it stands for. */
module ReflectDown {
  import opened Align
  import opened Canonical
  import opened Graphs
  import opened Inversion
  import opened Matching

  /** Vertex numbers. */
  ghost predicate AreVerts(lists: seq<Verts>, deg: nat, nv: nat) {
    forall u :: 0 <= u < |lists| ==> |lists[u]| == deg && forall j :: 0 <= j < deg ==> 0 <= lists[u][j] < nv
  }

  ghost predicate IsSlotOf(lists: seq<Verts>, deg: nat, lows: seq<nat>, slot: nat) {
    slot < |lows| && deg > 0 ==>
      slot / deg < |lists| && slot % deg < |lists[slot / deg]| && lows[slot] == lists[slot / deg][slot % deg]
  }

  /** The lists one after another. */
  ghost predicate IsFlat(lists: seq<Verts>, deg: nat, lows: seq<nat>) {
    && |lows| == |lists| * deg
    && forall slot: nat {:trigger IsSlotOf(lists, deg, lows, slot)} :: IsSlotOf(lists, deg, lows, slot)
  }

  lemma QuotientAndRest(deg: nat, h: nat, j: nat, slot: nat)
    requires j < deg && slot == h * deg + j
    ensures slot / deg == h && slot % deg == j
  {
    Remainder(deg, h, j, slot);
    var q := slot / deg;
    assert slot == deg * q + slot % deg;
    assert deg * (q - h) == 0;
  }

  method Flatten(lists: seq<Verts>, deg: nat, nv: nat) returns (lows: seq<nat>)
    requires AreVerts(lists, deg, nv) && deg > 0
    ensures IsFlat(lists, deg, lows) && IsMap(lows, nv)
  {
    lows := [];
    for h := 0 to |lists|
      invariant |lows| == h * deg && IsMap(lows, nv)
      invariant forall slot: nat {:trigger IsSlotOf(lists, deg, lows, slot)} :: IsSlotOf(lists, deg, lows, slot)
    {
      for j := 0 to deg
        invariant |lows| == h * deg + j && IsMap(lows, nv)
        invariant forall slot: nat {:trigger IsSlotOf(lists, deg, lows, slot)} :: IsSlotOf(lists, deg, lows, slot)
      {
        ghost var was := lows;
        QuotientAndRest(deg, h, j, |lows|);
        lows := lows + [lists[h][j]];
        forall slot: nat
          ensures IsSlotOf(lists, deg, lows, slot)
        {
          assert IsSlotOf(lists, deg, was, slot);
        }
      }
    }
  }

  /** Upward adjacency of the vertices to the lists. */
  ghost predicate IsUpFrom(deg: Degree, lists: seq<Verts>, nv: nat, lows: seq<nat>, slots: seq<nat>, v2l: Adj) {
    IsFlat(lists, deg, lows) && IsMap(lows, nv) && IsUpward(Down(lows, [], deg), nv, slots, v2l)
  }

  lemma EntryIs(deg: Degree, lists: seq<Verts>, nv: nat, lows: seq<nat>, slots: seq<nat>, v2l: Adj,
      v: nat, p: nat)
    returns (slot: nat)
    requires IsUpFrom(deg, lists, nv, lows, slots, v2l) && v < nv && v2l.a2ab[v] <= p < v2l.a2ab[v + 1]
    ensures p < |slots| == |v2l.ab2b| == |v2l.codes| && slot == slots[p] < |lows|
    ensures v2l.ab2b[p] == slot / deg < |lists| && CodeWhichDown(v2l.codes[p]) == slot % deg < |lists[slot / deg]|
    ensures lists[slot / deg][slot % deg] == v
  {
    OffsetsAscend(v2l.a2ab, nv, |slots|, v, v + 1);
    assert HasBucket(Graph(v2l.a2ab, slots), lows, v, p);
    slot := slots[p];
    assert IsSlotOf(lists, deg, lows, slot);
    CodeUnpacks(false, 0, slot % deg);
  }

  lemma UpGivesCandidates(deg: Degree, a: Verts, lists: seq<Verts>, nv: nat, lows: seq<nat>,
      slots: seq<nat>, v2l: Adj)
    requires IsUpFrom(deg, lists, nv, lows, slots, v2l) && AreUses(deg, lists) && |a| == deg && 0 <= a[0] < nv
    ensures HasCandidates(deg, a, a[0], lists, v2l)
  {
    OffsetsAscend(v2l.a2ab, nv, |slots|, a[0], a[0] + 1);
    forall p: nat | v2l.a2ab[a[0]] <= p < v2l.a2ab[a[0] + 1]
      ensures IsCandidate(deg, a, lists, v2l, p)
    {
      var slot := EntryIs(deg, lists, nv, lows, slots, v2l, a[0], p);
    }
  }

  /** Exactly one of the lists is of the same entity. */
  ghost predicate HasOnly(deg: Degree, lists: seq<Verts>, a: Verts, e: nat) {
    && e < |lists| && SameEntity(deg, lists[e], a)
    && forall d :: 0 <= d < |lists| && d != e ==> !SameEntity(deg, lists[d], a)
  }

  ghost predicate HasOnlyOne(deg: Degree, lists: seq<Verts>, a: Verts) {
    exists e :: HasOnly(deg, lists, a, e)
  }

  /** The place of an entity in the row of the first vertex of a use. */
  lemma PlaceInRow(deg: Degree, a: Verts, lists: seq<Verts>, nv: nat, lows: seq<nat>,
      slots: seq<nat>, v2l: Adj, e: nat)
    returns (p: nat)
    requires IsUpFrom(deg, lists, nv, lows, slots, v2l) && AreVerts(lists, deg, nv)
    requires e < |lists| && SameEntity(deg, lists[e], a)
    ensures |a| == deg && 0 <= a[0] < nv && v2l.a2ab[a[0]] <= p < v2l.a2ab[a[0] + 1] && p < |v2l.ab2b|
    ensures v2l.ab2b[p] == e
  {
    var code :| IsAlignment(deg, lists[e], code, a);
    var j := Source(deg, code, 0);
    VertsAreAligned(deg, lists[e], code, j);
    var slot := e * deg + j;
    QuotientAndRest(deg, e, j, slot);
    SlotIsSmall(deg, e, j, |lists|);
    assert IsSlotOf(lists, deg, lows, slot);
    RowHasSlot(Down(lows, [], deg), nv, slots, v2l.a2ab, a[0], slot);
    assert IsIn(lows, a[0], slot);
    var row := slots[v2l.a2ab[a[0]]..v2l.a2ab[a[0] + 1]];
    var i :| 0 <= i < |row| && row[i] == slot;
    p := v2l.a2ab[a[0]] + i;
    assert slots[p] == slot;
  }

  lemma SlotIsSmall(deg: nat, e: nat, j: nat, n: nat)
    requires e < n && j < deg
    ensures e * deg + j < n * deg
  {
    var d := n - e - 1;
    assert d * deg >= 0;
    assert n * deg == (e + 1 + d) * deg == e * deg + deg + d * deg;
  }

  /** Two places of one entity in the row of a vertex are the same. */
  lemma PlaceIsUnique(deg: Degree, lists: seq<Verts>, nv: nat, lows: seq<nat>, slots: seq<nat>,
      v2l: Adj, v: nat, p: nat, q: nat)
    requires IsUpFrom(deg, lists, nv, lows, slots, v2l) && AreUses(deg, lists) && v < nv
    requires v2l.a2ab[v] <= p < v2l.a2ab[v + 1] && v2l.a2ab[v] <= q < v2l.a2ab[v + 1] && p < |v2l.ab2b|
    requires q < |v2l.ab2b|
    requires v2l.ab2b[p] == v2l.ab2b[q]
    ensures p == q
  {
    var s := EntryIs(deg, lists, nv, lows, slots, v2l, v, p);
    var t := EntryIs(deg, lists, nv, lows, slots, v2l, v, q);
    assert s % deg == t % deg;
    assert s == deg * (s / deg) + s % deg && t == deg * (t / deg) + t % deg;
    assert s == t;
  }

  lemma OnlyOneMatches(deg: Degree, a: Verts, lists: seq<Verts>, nv: nat, lows: seq<nat>,
      slots: seq<nat>, v2l: Adj, e: nat)
    requires IsUpFrom(deg, lists, nv, lows, slots, v2l) && AreVerts(lists, deg, nv) && AreUses(deg, lists)
    requires HasOnly(deg, lists, a, e)
    ensures |a| == deg && 0 <= a[0] && CanMatch(deg, a, a[0], lists, v2l, false)
  {
    var p := PlaceInRow(deg, a, lists, nv, lows, slots, v2l, e);
    forall q: nat | v2l.a2ab[a[0]] <= q < v2l.a2ab[a[0] + 1] && q != p
      ensures !Matches(deg, a, lists, v2l, q)
    {
      var slot := EntryIs(deg, lists, nv, lows, slots, v2l, a[0], q);
      if v2l.ab2b[q] == e {
        PlaceIsUnique(deg, lists, nv, lows, slots, v2l, a[0], p, q);
      }
    }
    assert Matches(deg, a, lists, v2l, p);
    assert IsOneMatch(deg, a, a[0], lists, v2l, false, p);
  }

  lemma MatchIsOnly(deg: Degree, a: Verts, lists: seq<Verts>, nv: nat, lows: seq<nat>,
      slots: seq<nat>, v2l: Adj)
    requires IsUpFrom(deg, lists, nv, lows, slots, v2l) && AreVerts(lists, deg, nv)
    requires |a| == deg && 0 <= a[0] < nv && CanMatch(deg, a, a[0], lists, v2l, false)
    ensures HasOnlyOne(deg, lists, a)
  {
    var p: nat :| IsOneMatch(deg, a, a[0], lists, v2l, false, p);
    assert Matches(deg, a, lists, v2l, p);
    var e := v2l.ab2b[p];
    forall d | 0 <= d < |lists| && d != e
      ensures !SameEntity(deg, lists[d], a)
    {
      if SameEntity(deg, lists[d], a) {
        var q := PlaceInRow(deg, a, lists, nv, lows, slots, v2l, d);
        assert Matches(deg, a, lists, v2l, q);
      }
    }
    assert HasOnly(deg, lists, a, e);
  }

  /** Finds the entity of every use; refused exactly if some use has none, or more than one. */
  method ReflectDown(deg: Degree, uses: seq<Verts>, lists: seq<Verts>, nv: nat)
    returns (ok: bool, hl2l: seq<nat>, codes: seq<nat>)
    requires AreVerts(uses, deg, nv) && AreVerts(lists, deg, nv) && AreUses(deg, lists)
    ensures ok <==> forall u :: 0 <= u < |uses| ==> HasOnlyOne(deg, lists, uses[u])
    ensures ok ==> |hl2l| == |uses| == |codes|
    ensures ok ==> forall u :: 0 <= u < |uses| ==>
      hl2l[u] < |lists| && IsAlignment(deg, lists[hl2l[u]], codes[u], uses[u])
  {
    var lows := Flatten(lists, deg, nv);
    var v2l;
    ghost var slots;
    v2l, slots := InvertAdj(Down(lows, [], deg), nv);
    var firsts := seq(|uses|, u requires 0 <= u < |uses| => uses[u][0] as nat);
    forall u | 0 <= u < |uses|
      ensures HasCandidates(deg, uses[u], firsts[u], lists, v2l)
      ensures HasOnlyOne(deg, lists, uses[u]) <==> CanMatch(deg, uses[u], firsts[u], lists, v2l, false)
    {
      UpGivesCandidates(deg, uses[u], lists, nv, lows, slots, v2l);
      if e :| HasOnly(deg, lists, uses[u], e) {
        OnlyOneMatches(deg, uses[u], lists, nv, lows, slots, v2l, e);
      }
      if CanMatch(deg, uses[u], firsts[u], lists, v2l, false) {
        MatchIsOnly(deg, uses[u], lists, nv, lows, slots, v2l);
      }
    }
    ok, hl2l, codes := FindMatches(deg, firsts, uses, lists, v2l, false);
  }

  /** The lists that deduplication has chosen. */
  ghost function Chosen(uses: seq<Verts>, e2u: seq<nat>): seq<Verts>
    requires forall e :: 0 <= e < |e2u| ==> e2u[e] < |uses|
  {
    seq(|e2u|, e requires 0 <= e < |e2u| => uses[e2u[e]])
  }

  /** Deduplication leaves exactly one entity for every use, so that the search for it does not stop. */
  lemma UniqueHasOnly(deg: Degree, uses: seq<Verts>, e2u: seq<nat>, u: nat)
    requires IsUniqueChoice(deg, uses, e2u) && u < |uses|
    ensures HasOnlyOne(deg, Chosen(uses, e2u), uses[u])
  {
    var lists := Chosen(uses, e2u);
    assert HasChoice(deg, uses, e2u, u);
    var e :| 0 <= e < |e2u| && e2u[e] < |uses| && SameEntity(deg, uses[u], uses[e2u[e]]);
    IsSymmetric(deg, uses[u], lists[e]);
    forall d | 0 <= d < |lists| && d != e
      ensures !SameEntity(deg, lists[d], uses[u])
    {
      if SameEntity(deg, lists[d], uses[u]) {
        IsTransitive(deg, lists[d], uses[u], lists[e]);
        IsSymmetric(deg, lists[d], lists[e]);
        assert false;
      }
    }
    assert HasOnly(deg, lists, uses[u], e);
  }

  /** Derives the lower entities from their uses and finds them again: never refused. */
  method DeriveDown(
      deg: Degree, uses: seq<Verts>, nv: nat, sorted2u: seq<nat>, ghost canon: seq<Verts>, ghost cs: seq<nat>)
    returns (lists: seq<Verts>, hl2l: seq<nat>, codes: seq<nat>, ghost e2u: seq<nat>)
    requires AreVerts(uses, deg, nv) && AreUses(deg, uses)
    requires AreCanonicalOf(deg, uses, cs, canon) && IsSortedBy(canon, sorted2u)
    ensures IsUniqueChoice(deg, uses, e2u) && lists == Chosen(uses, e2u)
    ensures |hl2l| == |uses| == |codes|
    ensures forall u :: 0 <= u < |uses| ==> hl2l[u] < |lists| && IsAlignment(deg, lists[hl2l[u]], codes[u], uses[u])
  {
    var ownCodes, ownCanon := CanonicalUses(deg, uses);
    CanonAgrees(deg, uses, cs, canon, ownCodes, ownCanon);
    var chosen := ChooseUnique(deg, uses, ownCodes, ownCanon, sorted2u);
    e2u := chosen;
    lists := seq(|chosen|, e requires 0 <= e < |chosen| => uses[chosen[e]]);
    forall u | 0 <= u < |uses|
      ensures HasOnlyOne(deg, lists, uses[u])
    {
      UniqueHasOnly(deg, uses, e2u, u);
    }
    var ok;
    ok, hl2l, codes := ReflectDown(deg, uses, lists, nv);
  }

  lemma CanonAgrees(
      deg: Degree, uses: seq<Verts>, codes1: seq<nat>, canon1: seq<Verts>, codes2: seq<nat>, canon2: seq<Verts>)
    requires AreCanonicalOf(deg, uses, codes1, canon1) && AreCanonicalOf(deg, uses, codes2, canon2)
    ensures canon1 == canon2
  {
    forall u | 0 <= u < |uses|
      ensures canon1[u] == canon2[u]
    {
      IsReflexive(deg, uses[u]);
      CanonicalDecides(deg, uses[u], codes1[u], uses[u], codes2[u]);
    }
  }
}
