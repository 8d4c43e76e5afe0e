/** Finding, for each use, the entity that it uses and how (`IsMatch`, `find_matches_deg`, `reflect_down`). */
module Matching {
  import opened Align
  import opened Canonical
  import opened Containers
  import opened Inversion

  /** Compares two lists of which the first vertex of one is the given vertex of the other. */
  function EvalMatch(deg: Degree, a: Verts, b: Verts, whichDown: nat): Option<nat>
    requires |a| == deg && |b| == deg && whichDown < deg
  {
    if deg == 2 then
      if a[1] == b[1 - whichDown] then Some(MakeCode(false, whichDown, 0)) else None
    else if deg == 3 then
      if a[1] == b[(whichDown + 1) % 3] && a[2] == b[(whichDown + 2) % 3] then
        Some(MakeCode(false, RotationToFirst(3, whichDown), 0))
      else if a[1] == b[(whichDown + 2) % 3] && a[2] == b[(whichDown + 1) % 3] then
        Some(MakeCode(true, RotationToFirst(3, whichDown), 0))
      else None
    else
      if a[2] != b[(whichDown + 2) % 4] then None
      else if a[1] == b[(whichDown + 1) % 4] && a[3] == b[(whichDown + 3) % 4] then
        Some(MakeCode(false, RotationToFirst(4, whichDown), 0))
      else if a[1] == b[(whichDown + 3) % 4] && a[3] == b[(whichDown + 1) % 4] then
        Some(MakeCode(true, RotationToFirst(4, whichDown), 0))
      else None
  }

  /** The two alignments that bring a given vertex to the front. */
  ghost function ToFront(deg: Degree, b: Verts, whichDown: nat, flip: bool): Verts
    requires |b| == deg && whichDown < deg
  {
    var r := Rotated(deg, b, RotationToFirst(deg, whichDown));
    if flip then Flipped(deg, r) else r
  }

  lemma ToFrontIs(deg: Degree, b: Verts, whichDown: nat, flip: bool)
    requires |b| == deg && whichDown < deg
    ensures IsAlignment(deg, b, MakeCode(flip, RotationToFirst(deg, whichDown), 0), ToFront(deg, b, whichDown, flip))
    ensures ToFront(deg, b, whichDown, flip)[0] == b[whichDown]
  {
    InvertRotationIs(deg, whichDown);
    CodeUnpacks(flip, RotationToFirst(deg, whichDown), 0);
    FirstAfterRotation(deg, b, whichDown);
  }

  /** After the rotation the vertices follow in order. */
  lemma FollowsFront(deg: Degree, b: Verts, whichDown: nat, j: nat)
    requires |b| == deg && whichDown < deg && j < deg
    ensures ToFront(deg, b, whichDown, false)[j] == b[(whichDown + j) % deg]
  {
    hide Flipped;
    InvertRotationIs(deg, whichDown);
    var r := RotationToFirst(deg, whichDown);
    SmallRemainder(deg, j + deg - r);
    SmallRemainder(deg, whichDown + j);
  }

  /** No other code brings it there. */
  lemma OnlyToFront(deg: Degree, a: Verts, b: Verts, whichDown: nat)
    requires |b| == deg && whichDown < deg && AreDistinct(b) && SameEntity(deg, b, a) && a[0] == b[whichDown]
    ensures a == ToFront(deg, b, whichDown, false) || a == ToFront(deg, b, whichDown, true)
  {
    var code :| IsAlignment(deg, b, code, a);
    var i := Source(deg, code, 0);
    VertsAreAligned(deg, b, code, i);
    assert i == whichDown;
    RotationIsToFirst(deg, code, whichDown);
  }

  lemma RotationIsToFirst(deg: Degree, code: nat, whichDown: nat)
    requires IsCode(deg, code) && whichDown < deg && AlignVertIndex(deg, whichDown, code) == 0
    ensures CodeRotation(code) == RotationToFirst(deg, whichDown)
  {
    AlignVertIndexIs(deg, whichDown, code);
    InvertRotationIs(deg, whichDown);
  }

  lemma SameVerts(deg: Degree, a: Verts, b: Verts)
    requires |a| == deg && |b| == deg
    ensures a == b <==> a[0] == b[0] && a[1] == b[1] && (deg > 2 ==> a[2] == b[2]) && (deg > 3 ==> a[3] == b[3])
  {
  }

  /** A match is found exactly if the lists are of the same entity, and the code aligns them. */
  lemma MatchIsExact(deg: Degree, a: Verts, b: Verts, whichDown: nat)
    requires |a| == deg && |b| == deg && whichDown < deg && a[0] == b[whichDown] && AreDistinct(b)
    ensures EvalMatch(deg, a, b, whichDown).Some? <==> SameEntity(deg, b, a)
    ensures EvalMatch(deg, a, b, whichDown).Some? ==> IsAlignment(deg, b, EvalMatch(deg, a, b, whichDown).value, a)
  {
    var m := EvalMatch(deg, a, b, whichDown);
    FrontsDecide(deg, a, b, whichDown);
    ToFrontIs(deg, b, whichDown, false);
    ToFrontIs(deg, b, whichDown, true);
    if SameEntity(deg, b, a) {
      OnlyToFront(deg, a, b, whichDown);
    }
  }

  lemma FrontsDecide(deg: Degree, a: Verts, b: Verts, whichDown: nat)
    requires |a| == deg && |b| == deg && whichDown < deg && a[0] == b[whichDown]
    ensures var m := EvalMatch(deg, a, b, whichDown);
      var plain, flipped := ToFront(deg, b, whichDown, false), ToFront(deg, b, whichDown, true);
      && (m.Some? <==> a == plain || a == flipped)
      && (m.Some? ==>
            || (m.value == MakeCode(false, RotationToFirst(deg, whichDown), 0) && a == plain)
            || (m.value == MakeCode(true, RotationToFirst(deg, whichDown), 0) && a == flipped))
  {
    var plain, flipped := ToFront(deg, b, whichDown, false), ToFront(deg, b, whichDown, true);
    FollowsFront(deg, b, whichDown, 0);
    FollowsFront(deg, b, whichDown, 1);
    if deg > 2 {
      FollowsFront(deg, b, whichDown, 2);
    }
    if deg > 3 {
      FollowsFront(deg, b, whichDown, 3);
    }
    InvertRotationIs(deg, whichDown);
    SmallRemainder(deg, whichDown);
    SmallRemainder(deg, whichDown + 1);
    SameVerts(deg, a, plain);
    SameVerts(deg, a, flipped);
  }

  // ----- searching -----

  /** Every entry of the row of `fv` is a list with the first vertex of `a` where the code says. */
  ghost predicate IsCandidate(deg: Degree, a: Verts, bv2v: seq<Verts>, v2b: Adj, vb: nat) {
    && vb < |v2b.ab2b| && vb < |v2b.codes| && v2b.ab2b[vb] < |bv2v|
    && var b, whichDown := bv2v[v2b.ab2b[vb]], CodeWhichDown(v2b.codes[vb]);
      whichDown < deg && |a| == deg && |b| == deg && AreDistinct(b) && a[0] == b[whichDown]
  }

  ghost predicate HasCandidates(deg: Degree, a: Verts, fv: nat, bv2v: seq<Verts>, v2b: Adj) {
    && fv + 1 < |v2b.a2ab| && v2b.a2ab[fv] <= v2b.a2ab[fv + 1]
    && forall vb: nat {:trigger IsCandidate(deg, a, bv2v, v2b, vb)} ::
      v2b.a2ab[fv] <= vb < v2b.a2ab[fv + 1] ==> IsCandidate(deg, a, bv2v, v2b, vb)
  }

  ghost predicate Matches(deg: Degree, a: Verts, bv2v: seq<Verts>, v2b: Adj, vb: nat) {
    vb < |v2b.ab2b| && v2b.ab2b[vb] < |bv2v| && SameEntity(deg, bv2v[v2b.ab2b[vb]], a)
  }

  /** The first match, and that there is one. */
  ghost predicate IsFirstMatch(deg: Degree, a: Verts, fv: nat, bv2v: seq<Verts>, v2b: Adj, vb: nat) {
    && fv + 1 < |v2b.a2ab| && v2b.a2ab[fv] <= vb < v2b.a2ab[fv + 1] && Matches(deg, a, bv2v, v2b, vb)
    && forall vc: nat {:trigger Matches(deg, a, bv2v, v2b, vc)} ::
      v2b.a2ab[fv] <= vc < vb ==> !Matches(deg, a, bv2v, v2b, vc)
  }

  ghost predicate IsOnlyMatch(deg: Degree, a: Verts, fv: nat, bv2v: seq<Verts>, v2b: Adj, vb: nat) {
    && IsFirstMatch(deg, a, fv, bv2v, v2b, vb)
    && forall vc: nat {:trigger Matches(deg, a, bv2v, v2b, vc)} ::
      vb < vc < v2b.a2ab[fv + 1] ==> !Matches(deg, a, bv2v, v2b, vc)
  }

  /** What the search needs not to stop: a match, and no second one unless duplicates are allowed. */
  ghost predicate CanMatch(deg: Degree, a: Verts, fv: nat, bv2v: seq<Verts>, v2b: Adj, allowDuplicates: bool) {
    exists vb :: IsOneMatch(deg, a, fv, bv2v, v2b, allowDuplicates, vb)
  }

  ghost predicate IsOneMatch(
      deg: Degree, a: Verts, fv: nat, bv2v: seq<Verts>, v2b: Adj, allowDuplicates: bool, vb: nat)
  {
    if allowDuplicates then IsFirstMatch(deg, a, fv, bv2v, v2b, vb) else IsOnlyMatch(deg, a, fv, bv2v, v2b, vb)
  }

  /** The entity that `a` uses, and the code that turns its list into that of `a`. */
  ghost predicate IsMatched(deg: Degree, a: Verts, fv: nat, bv2v: seq<Verts>, v2b: Adj, allowDuplicates: bool, b: nat,
      code: nat)
  {
    && b < |bv2v| && IsAlignment(deg, bv2v[b], code, a)
    && exists vb: nat :: IsOneMatch(deg, a, fv, bv2v, v2b, allowDuplicates, vb) && vb < |v2b.ab2b| && v2b.ab2b[vb] == b
  }

  ghost predicate NoneIn(deg: Degree, a: Verts, bv2v: seq<Verts>, v2b: Adj, from: nat, to: nat) {
    forall vc: nat {:trigger Matches(deg, a, bv2v, v2b, vc)} :: from <= vc < to ==> !Matches(deg, a, bv2v, v2b, vc)
  }

  /** Before `to`, the only match is at `at`. */
  ghost predicate IsFound(
      deg: Degree, a: Verts, fv: nat, bv2v: seq<Verts>, v2b: Adj, at: nat, to: nat, b: nat, code: nat)
  {
    && at < to && at < |v2b.ab2b| && IsFirstMatch(deg, a, fv, bv2v, v2b, at) && NoneIn(deg, a, bv2v, v2b, at + 1, to)
    && v2b.ab2b[at] == b < |bv2v| && IsAlignment(deg, bv2v[b], code, a)
  }

  method FindMatch(deg: Degree, a: Verts, fv: nat, bv2v: seq<Verts>, v2b: Adj, allowDuplicates: bool)
    returns (ok: bool, b: nat, code: nat)
    requires HasCandidates(deg, a, fv, bv2v, v2b)
    ensures ok <==> CanMatch(deg, a, fv, bv2v, v2b, allowDuplicates)
    ensures ok ==> IsMatched(deg, a, fv, bv2v, v2b, allowDuplicates, b, code)
  {
    var begin, end := v2b.a2ab[fv], v2b.a2ab[fv + 1];
    var found := false;
    ghost var at := begin;
    b, code := 0, 0;
    for vb := begin to end
      invariant !found ==> NoneIn(deg, a, bv2v, v2b, begin, vb)
      invariant found ==> !allowDuplicates && IsFound(deg, a, fv, bv2v, v2b, at, vb, b, code)
    {
      var candidate, m := TryCandidate(deg, a, bv2v, v2b, vb);
      if m.Some? {
        if found {
          TwoMatches(deg, a, fv, bv2v, v2b, at, vb);
          return false, b, code;
        }
        b, code, found, at := candidate, m.value, true, vb;
        if allowDuplicates {
          assert IsOneMatch(deg, a, fv, bv2v, v2b, allowDuplicates, vb);
          return true, b, code;
        }
      }
    }
    ok := found;
    if found {
      assert IsOneMatch(deg, a, fv, bv2v, v2b, allowDuplicates, at);
    }
  }

  method TryCandidate(deg: Degree, a: Verts, bv2v: seq<Verts>, v2b: Adj, vb: nat)
    returns (candidate: nat, m: Option<nat>)
    requires IsCandidate(deg, a, bv2v, v2b, vb)
    ensures candidate == v2b.ab2b[vb] && (m.Some? <==> Matches(deg, a, bv2v, v2b, vb))
    ensures m.Some? ==> IsAlignment(deg, bv2v[candidate], m.value, a)
  {
    candidate := v2b.ab2b[vb];
    var whichDown := CodeWhichDown(v2b.codes[vb]);
    MatchIsExact(deg, a, bv2v[candidate], whichDown);
    m := EvalMatch(deg, a, bv2v[candidate], whichDown);
  }

  lemma TwoMatches(deg: Degree, a: Verts, fv: nat, bv2v: seq<Verts>, v2b: Adj, vb: nat, vc: nat)
    requires IsFirstMatch(deg, a, fv, bv2v, v2b, vb) && vb < vc < v2b.a2ab[fv + 1] && Matches(deg, a, bv2v, v2b, vc)
    ensures !CanMatch(deg, a, fv, bv2v, v2b, false)
  {
    assert Matches(deg, a, bv2v, v2b, vb);
    forall vd: nat
      ensures !IsOneMatch(deg, a, fv, bv2v, v2b, false, vd)
    {
      assert vd < vb || vd == vb || vb < vd;
    }
  }

  method FindMatches(deg: Degree, a2fv: seq<nat>, av2v: seq<Verts>, bv2v: seq<Verts>, v2b: Adj, allowDuplicates: bool)
    returns (ok: bool, a2b: seq<nat>, codes: seq<nat>)
    requires |a2fv| == |av2v|
    requires forall a :: 0 <= a < |av2v| ==> HasCandidates(deg, av2v[a], a2fv[a], bv2v, v2b)
    ensures ok <==> forall a :: 0 <= a < |av2v| ==> CanMatch(deg, av2v[a], a2fv[a], bv2v, v2b, allowDuplicates)
    ensures ok ==> |a2b| == |av2v| == |codes|
    ensures ok ==> forall a :: 0 <= a < |av2v| ==>
      IsMatched(deg, av2v[a], a2fv[a], bv2v, v2b, allowDuplicates, a2b[a], codes[a])
  {
    a2b, codes := [], [];
    for a := 0 to |av2v|
      invariant |a2b| == a == |codes|
      invariant forall i :: 0 <= i < a ==>
        && CanMatch(deg, av2v[i], a2fv[i], bv2v, v2b, allowDuplicates)
        && IsMatched(deg, av2v[i], a2fv[i], bv2v, v2b, allowDuplicates, a2b[i], codes[i])
    {
      var b, code;
      ok, b, code := FindMatch(deg, av2v[a], a2fv[a], bv2v, v2b, allowDuplicates);
      if !ok {
        return;
      }
      a2b, codes := a2b + [b], codes + [code];
    }
    ok := true;
  }
}
