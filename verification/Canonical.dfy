/** Canonical vertex lists and deduplication (`get_codes_to_canonical`, `find_unique_deg`). */
module Canonical {
  import opened Align

  /** Two lists of the same entity: some code turns one into the other. */
  ghost predicate IsAlignment(deg: Degree, a: Verts, code: nat, b: Verts) {
    |a| == deg && IsCode(deg, code) && Aligned(deg, a, code) == b
  }

  ghost predicate SameEntity(deg: Degree, a: Verts, b: Verts) {
    exists code :: IsAlignment(deg, a, code, b)
  }

  lemma IsReflexive(deg: Degree, a: Verts)
    requires |a| == deg
    ensures SameEntity(deg, a, a)
  {
    assert CodeRotation(0) == 0 && !CodeIsFlipped(0);
    assert Aligned(deg, a, 0) == a;
    assert IsAlignment(deg, a, 0, a);
  }

  lemma IsSymmetric(deg: Degree, a: Verts, b: Verts)
    requires SameEntity(deg, a, b)
    ensures SameEntity(deg, b, a)
  {
    var code :| IsAlignment(deg, a, code, b);
    AlignmentsInvert(deg, a, code);
    assert IsAlignment(deg, b, InvertAlignment(deg, code), a);
  }

  lemma IsTransitive(deg: Degree, a: Verts, b: Verts, c: Verts)
    requires SameEntity(deg, a, b) && SameEntity(deg, b, c)
    ensures SameEntity(deg, a, c)
  {
    var code1 :| IsAlignment(deg, a, code1, b);
    var code2 :| IsAlignment(deg, b, code2, c);
    AlignmentsCompound(deg, a, code1, code2);
    assert IsAlignment(deg, a, CompoundAlignments(deg, code1, code2), c);
  }

  ghost predicate AreDistinct(a: Verts) {
    forall i, j :: 0 <= i < j < |a| ==> a[i] != a[j]
  }

  /** The smallest vertex is first, and the smaller of its neighbours second. */
  predicate IsCanonical(deg: Degree, a: Verts) {
    |a| == deg && (forall j :: 1 <= j < deg ==> a[0] < a[j]) && (deg > 2 ==> a[1] < a[deg - 1])
  }

  lemma AlignmentKeepsDistinct(deg: Degree, a: Verts, code: nat, b: Verts)
    requires IsAlignment(deg, a, code, b) && AreDistinct(a)
    ensures AreDistinct(b)
  {
    forall i, j | 0 <= i < j < |b|
      ensures b[i] != b[j]
    {
      var k := Source(deg, code, i);
      var l := Source(deg, code, j);
      VertsAreAligned(deg, a, code, k);
      VertsAreAligned(deg, a, code, l);
    }
  }

  /** No two canonical lists are of the same entity. */
  lemma CanonicalIsUnique(deg: Degree, a: Verts, b: Verts)
    requires IsCanonical(deg, a) && IsCanonical(deg, b) && SameEntity(deg, a, b)
    ensures a == b
  {
    var code :| IsAlignment(deg, a, code, b);
    var i := Source(deg, code, 0);
    VertsAreAligned(deg, a, code, i);
    VertsAreAligned(deg, a, code, 0);
    AlignVertIndexIs(deg, 0, code);
    assert i == 0;
    assert CodeRotation(code) == 0;
    Unrotated(deg, a, code, b);
  }

  /** Without a rotation, a list is kept or flipped. */
  lemma Unrotated(deg: Degree, a: Verts, code: nat, b: Verts)
    requires IsAlignment(deg, a, code, b) && CodeRotation(code) == 0
    ensures b == if CodeIsFlipped(code) then Flipped(deg, a) else a
  {
    assert Rotated(deg, a, 0) == a;
  }

  function IsFlipped(deg: Degree, a: Verts): bool
    requires |a| == deg
  {
    if deg == 4 then a[3] < a[1] else if deg == 3 then a[2] < a[1] else false
  }

  /** The place of the smallest vertex. */
  ghost predicate IsFirstMin(a: Verts, m: nat) {
    m < |a| && (forall j :: 0 <= j < |a| ==> a[m] <= a[j]) && (forall j :: 0 <= j < m ==> a[m] < a[j])
  }

  ghost function CodeToCanonical(deg: Degree, a: Verts, m: nat): nat
    requires |a| == deg && m < deg
  {
    var rotation := RotationToFirst(deg, m);
    MakeCode(IsFlipped(deg, Rotated(deg, a, rotation)), rotation, 0)
  }

  method GetCodeToCanonical(deg: Degree, a: Verts) returns (code: nat)
    requires |a| == deg
    ensures IsCode(deg, code)
    ensures AreDistinct(a) ==> IsCanonical(deg, Aligned(deg, a, code))
    ensures exists m :: IsFirstMin(a, m) && code == CodeToCanonical(deg, a, m)
  {
    var minJ, minV := 0, a[0];
    for j := 1 to deg
      invariant minJ < deg && minV == a[minJ]
      invariant forall i :: 0 <= i < j ==> minV <= a[i]
      invariant forall i :: 0 <= i < minJ ==> minV < a[i]
    {
      if a[j] < minV {
        minJ, minV := j, a[j];
      }
    }
    var rotation := RotationToFirst(deg, minJ);
    var tmp := RotateAdj(deg, rotation, a);
    code := MakeCode(IsFlipped(deg, tmp), rotation, 0);
    assert IsFirstMin(a, minJ) && code == CodeToCanonical(deg, a, minJ);
    if AreDistinct(a) {
      BecomesCanonical(deg, a, minJ);
    } else {
      CodeUnpacks(IsFlipped(deg, tmp), rotation, 0);
    }
  }

  lemma BecomesCanonical(deg: Degree, a: Verts, m: nat)
    requires |a| == deg && m < deg && AreDistinct(a) && forall j :: 0 <= j < deg ==> a[m] <= a[j]
    ensures IsCode(deg, CodeToCanonical(deg, a, m)) && IsCanonical(deg, Aligned(deg, a, CodeToCanonical(deg, a, m)))
  {
    var rotation := RotationToFirst(deg, m);
    InvertRotationIs(deg, m);
    var r := Rotated(deg, a, rotation);
    var code := MakeCode(IsFlipped(deg, r), rotation, 0);
    CodeUnpacks(IsFlipped(deg, r), rotation, 0);
    CodeUnpacks(false, rotation, 0);
    var plain := MakeCode(false, rotation, 0);
    assert IsAlignment(deg, a, plain, r);
    AlignmentKeepsDistinct(deg, a, plain, r);
    FirstAfterRotation(deg, a, m);
    forall j | 0 <= j < deg
      ensures r[0] <= r[j]
    {
      var i := Source(deg, plain, j);
      VertsAreAligned(deg, a, plain, i);
    }
  }

  lemma FirstAfterRotation(deg: Degree, a: Verts, m: nat)
    requires |a| == deg && m < deg
    ensures Rotated(deg, a, RotationToFirst(deg, m))[0] == a[m]
  {
    InvertRotationIs(deg, m);
    SmallRemainder(deg, deg - RotationToFirst(deg, m));
  }

  /** Lists are of the same entity exactly if their canonical lists are equal. */
  lemma CanonicalDecides(deg: Degree, a: Verts, codeA: nat, b: Verts, codeB: nat)
    requires |a| == deg && |b| == deg && IsCode(deg, codeA) && IsCode(deg, codeB)
    requires IsCanonical(deg, Aligned(deg, a, codeA)) && IsCanonical(deg, Aligned(deg, b, codeB))
    ensures SameEntity(deg, a, b) <==> Aligned(deg, a, codeA) == Aligned(deg, b, codeB)
  {
    var ca, cb := Aligned(deg, a, codeA), Aligned(deg, b, codeB);
    assert IsAlignment(deg, a, codeA, ca) && IsAlignment(deg, b, codeB, cb);
    IsSymmetric(deg, a, ca);
    IsSymmetric(deg, b, cb);
    if SameEntity(deg, a, b) {
      IsTransitive(deg, ca, a, b);
      IsTransitive(deg, ca, b, cb);
      CanonicalIsUnique(deg, ca, cb);
    }
    if ca == cb {
      IsTransitive(deg, a, ca, b);
    }
  }

  // ----- deduplication -----

  /** Lexicographic order. */
  predicate IsLess(a: Verts, b: Verts)
    decreases |a|
  {
    && a != [] && b != []
    && (a[0] < b[0] || (a[0] == b[0] && IsLess(a[1..], b[1..])))
  }

  lemma {:induction false} LessIsTransitive(a: Verts, b: Verts, c: Verts)
    requires IsLess(a, b) && IsLess(b, c)
    ensures IsLess(a, c)
    decreases |a|
  {
    if a[0] == b[0] && b[0] == c[0] {
      LessIsTransitive(a[1..], b[1..], c[1..]);
    }
  }

  lemma {:induction false} LessIsStrict(a: Verts)
    ensures !IsLess(a, a)
    decreases |a|
  {
    if a != [] {
      LessIsStrict(a[1..]);
    }
  }

  lemma {:induction false} LessIsTotal(a: Verts, b: Verts)
    requires |a| == |b|
    ensures a == b || IsLess(a, b) || IsLess(b, a)
    decreases |a|
  {
    if a != [] && a[0] == b[0] {
      LessIsTotal(a[1..], b[1..]);
      assert a == [a[0]] + a[1..] && b == [b[0]] + b[1..];
    }
  }

  ghost predicate IsPermutation(perm: seq<nat>, n: nat) {
    && |perm| == n && (forall i :: 0 <= i < n ==> perm[i] < n)
    && (forall i, j :: 0 <= i < j < n ==> perm[i] != perm[j])
    && (forall u :: 0 <= u < n ==> u in perm)
  }

  ghost predicate AreInOrder(keys: seq<Verts>, perm: seq<nat>, i: nat, j: nat) {
    i < j < |perm| && perm[i] < |keys| && perm[j] < |keys| ==> !IsLess(keys[perm[j]], keys[perm[i]])
  }

  /** What `sort_by_keys` gives: a permutation that puts the keys in order. */
  ghost predicate IsSortedBy(keys: seq<Verts>, perm: seq<nat>) {
    && IsPermutation(perm, |keys|)
    && forall i: nat, j: nat {:trigger AreInOrder(keys, perm, i, j)} :: AreInOrder(keys, perm, i, j)
  }

  /** Equal keys are next to each other. */
  lemma BetweenEqualKeys(deg: Degree, keys: seq<Verts>, perm: seq<nat>, i: nat, j: nat, k: nat)
    requires IsSortedBy(keys, perm) && forall u :: 0 <= u < |keys| ==> |keys[u]| == deg
    requires i <= j <= k < |perm| && keys[perm[i]] == keys[perm[k]]
    ensures keys[perm[j]] == keys[perm[i]]
  {
    assert AreInOrder(keys, perm, i, j) && AreInOrder(keys, perm, j, k);
    LessIsTotal(keys[perm[i]], keys[perm[j]]);
    LessIsTotal(keys[perm[j]], keys[perm[k]]);
  }

  /** The last of each run of equal keys. */
  ghost predicate IsJump(canon: seq<Verts>, sorted2u: seq<nat>, i: int) {
    && 0 <= i < |sorted2u| && sorted2u[i] < |canon|
    && (i + 1 < |sorted2u| && sorted2u[i + 1] < |canon| ==> canon[sorted2u[i]] != canon[sorted2u[i + 1]])
  }

  method FindCanonicalJumps(canon: seq<Verts>, sorted2u: seq<nat>) returns (jumps: seq<bool>)
    requires IsPermutation(sorted2u, |canon|)
    ensures |jumps| == |sorted2u| && forall i :: 0 <= i < |jumps| ==> (jumps[i] <==> IsJump(canon, sorted2u, i))
  {
    jumps := seq(|sorted2u|, _ => false);
    for i := 0 to |sorted2u|
      invariant |jumps| == |sorted2u|
      invariant forall j :: 0 <= j < i ==> (jumps[j] <==> IsJump(canon, sorted2u, j))
    {
      if i == |sorted2u| - 1 || canon[sorted2u[i]] != canon[sorted2u[i + 1]] {
        jumps := jumps[i := true];
      } else {
        jumps := jumps[i := false];
      }
    }
  }

  method CollectMarked(marks: seq<bool>) returns (marked: seq<nat>)
    ensures forall e :: 0 <= e < |marked| ==> marked[e] < |marks| && marks[marked[e]]
    ensures forall d, e :: 0 <= d < e < |marked| ==> marked[d] < marked[e]
    ensures forall i :: 0 <= i < |marks| && marks[i] ==> i in marked
  {
    marked := [];
    for i := 0 to |marks|
      invariant forall e :: 0 <= e < |marked| ==> marked[e] < i && marks[marked[e]]
      invariant forall d, e :: 0 <= d < e < |marked| ==> marked[d] < marked[e]
      invariant forall j :: 0 <= j < i && marks[j] ==> j in marked
    {
      if marks[i] {
        marked := marked + [i];
      }
    }
  }

  ghost predicate AreUses(deg: Degree, uses: seq<Verts>) {
    forall u :: 0 <= u < |uses| ==> |uses[u]| == deg && AreDistinct(uses[u])
  }

  ghost predicate AreCanonicalOf(deg: Degree, uses: seq<Verts>, codes: seq<nat>, canon: seq<Verts>) {
    && |codes| == |uses| == |canon|
    && forall u :: 0 <= u < |uses| ==>
      && |uses[u]| == deg && IsCode(deg, codes[u])
      && canon[u] == Aligned(deg, uses[u], codes[u]) && IsCanonical(deg, canon[u])
  }

  method CanonicalUses(deg: Degree, uses: seq<Verts>) returns (codes: seq<nat>, canon: seq<Verts>)
    requires AreUses(deg, uses)
    ensures AreCanonicalOf(deg, uses, codes, canon)
  {
    codes, canon := [], [];
    for u := 0 to |uses|
      invariant AreCanonicalOf(deg, uses[..u], codes, canon)
    {
      var code := GetCodeToCanonical(deg, uses[u]);
      var list := AlignAdj(deg, code, uses[u]);
      codes, canon := codes + [code], canon + [list];
    }
    assert uses[..|uses|] == uses;
  }

  /** `e2u` names exactly one use of every entity. */
  ghost predicate IsUniqueChoice(deg: Degree, uses: seq<Verts>, e2u: seq<nat>) {
    && (forall e :: 0 <= e < |e2u| ==> e2u[e] < |uses|)
    && (forall u :: 0 <= u < |uses| ==> HasChoice(deg, uses, e2u, u))
    && (forall d, e :: 0 <= d < e < |e2u| ==> !SameEntity(deg, uses[e2u[d]], uses[e2u[e]]))
  }

  ghost predicate HasChoice(deg: Degree, uses: seq<Verts>, e2u: seq<nat>, u: nat) {
    u < |uses| && exists e :: 0 <= e < |e2u| && e2u[e] < |uses| && SameEntity(deg, uses[u], uses[e2u[e]])
  }

  /** `sorted2u` is what sorting the canonical lists gives. */
  method ChooseUnique(deg: Degree, uses: seq<Verts>, codes: seq<nat>, canon: seq<Verts>, sorted2u: seq<nat>)
    returns (e2u: seq<nat>)
    requires AreCanonicalOf(deg, uses, codes, canon) && IsSortedBy(canon, sorted2u)
    ensures IsUniqueChoice(deg, uses, e2u)
  {
    var jumps := FindCanonicalJumps(canon, sorted2u);
    var e2sorted := CollectMarked(jumps);
    e2u := seq(|e2sorted|, e requires 0 <= e < |e2sorted| => sorted2u[e2sorted[e]]);
    forall u | 0 <= u < |uses|
      ensures HasChoice(deg, uses, e2u, u)
    {
      JumpCovers(deg, uses, codes, canon, sorted2u, e2sorted, e2u, u);
    }
    forall d, e | 0 <= d < e < |e2u|
      ensures !SameEntity(deg, uses[e2u[d]], uses[e2u[e]])
    {
      JumpsDiffer(deg, canon, sorted2u, e2sorted[d], e2sorted[e]);
      CanonicalDecides(deg, uses[e2u[d]], codes[e2u[d]], uses[e2u[e]], codes[e2u[e]]);
    }
  }

  lemma JumpCovers(deg: Degree, uses: seq<Verts>, codes: seq<nat>, canon: seq<Verts>,
      sorted2u: seq<nat>, e2sorted: seq<nat>, e2u: seq<nat>, u: nat)
    requires AreCanonicalOf(deg, uses, codes, canon) && IsPermutation(sorted2u, |canon|) && u < |uses|
    requires |e2u| == |e2sorted|
    requires forall e :: 0 <= e < |e2sorted| ==> e2sorted[e] < |sorted2u| && e2u[e] == sorted2u[e2sorted[e]]
    requires forall i :: 0 <= i < |sorted2u| && IsJump(canon, sorted2u, i) ==> i in e2sorted
    ensures HasChoice(deg, uses, e2u, u)
  {
    assert u in sorted2u;
    var i :| 0 <= i < |sorted2u| && sorted2u[i] == u;
    var j := NextJump(canon, sorted2u, i);
    assert j in e2sorted;
    var e :| 0 <= e < |e2sorted| && e2sorted[e] == j;
    CanonicalDecides(deg, uses[u], codes[u], uses[e2u[e]], codes[e2u[e]]);
  }

  lemma NextJump(canon: seq<Verts>, sorted2u: seq<nat>, i: nat) returns (j: nat)
    requires IsPermutation(sorted2u, |canon|) && i < |sorted2u|
    ensures i <= j < |sorted2u| && IsJump(canon, sorted2u, j) && canon[sorted2u[j]] == canon[sorted2u[i]]
    decreases |sorted2u| - i
  {
    if IsJump(canon, sorted2u, i) {
      j := i;
    } else {
      j := NextJump(canon, sorted2u, i + 1);
    }
  }

  lemma JumpsDiffer(deg: Degree, canon: seq<Verts>, sorted2u: seq<nat>, i: nat, k: nat)
    requires IsSortedBy(canon, sorted2u) && forall u :: 0 <= u < |canon| ==> |canon[u]| == deg
    requires i < k < |sorted2u| && IsJump(canon, sorted2u, i)
    ensures canon[sorted2u[i]] != canon[sorted2u[k]]
  {
    if canon[sorted2u[i]] == canon[sorted2u[k]] {
      BetweenEqualKeys(deg, canon, sorted2u, i, i + 1, k);
      assert false;
    }
  }
}
