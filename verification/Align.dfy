/** Alignment codes: how one list of an edge's, triangle's or quad's vertices becomes another list of the
    same vertices, by a rotation followed by a flip. */
module Align {

  /** Edges, triangles and quads. */
  type Degree = d: nat | 2 <= d <= 4 witness 2

  // ----- packing -----

  function MakeCode(isFlipped: bool, rotation: nat, whichDown: nat): nat {
    whichDown * 8 + rotation * 2 + if isFlipped then 1 else 0
  }

  function CodeIsFlipped(code: nat): bool {
    code % 2 == 1
  }

  function CodeRotation(code: nat): nat {
    code / 2 % 4
  }

  function CodeWhichDown(code: nat): nat {
    code / 8
  }

  /** The three parts do not overlap, and fit in seven bits. */
  lemma CodeUnpacks(isFlipped: bool, rotation: nat, whichDown: nat)
    requires rotation < 4
    ensures var code := MakeCode(isFlipped, rotation, whichDown);
      && CodeIsFlipped(code) == isFlipped && CodeRotation(code) == rotation && CodeWhichDown(code) == whichDown
      && (whichDown < 16 ==> code < 128)
  {
    var code := MakeCode(isFlipped, rotation, whichDown);
    var half := code / 2;
    assert half == whichDown * 4 + rotation;
  }

  predicate IsCode(deg: Degree, code: nat) {
    CodeRotation(code) < deg
  }

  // ----- indices -----

  function RotateIndex(deg: Degree, index: nat, rotation: nat): nat {
    (index + rotation) % deg
  }

  function InvertRotation(deg: Degree, rotation: nat): nat
    requires rotation <= deg
  {
    (deg - rotation) % deg
  }

  function ReverseIndex(n: int, i: int): int {
    n - 1 - i
  }

  function FlipVertIndex(deg: Degree, i: nat): nat
    requires i < deg
  {
    if i == 0 then 0 else 1 + ReverseIndex(deg - 1, i - 1)
  }

  function AlignVertIndex(deg: Degree, index: nat, code: nat): nat {
    var rotated := RotateIndex(deg, index, CodeRotation(code));
    if CodeIsFlipped(code) then FlipVertIndex(deg, rotated) else rotated
  }

  function RotationToFirst(deg: Degree, newFirst: nat): nat
    requires newFirst <= deg
  {
    InvertRotation(deg, newFirst)
  }

  function InvertAlignment(deg: Degree, code: nat): nat
    requires IsCode(deg, code)
  {
    if CodeIsFlipped(code) then code else MakeCode(false, InvertRotation(deg, CodeRotation(code)), 0)
  }

  function CompoundAlignments(deg: Degree, code1: nat, code2: nat): nat {
    var oldFirst := AlignVertIndex(deg, AlignVertIndex(deg, 0, code1), code2);
    var rotation := RotationToFirst(deg, oldFirst % deg);
    var isFlipped := CodeIsFlipped(code1) != CodeIsFlipped(code2);
    RotationIsSmall(isFlipped, rotation);
    InvertAlignment(deg, MakeCode(isFlipped, rotation, 0))
  }

  lemma RotationIsSmall(isFlipped: bool, rotation: nat)
    requires rotation < 4
    ensures CodeRotation(MakeCode(isFlipped, rotation, 0)) == rotation
  {
    CodeUnpacks(isFlipped, rotation, 0);
  }

  // ----- lists of vertices -----

  type Verts = seq<int>

  function Rotated(deg: Degree, list: Verts, rotation: nat): (out: Verts)
    requires |list| == deg && rotation < deg
    ensures |out| == deg
  {
    seq(deg, j requires 0 <= j < deg => list[(j + deg - rotation) % deg])
  }

  function Flipped(deg: Degree, list: Verts): (out: Verts)
    requires |list| == deg
    ensures |out| == deg
  {
    if deg == 2 then list else list[1 := list[deg - 1]][deg - 1 := list[1]]
  }

  /** What `align_adj` writes. */
  function Aligned(deg: Degree, list: Verts, code: nat): (out: Verts)
    requires |list| == deg && IsCode(deg, code)
    ensures |out| == deg
  {
    var rotated := Rotated(deg, list, CodeRotation(code));
    if CodeIsFlipped(code) then Flipped(deg, rotated) else rotated
  }

  /** `rotation` steps forth from `i`, around. */
  function Forth(deg: nat, i: nat, rotation: nat): (k: nat)
    requires i < deg && rotation < deg
    ensures k < deg
  {
    if i + rotation < deg then i + rotation else i + rotation - deg
  }

  method RotateAdj(deg: Degree, rotation: nat, list: Verts) returns (out: Verts)
    requires |list| == deg && rotation < deg
    ensures out == Rotated(deg, list, rotation)
  {
    out := list;
    for j := 0 to deg
      invariant |out| == deg
      invariant forall i :: 0 <= i < j ==> out[Forth(deg, i, rotation)] == list[i]
    {
      var outJ := RotateIndex(deg, j, rotation);
      SmallRemainder(deg, j + rotation);
      out := out[outJ := list[j]];
    }
    forall j | 0 <= j < deg
      ensures out[j] == Rotated(deg, list, rotation)[j]
    {
      SmallRemainder(deg, j + deg - rotation);
      assert Forth(deg, if rotation <= j then j - rotation else j + deg - rotation, rotation) == j;
    }
  }

  method AlignAdj(deg: Degree, code: nat, list: Verts) returns (out: Verts)
    requires |list| == deg && IsCode(deg, code)
    ensures out == Aligned(deg, list, code)
  {
    out := RotateAdj(deg, CodeRotation(code), list);
    if CodeIsFlipped(code) {
      if deg == 4 {
        out := out[1 := out[3]][3 := out[1]];
      } else if deg == 3 {
        out := out[1 := out[2]][2 := out[1]];
      }
    }
  }

  /** The same index without remainders. */
  function Turn(deg: nat, isFlipped: bool, rotation: nat, j: nat): (i: nat)
    requires rotation < deg && j < deg
    ensures i < deg
  {
    var rotated := Forth(deg, j, rotation);
    if isFlipped && rotated > 0 then deg - rotated else rotated
  }

  lemma SmallRemainder(deg: nat, i: nat)
    requires 0 < deg && i < deg + deg
    ensures i % deg == if i < deg then i else i - deg
  {
    if i >= deg {
      var r := i - deg;
      assert i == deg * 1 + r;
      Remainder(deg, 1, r, i);
    }
  }

  lemma Remainder(deg: nat, q: nat, r: nat, i: nat)
    requires 0 < deg && r < deg && i == deg * q + r
    ensures i % deg == r
  {
    var p := i / deg - q;
    assert deg * p == r - i % deg;
    assert p >= 1 ==> deg * p >= deg;
    assert p <= -1 ==> deg * p + deg <= 0;
  }

  lemma AlignVertIndexIs(deg: Degree, j: nat, code: nat)
    requires IsCode(deg, code) && j < deg
    ensures AlignVertIndex(deg, j, code) == Turn(deg, CodeIsFlipped(code), CodeRotation(code), j)
  {
    SmallRemainder(deg, j + CodeRotation(code));
  }

  lemma InvertRotationIs(deg: Degree, rotation: nat)
    requires rotation < deg
    ensures InvertRotation(deg, rotation) == if rotation == 0 then 0 else deg - rotation
  {
    SmallRemainder(deg, deg - rotation);
  }

  /** Each vertex goes where `align_vert_index` says. */
  lemma VertsAreAligned(deg: Degree, list: Verts, code: nat, j: nat)
    requires |list| == deg && IsCode(deg, code) && j < deg
    ensures AlignVertIndex(deg, j, code) < deg
    ensures Aligned(deg, list, code)[AlignVertIndex(deg, j, code)] == list[j]
  {
    AlignVertIndexIs(deg, j, code);
    var r := CodeRotation(code);
    var rotated := Turn(deg, false, r, j);
    SmallRemainder(deg, rotated + deg - r);
    assert Rotated(deg, list, r)[rotated] == list[j];
  }

  /** A list is determined by where its vertices go. */
  lemma AlignedIs(deg: Degree, list: Verts, code: nat, out: Verts)
    requires |list| == deg == |out| && IsCode(deg, code)
    requires forall j :: 0 <= j < deg ==>
      AlignVertIndex(deg, j, code) < deg && out[AlignVertIndex(deg, j, code)] == list[j]
    ensures out == Aligned(deg, list, code)
  {
    forall i | 0 <= i < deg
      ensures out[i] == Aligned(deg, list, code)[i]
    {
      var j := Source(deg, code, i);
      VertsAreAligned(deg, list, code, j);
    }
  }

  lemma Source(deg: Degree, code: nat, i: nat) returns (j: nat)
    requires IsCode(deg, code) && i < deg
    ensures j < deg && AlignVertIndex(deg, j, code) == i
  {
    var r := CodeRotation(code);
    var rotated := if CodeIsFlipped(code) && i > 0 then deg - i else i;
    j := if r <= rotated then rotated - r else rotated + deg - r;
    AlignVertIndexIs(deg, j, code);
  }

  lemma InverseIs(deg: Degree, code: nat) returns (r: nat)
    requires IsCode(deg, code)
    ensures IsCode(deg, InvertAlignment(deg, code)) && r == CodeRotation(InvertAlignment(deg, code))
    ensures CodeIsFlipped(InvertAlignment(deg, code)) == CodeIsFlipped(code)
    ensures r == if CodeIsFlipped(code) || CodeRotation(code) == 0 then CodeRotation(code) else deg - CodeRotation(code)
  {
    InvertRotationIs(deg, CodeRotation(code));
    CodeUnpacks(false, InvertRotation(deg, CodeRotation(code)), 0);
    r := CodeRotation(InvertAlignment(deg, code));
  }

  lemma IndexInverts(deg: Degree, code: nat, j: nat) returns (i: nat)
    requires IsCode(deg, code) && j < deg
    ensures i == AlignVertIndex(deg, j, InvertAlignment(deg, code)) < deg && AlignVertIndex(deg, i, code) == j
  {
    var back := InvertAlignment(deg, code);
    var r := InverseIs(deg, code);
    AlignVertIndexIs(deg, j, back);
    i := AlignVertIndex(deg, j, back);
    AlignVertIndexIs(deg, i, code);
  }

  /** The inverse code undoes an alignment. */
  lemma AlignmentsInvert(deg: Degree, list: Verts, code: nat)
    requires |list| == deg && IsCode(deg, code)
    ensures IsCode(deg, InvertAlignment(deg, code))
    ensures Aligned(deg, Aligned(deg, list, code), InvertAlignment(deg, code)) == list
  {
    var back := InvertAlignment(deg, code);
    var r := InverseIs(deg, code);
    var there := Aligned(deg, list, code);
    forall j | 0 <= j < deg
      ensures AlignVertIndex(deg, j, back) < deg && list[AlignVertIndex(deg, j, back)] == there[j]
    {
      var i := IndexInverts(deg, code, j);
      VertsAreAligned(deg, list, code, i);
    }
    AlignedIs(deg, there, back, list);
  }

  /** The compound code does what the two codes do, one after the other. */
  lemma AlignmentsCompound(deg: Degree, list: Verts, code1: nat, code2: nat)
    requires |list| == deg && IsCode(deg, code1) && IsCode(deg, code2)
    ensures IsCode(deg, CompoundAlignments(deg, code1, code2))
    ensures Aligned(deg, list, CompoundAlignments(deg, code1, code2)) == Aligned(deg, Aligned(deg, list, code1), code2)
  {
    hide CompoundAlignments, Aligned, AlignVertIndex, IsCode;
    var both := CompoundAlignments(deg, code1, code2);
    var twice := Aligned(deg, Aligned(deg, list, code1), code2);
    CompoundIndex(deg, code1, code2, 0);
    forall j | 0 <= j < deg
      ensures AlignVertIndex(deg, j, both) < deg && twice[AlignVertIndex(deg, j, both)] == list[j]
    {
      CompoundIndex(deg, code1, code2, j);
      VertsAreAligned(deg, list, code1, j);
      VertsAreAligned(deg, Aligned(deg, list, code1), code2, AlignVertIndex(deg, j, code1));
    }
    AlignedIs(deg, list, both, twice);
  }

  lemma CompoundIndex(deg: Degree, code1: nat, code2: nat, j: nat)
    requires IsCode(deg, code1) && IsCode(deg, code2) && j < deg
    ensures var both := CompoundAlignments(deg, code1, code2);
      IsCode(deg, both) && AlignVertIndex(deg, j, both) == AlignVertIndex(deg, AlignVertIndex(deg, j, code1), code2)
  {
    AlignVertIndexIs(deg, 0, code1);
    AlignVertIndexIs(deg, j, code1);
    var i0, ij := AlignVertIndex(deg, 0, code1), AlignVertIndex(deg, j, code1);
    AlignVertIndexIs(deg, i0, code2);
    AlignVertIndexIs(deg, ij, code2);
    var oldFirst := AlignVertIndex(deg, i0, code2);
    SmallRemainder(deg, oldFirst);
    InvertRotationIs(deg, oldFirst);
    var isFlipped := CodeIsFlipped(code1) != CodeIsFlipped(code2);
    var rotation := RotationToFirst(deg, oldFirst);
    CodeUnpacks(isFlipped, rotation, 0);
    var r := InverseIs(deg, MakeCode(isFlipped, rotation, 0));
    AlignVertIndexIs(deg, j, CompoundAlignments(deg, code1, code2));
    TurnTwice(deg, CodeIsFlipped(code1), CodeRotation(code1), CodeIsFlipped(code2), CodeRotation(code2), j, r);
  }

  /** `j` steps forth or back from `i`, around. */
  function Walked(deg: nat, isBack: bool, i: nat, j: nat): (k: nat)
    requires i < deg && j < deg
    ensures k < deg
  {
    if isBack then
      if i >= j then i - j else i + deg - j
    else
      Forth(deg, i, j)
  }

  /** A code turns an index to the image of the first one, and then as many steps forth or back. */
  lemma TurnWalks(deg: nat, isFlipped: bool, rotation: nat, j: nat)
    requires rotation < deg && j < deg
    ensures Turn(deg, isFlipped, rotation, j) == Walked(deg, isFlipped, Turn(deg, isFlipped, rotation, 0), j)
  {
  }

  lemma WalksCompound(deg: nat, f1: bool, i1: nat, f2: bool, i2: nat, j: nat)
    requires i1 < deg && i2 < deg && j < deg
    ensures Walked(deg, f2, i2, Walked(deg, f1, i1, j)) == Walked(deg, f1 != f2, Walked(deg, f2, i2, i1), j)
  {
    var there := Walked(deg, f1, i1, j);
    if f1 && there > i1 {
      assert there == i1 + deg - j;
    } else if !f1 && there < i1 {
      assert there == i1 + j - deg;
    }
  }

  lemma TurnTwice(deg: nat, f1: bool, r1: nat, f2: bool, r2: nat, j: nat, r: nat)
    requires r1 < deg && r2 < deg && j < deg && r < deg
    requires var first := Turn(deg, f2, r2, Turn(deg, f1, r1, 0));
      r == if f1 == f2 then first else if first == 0 then 0 else deg - first
    ensures Turn(deg, f2, r2, Turn(deg, f1, r1, j)) == Turn(deg, f1 != f2, r, j)
  {
    var i1, i2 := Turn(deg, f1, r1, 0), Turn(deg, f2, r2, 0);
    assert Turn(deg, f1 != f2, r, 0) == Turn(deg, f2, r2, i1);
    hide Turn, Walked;
    TurnWalks(deg, f1, r1, j);
    TurnWalks(deg, f2, r2, Turn(deg, f1, r1, j));
    TurnWalks(deg, f2, r2, i1);
    TurnWalks(deg, f1 != f2, r, j);
    WalksCompound(deg, f1, i1, f2, i2, j);
  }
}
