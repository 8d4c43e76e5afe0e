/** The graph of elements that share a side which is not exposed (`elements_across_sides`). */
module ElementGraph {
  import opened Graphs

  /** Each element's sides, each side's elements, and which sides are exposed. */
  datatype Topology = Topology(elemSides: seq<seq<nat>>, sideElems: Graph, exposed: seq<bool>) {

    ghost predicate IsOpenSide(s: nat) {
      s < |exposed| && !exposed[s]
    }

    ghost predicate SideIsShared(s: nat) {
      IsOpenSide(s) ==>
        && |sideElems.Row(s)| == 2 && sideElems.Row(s)[0] != sideElems.Row(s)[1]
        && forall e :: 0 <= e < |elemSides| ==> (e in sideElems.Row(s) <==> s in elemSides[e])
    }

    ghost predicate HasDistinctSides(e: nat) {
      e < |elemSides| ==> forall i, j :: 0 <= i < j < |elemSides[e]| ==> elemSides[e][i] != elemSides[e][j]
    }

    /** A simplex has `perElem` different sides, and a side that is not exposed has two elements. */
    ghost predicate Valid(perElem: nat) {
      && sideElems.IsFrom(|exposed|, |elemSides|)
      && (forall e :: 0 <= e < |elemSides| ==> |elemSides[e]| == perElem)
      && (forall e, i :: 0 <= e < |elemSides| && 0 <= i < |elemSides[e]| ==> elemSides[e][i] < |exposed|)
      && (forall e: nat {:trigger HasDistinctSides(e)} :: HasDistinctSides(e))
      && (forall s: nat {:trigger SideIsShared(s)} :: SideIsShared(s))
    }

    /** The element on the other side. */
    ghost function Other(s: nat, e: nat): nat {
      if |sideElems.Row(s)| == 2 then
        if sideElems.Row(s)[0] == e then sideElems.Row(s)[1] else sideElems.Row(s)[0]
      else 0
    }

    ghost function Across(sides: seq<nat>, e: nat): (row: seq<nat>)
      ensures |row| <= |sides|
    {
      if sides == [] then []
      else
        var n := |sides| - 1;
        Across(sides[..n], e) + if IsOpenSide(sides[n]) then [Other(sides[n], e)] else []
    }

    /** The sides between two elements. */
    ghost function Between(sides: seq<nat>, e: nat, o: nat): set<nat> {
      set s | s in sides && IsOpenSide(s) && Other(s, e) == o
    }

    lemma BetweenGrows(front: seq<nat>, last: nat, e: nat, o: nat)
      requires last !in front
      ensures |Between(front + [last], e, o)| ==
        |Between(front, e, o)| + if IsOpenSide(last) && Other(last, e) == o then 1 else 0
    {
      var sides := front + [last];
      assert forall s :: s in sides <==> s in front || s == last;
      if IsOpenSide(last) && Other(last, e) == o {
        assert Between(sides, e, o) == Between(front, e, o) + {last};
      } else {
        assert Between(sides, e, o) == Between(front, e, o);
      }
    }

    lemma {:induction false} AcrossCounts(sides: seq<nat>, e: nat, o: nat)
      requires forall i, j :: 0 <= i < j < |sides| ==> sides[i] != sides[j]
      ensures multiset(Across(sides, e))[o] == |Between(sides, e, o)|
    {
      if sides != [] {
        var n := |sides| - 1;
        var front, last := sides[..n], sides[n];
        AcrossCounts(front, e, o);
        assert sides == front + [last];
        BetweenGrows(front, last, e, o);
      } else {
        assert Between(sides, e, o) == {};
      }
    }

    lemma {:induction false} AcrossIsInMesh(perElem: nat, sides: seq<nat>, e: nat)
      requires Valid(perElem) && e < |elemSides| && forall i :: 0 <= i < |sides| ==> sides[i] < |exposed|
      ensures forall i :: 0 <= i < |Across(sides, e)| ==> Across(sides, e)[i] < |elemSides|
    {
      if sides != [] {
        var n := |sides| - 1;
        AcrossIsInMesh(perElem, sides[..n], e);
        assert SideIsShared(sides[n]);
        sideElems.RowIs(|exposed|, |elemSides|, sides[n]);
      }
    }

    /** The graph has as many edges from `e` to `o` as back, and none from an element to itself. */
    lemma {:induction false} AcrossIsSymmetric(perElem: nat, e: nat, o: nat)
      requires Valid(perElem) && e < |elemSides| && o < |elemSides|
      ensures multiset(Across(elemSides[e], e))[o] == multiset(Across(elemSides[o], o))[e]
      ensures e == o ==> multiset(Across(elemSides[e], e))[o] == 0
    {
      assert HasDistinctSides(e) && HasDistinctSides(o);
      AcrossCounts(elemSides[e], e, o);
      AcrossCounts(elemSides[o], o, e);
      SharedBetween(perElem, e, o);
      SharedBetween(perElem, o, e);
      assert Between(elemSides[e], e, o) == Between(elemSides[o], o, e);
    }

    lemma SharedBetween(perElem: nat, e: nat, o: nat)
      requires Valid(perElem) && e < |elemSides| && o < |elemSides|
      ensures forall s :: s in Between(elemSides[e], e, o) ==> s in Between(elemSides[o], o, e)
      ensures e == o ==> Between(elemSides[e], e, o) == {}
    {
      forall s | s in Between(elemSides[e], e, o)
        ensures s in Between(elemSides[o], o, e) && e != o
      {
        assert SideIsShared(s);
        assert e in sideElems.Row(s);
        assert o in sideElems.Row(s);
      }
    }
  }

  method CountAcross(t: Topology, e: nat) returns (degree: nat)
    requires e < |t.elemSides| && forall i :: 0 <= i < |t.elemSides[e]| ==> t.elemSides[e][i] < |t.exposed|
    ensures degree == |t.Across(t.elemSides[e], e)|
  {
    degree := 0;
    var sides := t.elemSides[e];
    for i := 0 to |sides|
      invariant degree == |t.Across(sides[..i], e)|
    {
      assert sides[..i + 1][..i] == sides[..i];
      if !t.exposed[sides[i]] {
        degree := degree + 1;
      }
    }
    assert sides[..|sides|] == sides;
  }

  /** Writes the row of one element. */
  method FillAcross(t: Topology, perElem: nat, e: nat, start: nat, ab2b: seq<nat>) returns (ab2b': seq<nat>)
    requires t.Valid(perElem) && e < |t.elemSides|
    requires start + |t.Across(t.elemSides[e], e)| <= |ab2b|
    ensures |ab2b'| == |ab2b|
    ensures ab2b'[start..start + |t.Across(t.elemSides[e], e)|] == t.Across(t.elemSides[e], e)
    ensures forall i :: 0 <= i < |ab2b| && !(start <= i < start + |t.Across(t.elemSides[e], e)|) ==> ab2b'[i] == ab2b[i]
  {
    ab2b' := ab2b;
    var sides, to := t.elemSides[e], start;
    for i := 0 to |sides|
      invariant to == start + |t.Across(sides[..i], e)| <= start + |t.Across(sides, e)| && |ab2b'| == |ab2b|
      invariant ab2b'[start..to] == t.Across(sides[..i], e)
      invariant forall j :: 0 <= j < |ab2b| && !(start <= j < to) ==> ab2b'[j] == ab2b[j]
    {
      var side := sides[i];
      assert sides[..i + 1][..i] == sides[..i];
      AcrossGrows(t, sides, i + 1, e);
      if !t.exposed[side] {
        assert t.SideIsShared(side);
        t.sideElems.RowIs(|t.exposed|, |t.elemSides|, side);
        var sideElem := t.sideElems.a2ab[side];
        assert t.sideElems.Row(side)[0] == t.sideElems.ab2b[sideElem];
        assert t.sideElems.Row(side)[1] == t.sideElems.ab2b[sideElem + 1];
        if t.sideElems.ab2b[sideElem] == e {
          sideElem := sideElem + 1;
        }
        ab2b' := ab2b'[to := t.sideElems.ab2b[sideElem]];
        to := to + 1;
      }
    }
    assert sides[..|sides|] == sides;
  }

  lemma {:induction false} AcrossGrows(t: Topology, sides: seq<nat>, i: nat, e: nat)
    requires i <= |sides|
    ensures |t.Across(sides[..i], e)| <= |t.Across(sides, e)|
    decreases |sides|
  {
    if i < |sides| {
      var n := |sides| - 1;
      assert sides[..n][..i] == sides[..i];
      AcrossGrows(t, sides[..n], i, e);
    } else {
      assert sides[..i] == sides;
    }
  }

  lemma WrittenIsInMesh(was: seq<nat>, now: seq<nat>, start: nat, row: seq<nat>, n: nat)
    requires |was| == |now| && start + |row| <= |now| && now[start..start + |row|] == row
    requires forall i :: 0 <= i < |was| && !(start <= i < start + |row|) ==> now[i] == was[i]
    requires forall i :: 0 <= i < |was| ==> was[i] < n
    requires forall i :: 0 <= i < |row| ==> row[i] < n
    ensures forall i :: 0 <= i < |now| ==> now[i] < n
  {
    forall i | 0 <= i < |now|
      ensures now[i] < n
    {
      if start <= i < start + |row| {
        assert now[start..start + |row|][i - start] == now[i];
      }
    }
  }

  method ElementsAcrossSides(t: Topology, perElem: nat) returns (g: Graph)
    requires t.Valid(perElem)
    ensures g.IsFrom(|t.elemSides|, |t.elemSides|)
    ensures forall e :: 0 <= e < |t.elemSides| ==> g.Row(e) == t.Across(t.elemSides[e], e)
  {
    var n := |t.elemSides|;
    var degrees: seq<nat> := [];
    for e := 0 to n
      invariant |degrees| == e
      invariant forall a :: 0 <= a < e ==> degrees[a] == |t.Across(t.elemSides[a], a)|
    {
      var degree := CountAcross(t, e);
      degrees := degrees + [degree];
    }
    var offsets := OffsetScan(degrees);
    var total := offsets[n];
    var ab2b: seq<nat> := seq(total, _ => 0);
    for e := 0 to n
      invariant |ab2b| == total
      invariant forall a :: 0 <= a < e ==> RowIsWritten(offsets, ab2b, a, t.Across(t.elemSides[a], a))
      invariant forall i :: 0 <= i < total ==> ab2b[i] < n
    {
      assert IsScanStep(degrees, offsets, e);
      OffsetsAscend(offsets, n, total, e, e + 1);
      ghost var was := ab2b;
      ab2b := FillAcross(t, perElem, e, offsets[e], ab2b);
      t.AcrossIsInMesh(perElem, t.elemSides[e], e);
      WrittenIsInMesh(was, ab2b, offsets[e], t.Across(t.elemSides[e], e), n);
      forall a | 0 <= a < e
        ensures RowIsWritten(offsets, ab2b, a, t.Across(t.elemSides[a], a))
      {
        assert RowIsWritten(offsets, was, a, t.Across(t.elemSides[a], a));
        OtherRowsStay(offsets, n, was, ab2b, e, a);
      }
    }
    g := Graph(offsets, ab2b);
  }
}
