/** Compressed graphs: the neighbours of node `a` are `ab2b[a2ab[a]..a2ab[a + 1]]`. */
module Graphs {

  ghost predicate IsOffsetStep(a2ab: seq<nat>, i: int) {
    0 <= i < |a2ab| - 1 ==> a2ab[i] <= a2ab[i + 1]
  }

  ghost predicate AreOffsets(a2ab: seq<nat>, n: nat, total: nat) {
    && |a2ab| == n + 1 && a2ab[0] == 0 && a2ab[n] == total
    && forall i {:trigger IsOffsetStep(a2ab, i)} :: IsOffsetStep(a2ab, i)
  }

  lemma OffsetsAscend(a2ab: seq<nat>, n: nat, total: nat, i: nat, j: nat)
    requires AreOffsets(a2ab, n, total) && i <= j <= n
    ensures a2ab[i] <= a2ab[j] <= total
    decreases n - i
  {
    if i < j {
      assert IsOffsetStep(a2ab, i);
      OffsetsAscend(a2ab, n, total, i + 1, j);
    } else if i < n {
      assert IsOffsetStep(a2ab, i);
      OffsetsAscend(a2ab, n, total, i + 1, i + 1);
    }
  }

  datatype Graph = Graph(a2ab: seq<nat>, ab2b: seq<nat>) {
    /** From `n` nodes to some of `m`. */
    ghost predicate IsFrom(n: nat, m: nat) {
      AreOffsets(a2ab, n, |ab2b|) && forall i :: 0 <= i < |ab2b| ==> ab2b[i] < m
    }

    ghost function Row(a: nat): (row: seq<nat>) {
      if a + 1 < |a2ab| && a2ab[a] <= a2ab[a + 1] <= |ab2b| then ab2b[a2ab[a]..a2ab[a + 1]] else []
    }

    lemma RowIs(n: nat, m: nat, a: nat)
      requires IsFrom(n, m) && a < n
      ensures a2ab[a] <= a2ab[a + 1] <= |ab2b| && Row(a) == ab2b[a2ab[a]..a2ab[a + 1]]
      ensures forall i :: 0 <= i < |Row(a)| ==> Row(a)[i] < m
    {
      OffsetsAscend(a2ab, n, |ab2b|, a, a + 1);
    }
  }

  function SumOf(degrees: seq<nat>): nat {
    if degrees == [] then 0 else SumOf(degrees[..|degrees| - 1]) + degrees[|degrees| - 1]
  }

  ghost predicate IsScanStep(degrees: seq<nat>, offsets: seq<nat>, i: int) {
    0 <= i < |degrees| && i < |offsets| - 1 ==> offsets[i + 1] == offsets[i] + degrees[i]
  }

  /** The running sums of the degrees. */
  method OffsetScan(degrees: seq<nat>) returns (offsets: seq<nat>)
    ensures AreOffsets(offsets, |degrees|, SumOf(degrees))
    ensures forall i {:trigger IsScanStep(degrees, offsets, i)} :: IsScanStep(degrees, offsets, i)
  {
    offsets := [0];
    for i := 0 to |degrees|
      invariant AreOffsets(offsets, i, SumOf(degrees[..i]))
      invariant forall j {:trigger IsScanStep(degrees, offsets, j)} :: IsScanStep(degrees, offsets, j)
    {
      ghost var was := offsets;
      offsets := offsets + [offsets[i] + degrees[i]];
      assert degrees[..i + 1][..i] == degrees[..i];
      forall j
        ensures IsScanStep(degrees, offsets, j) && IsOffsetStep(offsets, j)
      {
        assert IsScanStep(degrees, was, j) && IsOffsetStep(was, j);
      }
    }
    assert degrees[..|degrees|] == degrees;
  }

  /** Writing the rows one after another, each at its own offset, gives the graph that has them. */
  ghost predicate RowIsWritten(offsets: seq<nat>, ab2b: seq<nat>, e: nat, row: seq<nat>) {
    e + 1 < |offsets| && offsets[e] <= offsets[e + 1] <= |ab2b| && ab2b[offsets[e]..offsets[e + 1]] == row
  }

  /** A write inside one row leaves the others alone. */
  lemma OtherRowsStay(offsets: seq<nat>, n: nat, ab2b: seq<nat>, ab2b': seq<nat>, e: nat, a: nat)
    requires AreOffsets(offsets, n, |ab2b|) && |ab2b'| == |ab2b| && e < n && a < n && a != e
    requires forall i :: 0 <= i < |ab2b| && !(offsets[e] <= i < offsets[e + 1]) ==> ab2b'[i] == ab2b[i]
    ensures offsets[a] <= offsets[a + 1] <= |ab2b|
    ensures ab2b'[offsets[a]..offsets[a + 1]] == ab2b[offsets[a]..offsets[a + 1]]
  {
    OffsetsAscend(offsets, n, |ab2b|, a, a + 1);
    if a < e {
      OffsetsAscend(offsets, n, |ab2b|, a + 1, e);
    } else {
      OffsetsAscend(offsets, n, |ab2b|, e + 1, a);
    }
  }
}
