/** Which edge each vertex collapses along (`choose_rails`), and finding it again (`find_rails`). */
module Rails {
  import opened Align
  import opened Canonical
  import opened Containers
  import opened Inversion
  import opened ReflectDown
  import Graphs

  /** The edges of a mesh as vertex pairs, with the edges of each vertex. */
  datatype EdgeMesh = EdgeMesh(
    nv: nat, edges: seq<Verts>, lengths: seq<real>, globals: seq<int>, v2e: Adj, ghost lows: seq<nat>,
    ghost slots: seq<nat>)
  {
    ghost predicate Valid() {
      && |lengths| == |edges| == |globals| && AreVerts(edges, 2, nv) && AreUses(2, edges)
      && (forall e :: 0 <= e < |edges| ==> globals[e] >= 0)
      && IsUpFrom(2, edges, nv, lows, slots, v2e)
    }

    ghost predicate HasUniqueGlobals() {
      |globals| == |edges| && forall d, e :: 0 <= d < e < |edges| ==> globals[d] != globals[e]
    }

    /** Entry `ve` is one of the edges of vertex `v`. */
    ghost predicate InRow(v: nat, ve: nat) {
      v + 1 < |v2e.a2ab| && v2e.a2ab[v] <= ve < v2e.a2ab[v + 1]
    }

    lemma RowIs(v: nat)
      requires Valid() && v < nv
      ensures v + 1 < |v2e.a2ab| && v2e.a2ab[v] <= v2e.a2ab[v + 1] <= |v2e.ab2b| == |v2e.codes|
    {
      Graphs.OffsetsAscend(v2e.a2ab, nv, |slots|, v, v + 1);
    }

    /** The entry names an edge and the end of it where the vertex is. */
    lemma EntryOf(v: nat, ve: nat) returns (e: nat, eev: nat)
      requires Valid() && v < nv && InRow(v, ve)
      ensures ve < |v2e.ab2b| == |v2e.codes| && e == v2e.ab2b[ve] < |edges| && eev == CodeWhichDown(v2e.codes[ve]) < 2
      ensures edges[e][eev] == v
    {
      var slot := EntryIs(2, edges, nv, lows, slots, v2e, v, ve);
      e, eev := v2e.ab2b[ve], CodeWhichDown(v2e.codes[ve]);
    }
  }

  const COLLAPSE_LEFT: nat := 1
  const COLLAPSE_RIGHT: nat := 2
  const COLLAPSE_BOTH: nat := 3

  /** The edges that may collapse: which end may collapse, and how good the result would be, two values each. */
  datatype Cands = Cands(edges2cands: seq<Option<nat>>, codes: seq<nat>, quals: seq<real>) {
    predicate Valid(nedges: nat) {
      && |edges2cands| == nedges && |quals| == 2 * |codes|
      && (forall c :: 0 <= c < |codes| ==> COLLAPSE_LEFT <= codes[c] <= COLLAPSE_BOTH)
      && (forall e :: 0 <= e < nedges && edges2cands[e].Some? ==> edges2cands[e].value < |codes|)
    }

    /** Bit `eev` of the code. */
    function Collapses(cand: nat, eev: nat): bool
      requires cand < |codes|
    {
      if eev == 0 then codes[cand] % 2 == 1 else codes[cand] / 2 % 2 == 1
    }

    function QualOf(cand: nat, eev: nat): real
      requires cand * 2 + eev < |quals|
    {
      quals[cand * 2 + eev]
    }

    /** The first vertex of an edge may collapse if its code says left or both, the second if right or both; the
        values of the first vertices are at even places, those of the second ones at odd places. */
    lemma CodesAreEnds(nedges: nat, cand: nat)
      requires Valid(nedges) && cand < |codes|
      ensures Collapses(cand, 0) <==> codes[cand] in {COLLAPSE_LEFT, COLLAPSE_BOTH}
      ensures Collapses(cand, 1) <==> codes[cand] in {COLLAPSE_RIGHT, COLLAPSE_BOTH}
      ensures QualOf(cand, 0) == quals[cand + cand] && QualOf(cand, 1) == quals[cand + cand + 1]
    {
    }

    ghost predicate MayCollapse(e: nat, eev: nat) {
      && e < |edges2cands| && edges2cands[e].Some? && edges2cands[e].value < |codes|
      && |quals| == 2 * |codes| && eev < 2
      && Collapses(edges2cands[e].value, eev)
    }

    ghost function Qual(e: nat, eev: nat): real
      requires MayCollapse(e, eev)
    {
      QualOf(edges2cands[e].value, eev)
    }
  }

  ghost predicate IsPermitted(m: EdgeMesh, c: Cands, v: nat, ve: nat) {
    && m.InRow(v, ve) && ve < |m.v2e.ab2b| && ve < |m.v2e.codes|
    && c.MayCollapse(m.v2e.ab2b[ve], CodeWhichDown(m.v2e.codes[ve]))
    && m.v2e.ab2b[ve] < |m.lengths| && m.v2e.ab2b[ve] < |m.globals|
  }

  ghost function LengthAt(m: EdgeMesh, ve: nat): real
    requires ve < |m.v2e.ab2b| && m.v2e.ab2b[ve] < |m.lengths|
  {
    m.lengths[m.v2e.ab2b[ve]]
  }

  ghost function QualAt(m: EdgeMesh, c: Cands, v: nat, ve: nat): real
    requires IsPermitted(m, c, v, ve)
  {
    c.Qual(m.v2e.ab2b[ve], CodeWhichDown(m.v2e.codes[ve]))
  }

  /** Shorter, or as short and better. */
  ghost predicate IsBetter(m: EdgeMesh, c: Cands, v: nat, ve: nat, wf: nat) {
    && IsPermitted(m, c, v, ve) && IsPermitted(m, c, v, wf)
    && (LengthAt(m, ve) < LengthAt(m, wf)
        || (LengthAt(m, ve) == LengthAt(m, wf) && QualAt(m, c, v, ve) > QualAt(m, c, v, wf)))
  }

  /** The rail of a vertex, up to some entry: no permitted edge is better, and none as good is before it. */
  ghost predicate IsRail(m: EdgeMesh, c: Cands, v: nat, ve: nat, end: nat) {
    && IsPermitted(m, c, v, ve) && ve < end
    && forall wf: nat {:trigger IsPermitted(m, c, v, wf)} :: IsPermitted(m, c, v, wf) && wf < end && wf != ve ==>
      !IsBetter(m, c, v, wf, ve) && (wf < ve ==> IsBetter(m, c, v, ve, wf))
  }

  ghost predicate HasNone(m: EdgeMesh, c: Cands, v: nat, end: nat) {
    forall wf: nat {:trigger IsPermitted(m, c, v, wf)} :: wf < end ==> !IsPermitted(m, c, v, wf)
  }

  lemma BetterIsTransitive(m: EdgeMesh, c: Cands, v: nat, a: nat, b: nat, d: nat)
    requires IsBetter(m, c, v, a, b) && !IsBetter(m, c, v, d, b) && IsPermitted(m, c, v, d)
    ensures IsBetter(m, c, v, a, d)
  {
  }

  lemma RailStays(m: EdgeMesh, c: Cands, v: nat, ve: nat, next: nat)
    requires IsRail(m, c, v, ve, next) && (IsPermitted(m, c, v, next) ==> !IsBetter(m, c, v, next, ve))
    ensures IsRail(m, c, v, ve, next + 1)
  {
  }

  lemma RailMoves(m: EdgeMesh, c: Cands, v: nat, ve: nat, next: nat)
    requires IsRail(m, c, v, ve, next) && IsBetter(m, c, v, next, ve)
    ensures IsRail(m, c, v, next, next + 1)
  {
    forall wf: nat | IsPermitted(m, c, v, wf) && wf < next
      ensures IsBetter(m, c, v, next, wf) && !IsBetter(m, c, v, wf, next)
    {
      if wf != ve {
        BetterIsTransitive(m, c, v, next, ve, wf);
      }
    }
  }

  /** What a vertex is told: whether it may collapse at all, and the global number of its rail. */
  ghost predicate IsChoice(m: EdgeMesh, c: Cands, v: nat, isCand: bool, qual: real, rail: int) {
    v + 1 < |m.v2e.a2ab| &&
    if isCand then
      exists ve: nat ::
        IsRail(m, c, v, ve, m.v2e.a2ab[v + 1]) && m.globals[m.v2e.ab2b[ve]] == rail && QualAt(m, c, v, ve) == qual
    else HasNone(m, c, v, m.v2e.a2ab[v + 1]) && rail == -1
  }

  method ChooseRail(m: EdgeMesh, c: Cands, v: nat) returns (isCand: bool, bestQual: real, bestGlobal: int)
    requires m.Valid() && c.Valid(|m.edges|) && v < m.nv
    ensures IsChoice(m, c, v, isCand, bestQual, bestGlobal)
  {
    hide AreVerts, AreUses, IsUpFrom;
    m.RowIs(v);
    isCand, bestGlobal, bestQual := false, -1, -1.0;
    var bestLength := -1.0;
    ghost var best: nat := 0;
    var begin, end := m.v2e.a2ab[v], m.v2e.a2ab[v + 1];
    for ve := begin to end
      invariant bestGlobal == -1 <==> !isCand
      invariant !isCand ==> HasNone(m, c, v, ve)
      invariant isCand ==>
        && IsRail(m, c, v, best, ve)
        && bestGlobal == m.globals[m.v2e.ab2b[best]] && bestLength == LengthAt(m, best)
        && bestQual == QualAt(m, c, v, best)
    {
      ghost var e', eev' := m.EntryOf(v, ve);
      var e, eev := m.v2e.ab2b[ve], CodeWhichDown(m.v2e.codes[ve]);
      if c.edges2cands[e].Some? {
        var cand := c.edges2cands[e].value;
        if c.Collapses(cand, eev) {
          var length, qual := m.lengths[e], c.QualOf(cand, eev);
          assert IsPermitted(m, c, v, ve);
          if bestGlobal == -1 || length < bestLength || (length == bestLength && qual > bestQual) {
            if isCand {
              RailMoves(m, c, v, best, ve);
            }
            isCand, bestGlobal, bestLength, bestQual, best := true, m.globals[e], length, qual, ve;
          } else {
            RailStays(m, c, v, best, ve);
          }
        }
      }
      assert isCand && best < ve ==> IsRail(m, c, v, best, ve + 1);
    }
  }

  datatype Choices = Choices(areCands: seq<bool>, quals: seq<real>, rails: seq<int>)

  ghost predicate AreChoices(m: EdgeMesh, c: Cands, ch: Choices, n: nat) {
    && |ch.areCands| == n == |ch.quals| == |ch.rails|
    && forall v :: 0 <= v < n ==> IsChoice(m, c, v, ch.areCands[v], ch.quals[v], ch.rails[v])
  }

  method ChooseRails(m: EdgeMesh, c: Cands) returns (ch: Choices)
    requires m.Valid() && c.Valid(|m.edges|)
    ensures AreChoices(m, c, ch, m.nv)
  {
    ch := Choices([], [], []);
    for v := 0 to m.nv
      invariant AreChoices(m, c, ch, v)
    {
      var isCand, qual, rail := ChooseRail(m, c, v);
      ch := Choices(ch.areCands + [isCand], ch.quals + [qual], ch.rails + [rail]);
    }
  }

  /** The first entry of a vertex with the wanted global number. */
  ghost predicate IsFirstWith(m: EdgeMesh, v: nat, rail: int, ve: nat) {
    && m.InRow(v, ve) && ve < |m.v2e.ab2b| && HasGlobal(m, ve, rail)
    && forall wf: nat {:trigger HasGlobal(m, wf, rail)} :: m.v2e.a2ab[v] <= wf < ve ==> !HasGlobal(m, wf, rail)
  }

  ghost predicate HasGlobal(m: EdgeMesh, ve: nat, rail: int) {
    ve < |m.v2e.ab2b| && m.v2e.ab2b[ve] < |m.globals| && m.globals[m.v2e.ab2b[ve]] == rail
  }

  method FindRail(m: EdgeMesh, v: nat, rail: int) returns (found: bool, edge: nat, dir: nat)
    requires m.Valid() && v < m.nv
    ensures found <==> exists ve: nat :: IsFirstWith(m, v, rail, ve)
    ensures found ==> exists ve: nat ::
      IsFirstWith(m, v, rail, ve) && ve < |m.v2e.codes| && edge == m.v2e.ab2b[ve]
      && dir == CodeWhichDown(m.v2e.codes[ve])
  {
    m.RowIs(v);
    var begin, end := m.v2e.a2ab[v], m.v2e.a2ab[v + 1];
    found, edge, dir := false, 0, 0;
    for ve := begin to end
      invariant forall wf: nat {:trigger HasGlobal(m, wf, rail)} :: begin <= wf < ve ==> !HasGlobal(m, wf, rail)
    {
      ghost var e', eev' := m.EntryOf(v, ve);
      var e := m.v2e.ab2b[ve];
      if m.globals[e] == rail {
        assert IsFirstWith(m, v, rail, ve);
        return true, e, CodeWhichDown(m.v2e.codes[ve]);
      }
    }
  }

  ghost predicate IsRailEntry(m: EdgeMesh, c: Cands, v: nat, edge: nat, dir: nat, ve: nat) {
    && IsRail(m, c, v, ve, |m.v2e.ab2b|) && ve < |m.v2e.codes|
    && m.v2e.ab2b[ve] == edge && CodeWhichDown(m.v2e.codes[ve]) == dir
  }

  /** The rail of a key, found again: the edge, and the end that collapses. */
  ghost predicate IsRailOf(m: EdgeMesh, c: Cands, v: nat, edge: nat, dir: nat) {
    && v < m.nv && edge < |m.edges| && dir < 2 && |m.edges[edge]| == 2 && m.edges[edge][dir] == v
    && exists ve: nat :: IsRailEntry(m, c, v, edge, dir, ve)
  }

  /** With unique global numbers, the edge that is found is the one that was chosen. */
  lemma RailIsRecovered(m: EdgeMesh, c: Cands, v: nat, isCand: bool, qual: real, rail: int, ve: nat)
    requires m.Valid() && m.HasUniqueGlobals() && v < m.nv && IsChoice(m, c, v, isCand, qual, rail) && isCand
    requires IsFirstWith(m, v, rail, ve)
    ensures ve < |m.v2e.codes| && IsRailOf(m, c, v, m.v2e.ab2b[ve], CodeWhichDown(m.v2e.codes[ve]))
  {
    m.RowIs(v);
    var end := m.v2e.a2ab[v + 1];
    var wf: nat :| IsRail(m, c, v, wf, end) && m.globals[m.v2e.ab2b[wf]] == rail && QualAt(m, c, v, wf) == qual;
    var e1, eev1 := m.EntryOf(v, ve);
    var e2, eev2 := m.EntryOf(v, wf);
    assert e1 == e2;
    PlaceIsUnique(2, m.edges, m.nv, m.lows, m.slots, m.v2e, v, ve, wf);
    assert IsRailEntry(m, c, v, e1, eev1, ve);
  }

  lemma ChosenIsFound(m: EdgeMesh, c: Cands, v: nat, isCand: bool, qual: real, rail: int, n: nat)
    returns (ve: nat)
    requires m.Valid() && v < m.nv && IsChoice(m, c, v, isCand, qual, rail) && isCand
    requires m.InRow(v, n) && HasGlobal(m, n, rail)
    ensures IsFirstWith(m, v, rail, ve)
    decreases n
  {
    m.RowIs(v);
    if wf: nat :| m.v2e.a2ab[v] <= wf < n && HasGlobal(m, wf, rail) {
      ve := ChosenIsFound(m, c, v, isCand, qual, rail, wf);
    } else {
      ve := n;
    }
  }

  method FindRails(m: EdgeMesh, ghost c: Cands, keys2verts: seq<nat>, ch: Choices)
    returns (rails2edges: seq<nat>, railColDirs: seq<nat>)
    requires m.Valid() && m.HasUniqueGlobals() && AreChoices(m, c, ch, m.nv)
    requires forall k :: 0 <= k < |keys2verts| ==> keys2verts[k] < m.nv && ch.areCands[keys2verts[k]]
    ensures |rails2edges| == |keys2verts| == |railColDirs|
    ensures forall k :: 0 <= k < |keys2verts| ==> IsRailOf(m, c, keys2verts[k], rails2edges[k], railColDirs[k])
  {
    rails2edges, railColDirs := [], [];
    for k := 0 to |keys2verts|
      invariant |rails2edges| == k == |railColDirs|
      invariant forall l :: 0 <= l < k ==> IsRailOf(m, c, keys2verts[l], rails2edges[l], railColDirs[l])
    {
      var v := keys2verts[k];
      var found, edge, dir := FindRail(m, v, ch.rails[v]);
      KeyHasRail(m, c, ch, v);
      ghost var ve: nat :| IsFirstWith(m, v, ch.rails[v], ve) && ve < |m.v2e.codes| && edge == m.v2e.ab2b[ve]
        && dir == CodeWhichDown(m.v2e.codes[ve]);
      RailIsRecovered(m, c, v, ch.areCands[v], ch.quals[v], ch.rails[v], ve);
      rails2edges, railColDirs := rails2edges + [edge], railColDirs + [dir];
    }
  }

  /** A key has a rail to find. */
  lemma KeyHasRail(m: EdgeMesh, c: Cands, ch: Choices, v: nat)
    requires m.Valid() && AreChoices(m, c, ch, m.nv) && v < m.nv && ch.areCands[v]
    ensures exists ve: nat :: IsFirstWith(m, v, ch.rails[v], ve)
  {
    m.RowIs(v);
    assert IsChoice(m, c, v, true, ch.quals[v], ch.rails[v]);
    var wf: nat :| IsRail(m, c, v, wf, m.v2e.a2ab[v + 1]) && m.globals[m.v2e.ab2b[wf]] == ch.rails[v]
      && QualAt(m, c, v, wf) == ch.quals[v];
    assert HasGlobal(m, wf, ch.rails[v]);
    var ve := ChosenIsFound(m, c, v, true, ch.quals[v], ch.rails[v], wf);
  }
}
