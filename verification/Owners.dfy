/** Agreeing on owners (`resolve_derived_copies`): the copies of an entity, on whatever ranks, get the same
    owner, which is a copy on the lowest rank, and write its vertices in the same order. */
module Owners {
  import opened Align
  import opened Canonical
  import opened Containers
  import opened Dists
  import opened Exchange
  import opened Graphs
  import opened Inversion
  import opened LinearPartition
  import opened Matching
  import opened RankOrder

  /** On each rank: the global numbers of the vertices, and the vertices of the entities. */
  datatype Part = Part(verts2globs: seq<nat>, ents: seq<Verts>) {
    ghost predicate IsList(deg: Degree, list: Verts) {
      |list| == deg && forall k :: 0 <= k < deg ==> 0 <= list[k] < |verts2globs|
    }

    function GlobalsOf(list: Verts): (globals: Verts)
      requires forall k :: 0 <= k < |list| ==> 0 <= list[k] < |verts2globs|
      ensures |globals| == |list| && forall k :: 0 <= k < |list| ==> globals[k] == verts2globs[list[k]]
    {
      seq(|list|, k requires 0 <= k < |list| => verts2globs[list[k]])
    }

    /** Every entity has vertices of this part, no two with the same global number. */
    ghost predicate Valid(deg: Degree) {
      forall i :: 0 <= i < |ents| ==> IsList(deg, ents[i]) && AreDistinct(GlobalsOf(ents[i]))
    }

    ghost function Globals(deg: Degree, i: nat): Verts
      requires Valid(deg) && i < |ents|
    {
      GlobalsOf(ents[i])
    }
  }

  type Mesh = seq<Part>

  ghost predicate IsMesh(deg: Degree, mesh: Mesh) {
    forall p :: 0 <= p < |mesh| ==> mesh[p].Valid(deg)
  }

  ghost predicate IsEntity(deg: Degree, mesh: Mesh, p: nat, i: nat) {
    IsMesh(deg, mesh) && p < |mesh| && i < |mesh[p].ents|
  }

  /** The global numbers of the vertices of entity `i` of rank `p`. */
  ghost function GlobalsAt(deg: Degree, mesh: Mesh, p: nat, i: nat): Verts
    requires IsEntity(deg, mesh, p, i)
  {
    mesh[p].Globals(deg, i)
  }

  /** Two entities are copies if their vertices have the same global numbers, up to rotation and flip. */
  ghost predicate AreCopies(deg: Degree, mesh: Mesh, p1: nat, i1: nat, p2: nat, i2: nat) {
    IsEntity(deg, mesh, p1, i1) && IsEntity(deg, mesh, p2, i2)
    && SameEntity(deg, GlobalsAt(deg, mesh, p1, i1), GlobalsAt(deg, mesh, p2, i2))
  }

  lemma AlignedGlobals(deg: Degree, part: Part, list: Verts, code: nat)
    requires part.IsList(deg, list) && IsCode(deg, code)
    ensures part.IsList(deg, Aligned(deg, list, code))
    ensures part.GlobalsOf(Aligned(deg, list, code)) == Aligned(deg, part.GlobalsOf(list), code)
  {
    var out := Aligned(deg, list, code);
    forall k | 0 <= k < deg
      ensures 0 <= out[k] < |part.verts2globs|
      ensures part.verts2globs[out[k]] == Aligned(deg, part.GlobalsOf(list), code)[k]
    {
      var j := Source(deg, code, k);
      VertsAreAligned(deg, list, code, j);
      VertsAreAligned(deg, part.GlobalsOf(list), code, j);
    }
    assert part.GlobalsOf(out) == Aligned(deg, part.GlobalsOf(list), code);
  }

  // ----- canonical copies -----

  /** The lists of one rank in canonical order, as vertices and as global numbers. */
  ghost predicate AreCanonical(deg: Degree, part: Part, n: nat, verts: seq<Verts>, globals: seq<Verts>) {
    && |verts| == n == |globals| && n <= |part.ents|
    && forall i :: 0 <= i < n ==> IsCanonicalEnt(deg, part, part.ents[i], verts[i], globals[i])
  }

  ghost predicate IsCanonicalEnt(deg: Degree, part: Part, ent: Verts, verts: Verts, globals: Verts) {
    && part.IsList(deg, ent) && part.IsList(deg, verts)
    && globals == part.GlobalsOf(verts) && IsCanonical(deg, globals) && SameEntity(deg, part.GlobalsOf(ent), globals)
    && SameEntity(deg, ent, verts) && AreDistinct(globals)
  }

  method CanonicalEnt(deg: Degree, part: Part, ent: Verts) returns (verts: Verts, globals: Verts)
    requires part.IsList(deg, ent) && AreDistinct(part.GlobalsOf(ent))
    ensures IsCanonicalEnt(deg, part, ent, verts, globals)
  {
    var entGlobals := part.GlobalsOf(ent);
    var code := GetCodeToCanonical(deg, entGlobals);
    verts := AlignAdj(deg, code, ent);
    globals := AlignAdj(deg, code, entGlobals);
    AlignedGlobals(deg, part, ent, code);
    assert IsAlignment(deg, entGlobals, code, globals) && IsAlignment(deg, ent, code, verts);
    AlignmentKeepsDistinct(deg, entGlobals, code, globals);
  }

  method CanonicalEnts(deg: Degree, part: Part) returns (verts: seq<Verts>, globals: seq<Verts>)
    requires part.Valid(deg)
    ensures AreCanonical(deg, part, |part.ents|, verts, globals)
  {
    verts, globals := [], [];
    for i := 0 to |part.ents|
      invariant AreCanonical(deg, part, i, verts, globals)
    {
      var v, g := CanonicalEnt(deg, part, part.ents[i]);
      verts, globals := verts + [v], globals + [g];
    }
  }

  ghost predicate IsCanonicalMesh(deg: Degree, mesh: Mesh, verts: seq<seq<Verts>>, globals: seq<seq<Verts>>) {
    && IsMesh(deg, mesh) && |verts| == |mesh| == |globals|
    && forall p :: 0 <= p < |mesh| ==> AreCanonical(deg, mesh[p], |mesh[p].ents|, verts[p], globals[p])
  }

  /** Copies have equal canonical lists. */
  lemma CopiesAreEqual(
      deg: Degree, mesh: Mesh, verts: seq<seq<Verts>>, globals: seq<seq<Verts>>, p1: nat, i1: nat, p2: nat, i2: nat)
    requires IsCanonicalMesh(deg, mesh, verts, globals) && IsEntity(deg, mesh, p1, i1) && IsEntity(deg, mesh, p2, i2)
    ensures AreCopies(deg, mesh, p1, i1, p2, i2) <==> globals[p1][i1] == globals[p2][i2]
  {
    var a, b := GlobalsAt(deg, mesh, p1, i1), GlobalsAt(deg, mesh, p2, i2);
    var ca, cb := globals[p1][i1], globals[p2][i2];
    assert IsCanonicalEnt(deg, mesh[p1], mesh[p1].ents[i1], verts[p1][i1], ca);
    assert IsCanonicalEnt(deg, mesh[p2], mesh[p2].ents[i2], verts[p2][i2], cb);
    assert SameEntity(deg, a, ca) && SameEntity(deg, b, cb);
    IsSymmetric(deg, a, ca);
    IsSymmetric(deg, b, cb);
    if SameEntity(deg, a, b) {
      IsTransitive(deg, ca, a, b);
      IsTransitive(deg, ca, b, cb);
      CanonicalIsUnique(deg, ca, cb);
    }
    if ca == cb {
      IsTransitive(deg, a, ca, b);
    }
  }

  // ----- servers -----

  method FindTotalGlobals(mesh: Mesh) returns (total: nat)
    ensures forall p, v :: 0 <= p < |mesh| && 0 <= v < |mesh[p].verts2globs| ==> mesh[p].verts2globs[v] < total
  {
    total := 0;
    for p := 0 to |mesh|
      invariant forall q, v :: 0 <= q < p && 0 <= v < |mesh[q].verts2globs| ==> mesh[q].verts2globs[v] < total
    {
      for v := 0 to |mesh[p].verts2globs|
        invariant forall q, u :: 0 <= q < p && 0 <= u < |mesh[q].verts2globs| ==> mesh[q].verts2globs[u] < total
        invariant forall u :: 0 <= u < v ==> mesh[p].verts2globs[u] < total
      {
        if mesh[p].verts2globs[v] >= total {
          total := mesh[p].verts2globs[v] + 1;
        }
      }
    }
  }

  /** The server of an entity: the place of its first global number. */
  ghost predicate IsServerOf(global: int, total: nat, size: nat, rank: nat, idx: nat) {
    size > 0 && 0 <= global < total && LinearOwner(global, total, size) == Remote(rank, idx)
  }

  ghost predicate AreServers(deg: Degree, globals: seq<Verts>, total: nat, size: nat, ranks: seq<nat>, idxs: seq<nat>) {
    && |ranks| == |globals| == |idxs|
    && forall i :: 0 <= i < |globals| ==>
      |globals[i]| == deg && IsServerOf(globals[i][0], total, size, ranks[i], idxs[i])
  }

  method FindServers(deg: Degree, part: Part, verts: seq<Verts>, ghost globals: seq<Verts>, total: nat, size: nat)
    returns (ranks: seq<nat>, idxs: seq<nat>)
    requires AreCanonical(deg, part, |part.ents|, verts, globals) && size > 0
    requires forall v :: 0 <= v < |part.verts2globs| ==> part.verts2globs[v] < total
    ensures AreServers(deg, globals, total, size, ranks, idxs)
  {
    ranks, idxs := [], [];
    for i := 0 to |verts|
      invariant |ranks| == i == |idxs|
      invariant forall k :: 0 <= k < i ==>
        |globals[k]| == deg && IsServerOf(globals[k][0], total, size, ranks[k], idxs[k])
    {
      assert IsCanonicalEnt(deg, part, part.ents[i], verts[i], globals[i]);
      var server := LinearOwner(part.verts2globs[verts[i][0]], total, size);
      ranks, idxs := ranks + [server.rank], idxs + [server.idx];
    }
  }

  method PartitionSizes(total: nat, size: nat) returns (sizes: seq<nat>)
    requires size > 0
    ensures |sizes| == size && forall p :: 0 <= p < size ==> sizes[p] == LinearPartitionSize(total, size, p)
  {
    sizes := seq(size, (p: nat) => LinearPartitionSize(total, size, p));
  }

  // ----- matching what a rank serves -----

  /** The items that one vertex serves. */
  ghost predicate InRow(servers: seq<nat>, server: nat, j: nat) {
    server + 1 < |servers| && servers[server] <= j < servers[server + 1]
  }

  ghost predicate HaveSameFirst(servers: seq<nat>, served: seq<Verts>, server: nat, j: nat, k: nat) {
    InRow(servers, server, j) && InRow(servers, server, k) && j < |served| && k < |served| ==>
      |served[j]| > 0 && |served[k]| > 0 && served[j][0] == served[k][0]
  }

  /** All that a vertex serves begins with the same vertex, and is in canonical order. */
  ghost predicate IsService(deg: Degree, servers: seq<nat>, served: seq<Verts>) {
    && |servers| > 0 && AreOffsets(servers, |servers| - 1, |served|)
    && (forall j :: 0 <= j < |served| ==> IsCanonical(deg, served[j]) && AreDistinct(served[j]))
    && (forall s: nat, j: nat, k: nat {:trigger HaveSameFirst(servers, served, s, j, k)} ::
          HaveSameFirst(servers, served, s, j, k))
  }

  /** `b` is the item that all items with the list of `j` get: one from the lowest rank. */
  ghost predicate IsServedOwner(
      servers: seq<nat>, served: seq<Verts>, ranks: seq<nat>, se2ose: seq<nat>, s: nat, j: nat)
  {
    InRow(servers, s, j) && j < |served| == |ranks| == |se2ose| ==>
      && InRow(servers, s, se2ose[j]) && se2ose[j] < |served| && served[se2ose[j]] == served[j]
      && forall k: nat :: InRow(servers, s, k) && k < |served| && served[k] == served[j] ==>
        se2ose[k] == se2ose[j] && ranks[se2ose[j]] <= ranks[k]
  }

  lemma FirstMatchExists(deg: Degree, a: Verts, fv: nat, bv2v: seq<Verts>, v2b: Adj, vb: nat)
    returns (first: nat)
    requires fv + 1 < |v2b.a2ab| && v2b.a2ab[fv] <= vb < v2b.a2ab[fv + 1] && Matches(deg, a, bv2v, v2b, vb)
    ensures IsFirstMatch(deg, a, fv, bv2v, v2b, first)
    decreases vb
  {
    if vc: nat :| v2b.a2ab[fv] <= vc < vb && Matches(deg, a, bv2v, v2b, vc) {
      first := FirstMatchExists(deg, a, fv, bv2v, v2b, vc);
    } else {
      first := vb;
    }
  }

  lemma CanonicalMatch(deg: Degree, a: Verts, bv2v: seq<Verts>, v2b: Adj, vb: nat)
    requires IsCanonical(deg, a) && forall b :: 0 <= b < |bv2v| ==> IsCanonical(deg, bv2v[b])
    requires vb < |v2b.ab2b| && v2b.ab2b[vb] < |bv2v|
    ensures Matches(deg, a, bv2v, v2b, vb) <==> bv2v[v2b.ab2b[vb]] == a
  {
    var b := bv2v[v2b.ab2b[vb]];
    if SameEntity(deg, b, a) {
      CanonicalIsUnique(deg, b, a);
    }
    IsReflexive(deg, a);
  }

  /** The rows of served items, in rank order. */
  ghost function Serving(servers: seq<nat>, order: seq<nat>): Adj {
    Adj(servers, order, seq(|order|, _ => 0))
  }

  lemma ServedAreCandidates(
      deg: Degree, servers: seq<nat>, served: seq<Verts>, ranks: seq<nat>, order: seq<nat>, s: nat, j: nat)
    requires IsService(deg, servers, served) && |ranks| == |served| == |order| && RowIsOrdered(servers, ranks, order, s)
    requires InRow(servers, s, j) && j < |served|
    ensures HasCandidates(deg, served[j], s, served, Serving(servers, order))
    ensures CanMatch(deg, served[j], s, served, Serving(servers, order), true)
  {
    hide AreOffsets, AreDistinct;
    var v2b := Serving(servers, order);
    assert MakeCode(false, 0, 0) == 0;
    CodeUnpacks(false, 0, 0);
    forall vb: nat | servers[s] <= vb < servers[s + 1]
      ensures IsCandidate(deg, served[j], served, v2b, vb)
    {
      assert HaveSameFirst(servers, served, s, j, order[vb]);
    }
    assert RankOrder.IsPlaced(order, servers[s], servers[s + 1], j);
    var vb :| servers[s] <= vb < servers[s + 1] && vb < |order| && order[vb] == j;
    CanonicalMatch(deg, served[j], served, v2b, vb);
    var first := FirstMatchExists(deg, served[j], s, served, v2b, vb);
    assert IsOneMatch(deg, served[j], s, served, v2b, true, first);
  }

  lemma NotAfter(deg: Degree, a: Verts, fv: nat, bv2v: seq<Verts>, v2b: Adj, vb: nat, vc: nat)
    requires IsFirstMatch(deg, a, fv, bv2v, v2b, vb) && Matches(deg, a, bv2v, v2b, vc) && v2b.a2ab[fv] <= vc
    ensures vb <= vc
  {
  }

  /** Where an item is in the rank order of its row. */
  lemma PlaceInOrder(servers: seq<nat>, ranks: seq<nat>, order: seq<nat>, s: nat, k: nat)
    returns (vc: nat)
    requires RowIsOrdered(servers, ranks, order, s) && InRow(servers, s, k)
    ensures servers[s] <= vc < servers[s + 1] && vc < |order| && order[vc] == k
  {
    assert RankOrder.IsPlaced(order, servers[s], servers[s + 1], k);
    vc :| servers[s] <= vc < servers[s + 1] && vc < |order| && order[vc] == k;
  }

  lemma InRankOrder(servers: seq<nat>, ranks: seq<nat>, order: seq<nat>, s: nat, vb: nat, vc: nat)
    requires RowIsOrdered(servers, ranks, order, s) && s + 1 < |servers| && servers[s] <= vb <= vc < servers[s + 1]
    ensures vc < |order| && order[vb] < |ranks| && order[vc] < |ranks| && ranks[order[vb]] <= ranks[order[vc]]
  {
  }

  lemma FirstIsOwner(deg: Degree, servers: seq<nat>, served: seq<Verts>, ranks: seq<nat>,
      order: seq<nat>, s: nat, j: nat, vb: nat, k: nat)
    requires IsService(deg, servers, served) && |ranks| == |served| == |order| && RowIsOrdered(servers, ranks, order, s)
    requires InRow(servers, s, j) && j < |served|
    requires IsFirstMatch(deg, served[j], s, served, Serving(servers, order), vb)
    requires InRow(servers, s, k) && k < |served| && served[k] == served[j]
    ensures vb < |order| && order[vb] < |ranks| && ranks[order[vb]] <= ranks[k]
  {
    var v2b := Serving(servers, order);
    var vc := PlaceInOrder(servers, ranks, order, s, k);
    CanonicalMatch(deg, served[j], served, v2b, vc);
    NotAfter(deg, served[j], s, served, v2b, vb, vc);
    InRankOrder(servers, ranks, order, s, vb, vc);
  }

  lemma SameFirstMatch(deg: Degree, a: Verts, fv: nat, bv2v: seq<Verts>, v2b: Adj, vb: nat, vc: nat)
    requires IsFirstMatch(deg, a, fv, bv2v, v2b, vb) && IsFirstMatch(deg, a, fv, bv2v, v2b, vc)
    ensures vb == vc
  {
  }

  method MatchServed(deg: Degree, servers: seq<nat>, served: seq<Verts>, ranks: seq<nat>) returns (se2ose: seq<nat>)
    requires IsService(deg, servers, served) && |ranks| == |served|
    requires forall j :: 0 <= j < |ranks| ==> ranks[j] < MAX_RANK
    ensures |se2ose| == |served| && forall s: nat, j: nat :: IsServedOwner(servers, served, ranks, se2ose, s, j)
  {
    var order := SortLocallyBasedOnRank(servers, ranks);
    var v2b := Adj(servers, order, seq(|order|, _ => 0));
    var se2fsv := InvertFan(servers, |served|);
    forall j | 0 <= j < |served|
      ensures HasCandidates(deg, served[j], se2fsv[j], served, v2b)
      ensures CanMatch(deg, served[j], se2fsv[j], served, v2b, true)
    {
      var s := BucketOf(servers, |servers| - 1, |served|, j, |servers| - 1);
      assert RowIsOrdered(servers, ranks, order, s);
      ServedAreCandidates(deg, servers, served, ranks, order, s, j);
    }
    var ok, ignoredCodes;
    ok, se2ose, ignoredCodes := FindMatches(deg, se2fsv, served, served, v2b, true);
    forall s: nat, j: nat
      ensures IsServedOwner(servers, served, ranks, se2ose, s, j)
    {
      if InRow(servers, s, j) && j < |served| {
        assert RowIsOrdered(servers, ranks, order, s);
        MatchIsOwner(deg, servers, served, ranks, order, se2fsv, se2ose, ignoredCodes, s, j);
      }
    }
  }

  lemma MatchIsOwner(deg: Degree, servers: seq<nat>, served: seq<Verts>, ranks: seq<nat>,
      order: seq<nat>, se2fsv: seq<nat>, se2ose: seq<nat>, codes: seq<nat>, s: nat, j: nat)
    requires IsService(deg, servers, served) && |ranks| == |served| == |order| == |se2fsv| == |se2ose| == |codes|
    requires RowIsOrdered(servers, ranks, order, s) && InRow(servers, s, j) && j < |served|
    requires forall a, b :: 0 <= a < |servers| - 1 && servers[a] <= b < servers[a + 1] && b < |se2fsv| ==>
      se2fsv[b] == a
    requires forall a :: 0 <= a < |served| ==>
      IsMatched(deg, served[a], se2fsv[a], served, Serving(servers, order), true, se2ose[a], codes[a])
    ensures IsServedOwner(servers, served, ranks, se2ose, s, j)
  {
    var vb := MatchPlace(deg, servers, served, order, se2fsv, se2ose, codes, s, j);
    forall k: nat | InRow(servers, s, k) && k < |served| && served[k] == served[j]
      ensures se2ose[k] == se2ose[j] && ranks[se2ose[j]] <= ranks[k]
    {
      var vc := MatchPlace(deg, servers, served, order, se2fsv, se2ose, codes, s, k);
      SameFirstMatch(deg, served[j], s, served, Serving(servers, order), vb, vc);
      FirstIsOwner(deg, servers, served, ranks, order, s, j, vb, k);
    }
    InRankOrder(servers, ranks, order, s, vb, vb);
  }

  /** The place of the match of an item. */
  lemma MatchPlace(deg: Degree, servers: seq<nat>, served: seq<Verts>, order: seq<nat>,
      se2fsv: seq<nat>, se2ose: seq<nat>, codes: seq<nat>, s: nat, j: nat)
    returns (vb: nat)
    requires IsService(deg, servers, served) && |served| == |order| == |se2fsv| == |se2ose| == |codes|
    requires InRow(servers, s, j) && j < |served|
    requires forall a, b :: 0 <= a < |servers| - 1 && servers[a] <= b < servers[a + 1] && b < |se2fsv| ==>
      se2fsv[b] == a
    requires forall a :: 0 <= a < |served| ==>
      IsMatched(deg, served[a], se2fsv[a], served, Serving(servers, order), true, se2ose[a], codes[a])
    ensures IsFirstMatch(deg, served[j], s, served, Serving(servers, order), vb)
    ensures vb < |order| && order[vb] == se2ose[j] < |served| && served[se2ose[j]] == served[j]
  {
    var v2b := Serving(servers, order);
    assert se2fsv[j] == s;
    vb :| IsOneMatch(deg, served[j], s, served, v2b, true, vb) && vb < |v2b.ab2b| && v2b.ab2b[vb] == se2ose[j];
    CanonicalMatch(deg, served[j], served, v2b, vb);
  }

  // ----- all ranks -----

  /** What every rank serves: the lists that were sent to it, and where they come from. */
  datatype Served = Served(w: World, lists: seq<seq<Verts>>, ranks: seq<seq<nat>>, idxs: seq<seq<nat>>)

  /** The distributed map from entities to the vertices that serve them. */
  ghost predicate IsServing(deg: Degree, mesh: Mesh, globals: seq<seq<Verts>>, total: nat, servers: seq<seq<nat>>,
      idxs: seq<seq<nat>>, sizes: seq<nat>, sv: Served)
  {
    && |globals| == |mesh| == |servers| == |idxs| && |mesh| > 0
    && (forall p :: 0 <= p < |mesh| ==> AreServers(deg, globals[p], total, |mesh|, servers[p], idxs[p]))
    && AreIdxs(servers, idxs, sizes) && IsDistFor(sv.w, servers, idxs, sizes)
    && AreBrought(sv.w, globals, sv.lists) && AreDests(Invert(sv.w), sv.ranks, sv.idxs)
  }

  ghost predicate IsServedFrom(globals: seq<seq<Verts>>, sv: Served, q: nat, j: nat, p: nat, i: nat) {
    && IsCarried(sv.w, p, i, q, j) && p < |globals| && i < |globals[p]|
    && q < |sv.lists| && j < |sv.lists[q]| && sv.lists[q][j] == globals[p][i]
    && q < |sv.ranks| && j < |sv.ranks[q]| && sv.ranks[q][j] == p
    && q < |sv.idxs| && j < |sv.idxs[q]| && sv.idxs[q][j] == i
  }

  /** What is served is what was sent, and its origin is known. */
  lemma ServedIsSent(deg: Degree, mesh: Mesh, globals: seq<seq<Verts>>, total: nat,
      servers: seq<seq<nat>>, idxs: seq<seq<nat>>, sizes: seq<nat>, sv: Served, p: nat, i: nat, q: nat, j: nat)
    requires IsServing(deg, mesh, globals, total, servers, idxs, sizes, sv) && IsCarried(sv.w, p, i, q, j)
    ensures IsServedFrom(globals, sv, q, j, p, i)
    ensures i < |servers[p]| && servers[p][i] == q && sv.w[q].r.InRoot(j, idxs[p][i])
  {
    CarriedToRank(sv.w, servers, p, i, q, j);
    SortedSideIs(sv.w[p].f, servers[p], |sv.w|);
    assert sv.w[p].f.InRoot(i, i);
    assert Brings(sv.w, globals, sv.lists, p, i, i, q, j);
    CarriedInverts(sv.w, p, i, q, j);
    assert IsCarried(Invert(sv.w), q, j, p, i) && Invert(sv.w)[p].r.InRoot(i, i);
  }

  /** Two lists in one row begin with the same vertex, since no other has the same server. */
  lemma RowBeginsAlike(deg: Degree, mesh: Mesh, globals: seq<seq<Verts>>, total: nat,
      servers: seq<seq<nat>>, idxs: seq<seq<nat>>, sizes: seq<nat>, sv: Served, q: nat, s: nat, j: nat, k: nat)
    requires IsServing(deg, mesh, globals, total, servers, idxs, sizes, sv)
    requires q < |mesh| && j < |sv.lists[q]| && k < |sv.lists[q]|
    requires sv.w[q].r.InRoot(j, s) && sv.w[q].r.InRoot(k, s)
    ensures |sv.lists[q][j]| == deg == |sv.lists[q][k]| && sv.lists[q][j][0] == sv.lists[q][k][0]
  {
    var p1, i1 := BucketIsExact(sv.w, servers, idxs, sizes, q, s, j);
    var p2, i2 := BucketIsExact(sv.w, servers, idxs, sizes, q, s, k);
    ServedIsSent(deg, mesh, globals, total, servers, idxs, sizes, sv, p1, i1, q, j);
    ServedIsSent(deg, mesh, globals, total, servers, idxs, sizes, sv, p2, i2, q, k);
    SameServer(globals[p1][i1][0], globals[p2][i2][0], total, |mesh|, q, s);
  }

  lemma SameServer(g1: int, g2: int, total: nat, size: nat, rank: nat, idx: nat)
    requires IsServerOf(g1, total, size, rank, idx) && IsServerOf(g2, total, size, rank, idx)
    ensures g1 == g2
  {
    OwnerDetermines(g1, total, size);
    OwnerDetermines(g2, total, size);
  }

  lemma ServesRows(
      deg: Degree, mesh: Mesh, verts: seq<seq<Verts>>, globals: seq<seq<Verts>>, total: nat,
      servers: seq<seq<nat>>, idxs: seq<seq<nat>>, sizes: seq<nat>, sv: Served, q: nat)
    requires IsServing(deg, mesh, globals, total, servers, idxs, sizes, sv)
    requires IsCanonicalMesh(deg, mesh, verts, globals)
    requires q < |mesh|
    ensures sv.w[q].r.roots2items.Some? && IsService(deg, sv.w[q].r.roots2items.value, sv.lists[q])
    ensures |sv.ranks[q]| == |sv.lists[q]| && forall j :: 0 <= j < |sv.ranks[q]| ==> sv.ranks[q][j] < |mesh|
  {
    var rows, lists := sv.w[q].r.roots2items.value, sv.lists[q];
    forall j: nat | j < |lists|
      ensures IsCanonical(deg, lists[j]) && AreDistinct(lists[j]) && sv.ranks[q][j] < |mesh|
    {
      var p, i := ItemIsBrought(sv.w, q, j);
      ServedIsSent(deg, mesh, globals, total, servers, idxs, sizes, sv, p, i, q, j);
      assert IsCanonicalEnt(deg, mesh[p], mesh[p].ents[i], verts[p][i], globals[p][i]);
    }
    forall s: nat, j: nat, k: nat
      ensures HaveSameFirst(rows, lists, s, j, k)
    {
      if InRow(rows, s, j) && InRow(rows, s, k) && j < |lists| && k < |lists| {
        RowBeginsAlike(deg, mesh, globals, total, servers, idxs, sizes, sv, q, s, j, k);
      }
    }
  }

  /** The temporary owners, on every rank. */
  ghost predicate AreMatched(sv: Served, se2ose: seq<seq<nat>>) {
    && |se2ose| == |sv.w| == |sv.lists| == |sv.ranks|
    && forall q :: 0 <= q < |sv.w| ==> IsMatchedRank(sv.w[q].r, sv.lists[q], sv.ranks[q], se2ose[q])
  }

  ghost predicate IsMatchedRank(side: Side, lists: seq<Verts>, ranks: seq<nat>, se2ose: seq<nat>) {
    && side.roots2items.Some? && |se2ose| == |lists| == |ranks|
    && forall s: nat, j: nat :: IsServedOwner(side.roots2items.value, lists, ranks, se2ose, s, j)
  }

  /** The owner that is sent back for each entity. */
  ghost predicate IsOwnedBy(deg: Degree, mesh: Mesh, sv: Served, se2ose: seq<seq<nat>>, ownRanks: seq<seq<nat>>,
      ownIdxs: seq<seq<nat>>, p: nat, i: nat, q: nat, j: nat)
  {
    IsCarried(sv.w, p, i, q, j) ==>
      && p < |ownRanks| && i < |ownRanks[p]| && p < |ownIdxs| && i < |ownIdxs[p]|
      && q < |se2ose| && j < |se2ose[q]| && q < |sv.ranks| && q < |sv.idxs|
      && se2ose[q][j] < |sv.ranks[q]| && se2ose[q][j] < |sv.idxs[q]|
      && ownRanks[p][i] == sv.ranks[q][se2ose[q][j]] && ownIdxs[p][i] == sv.idxs[q][se2ose[q][j]]
  }

  /** Every entity gets an owner: a copy of it, on the lowest rank that has one, and the same for all copies. */
  ghost predicate IsOwner(
      deg: Degree, mesh: Mesh, ownRanks: seq<seq<nat>>, ownIdxs: seq<seq<nat>>, p: nat, i: nat)
  {
    IsEntity(deg, mesh, p, i) ==>
      && p < |ownRanks| && i < |ownRanks[p]| && p < |ownIdxs| && i < |ownIdxs[p]|
      && AreCopies(deg, mesh, ownRanks[p][i], ownIdxs[p][i], p, i)
      && forall p2: nat, i2: nat :: AreCopies(deg, mesh, p, i, p2, i2) ==>
        && p2 < |ownRanks| && i2 < |ownRanks[p2]| && p2 < |ownIdxs| && i2 < |ownIdxs[p2]|
        && ownRanks[p][i] <= p2 && ownRanks[p2][i2] == ownRanks[p][i] && ownIdxs[p2][i2] == ownIdxs[p][i]
  }

  ghost predicate AreOwners(deg: Degree, mesh: Mesh, ownRanks: seq<seq<nat>>, ownIdxs: seq<seq<nat>>) {
    forall p: nat, i: nat {:trigger IsOwner(deg, mesh, ownRanks, ownIdxs, p, i)} ::
      IsOwner(deg, mesh, ownRanks, ownIdxs, p, i)
  }

  /** A copy is served in the same row, with an equal list. */
  lemma CopyIsServed(
      deg: Degree, mesh: Mesh, verts: seq<seq<Verts>>, globals: seq<seq<Verts>>, total: nat,
      servers: seq<seq<nat>>, idxs: seq<seq<nat>>, sizes: seq<nat>, sv: Served, p: nat, i: nat, q: nat, j: nat,
      p2: nat, i2: nat)
    returns (k: nat)
    requires IsServing(deg, mesh, globals, total, servers, idxs, sizes, sv)
    requires IsCanonicalMesh(deg, mesh, verts, globals)
    requires IsCarried(sv.w, p, i, q, j) && IsEntity(deg, mesh, p, i) && AreCopies(deg, mesh, p, i, p2, i2)
    ensures IsServedFrom(globals, sv, q, k, p2, i2) && i < |idxs[p]|
    ensures sv.w[q].r.InRoot(j, idxs[p][i]) && sv.w[q].r.InRoot(k, idxs[p][i]) && sv.lists[q][k] == sv.lists[q][j]
  {
    ServedIsSent(deg, mesh, globals, total, servers, idxs, sizes, sv, p, i, q, j);
    CopiesAreEqual(deg, mesh, verts, globals, p, i, p2, i2);
    SortedSideIs(sv.w[p2].f, servers[p2], |sv.w|);
    var q2;
    q2, k := ItemIsCarried(sv.w, p2, i2);
    ServedIsSent(deg, mesh, globals, total, servers, idxs, sizes, sv, p2, i2, q2, k);
    assert IsServerOf(globals[p][i][0], total, |mesh|, servers[p][i], idxs[p][i]);
    assert IsServerOf(globals[p2][i2][0], total, |mesh|, servers[p2][i2], idxs[p2][i2]);
  }

  /** The origin of what is served. */
  lemma OriginIs(deg: Degree, mesh: Mesh, globals: seq<seq<Verts>>, total: nat,
      servers: seq<seq<nat>>, idxs: seq<seq<nat>>, sizes: seq<nat>, sv: Served, q: nat, b: nat)
    returns (p: nat, i: nat)
    requires IsServing(deg, mesh, globals, total, servers, idxs, sizes, sv) && q < |mesh| && b < |sv.lists[q]|
    ensures IsServedFrom(globals, sv, q, b, p, i)
  {
    p, i := ItemIsBrought(sv.w, q, b);
    ServedIsSent(deg, mesh, globals, total, servers, idxs, sizes, sv, p, i, q, b);
  }

  lemma OwnerIsRight(
      deg: Degree, mesh: Mesh, verts: seq<seq<Verts>>, globals: seq<seq<Verts>>, total: nat,
      servers: seq<seq<nat>>, idxs: seq<seq<nat>>, sizes: seq<nat>, sv: Served, se2ose: seq<seq<nat>>,
      ownRanks: seq<seq<nat>>, ownIdxs: seq<seq<nat>>, p: nat, i: nat)
    requires IsServing(deg, mesh, globals, total, servers, idxs, sizes, sv)
    requires IsCanonicalMesh(deg, mesh, verts, globals)
    requires AreMatched(sv, se2ose) && IsEntity(deg, mesh, p, i)
    requires forall p: nat, i: nat, q: nat, j: nat
      {:trigger IsOwnedBy(deg, mesh, sv, se2ose, ownRanks, ownIdxs, p, i, q, j)} ::
      IsOwnedBy(deg, mesh, sv, se2ose, ownRanks, ownIdxs, p, i, q, j)
    ensures IsOwner(deg, mesh, ownRanks, ownIdxs, p, i)
  {
    hide GlobalsAt, AreCopies;
    SortedSideIs(sv.w[p].f, servers[p], |sv.w|);
    var q, j := ItemIsCarried(sv.w, p, i);
    ServedIsSent(deg, mesh, globals, total, servers, idxs, sizes, sv, p, i, q, j);
    var s := idxs[p][i];
    assert IsOwnedBy(deg, mesh, sv, se2ose, ownRanks, ownIdxs, p, i, q, j);
    assert IsServedOwner(sv.w[q].r.roots2items.value, sv.lists[q], sv.ranks[q], se2ose[q], s, j);
    var b := se2ose[q][j];
    var p1, i1 := OriginIs(deg, mesh, globals, total, servers, idxs, sizes, sv, q, b);
    CopiesAreEqual(deg, mesh, verts, globals, p1, i1, p, i);
    forall p2: nat, i2: nat | AreCopies(deg, mesh, p, i, p2, i2)
      ensures p2 < |ownRanks| && i2 < |ownRanks[p2]| && p2 < |ownIdxs| && i2 < |ownIdxs[p2]|
      ensures ownRanks[p][i] <= p2 && ownRanks[p2][i2] == ownRanks[p][i] && ownIdxs[p2][i2] == ownIdxs[p][i]
    {
      var k := CopyIsServed(deg, mesh, verts, globals, total, servers, idxs, sizes, sv, p, i, q, j, p2, i2);
      assert IsOwnedBy(deg, mesh, sv, se2ose, ownRanks, ownIdxs, p2, i2, q, k);
    }
  }

  // ----- sending the owners back -----

  /** The inverted map, from items to items. */
  function ItemsBack(w: World): (v: World)
    ensures |v| == |w| && forall q :: 0 <= q < |w| ==> v[q] == Dist(w[q].r.(roots2items := None), w[q].f)
  {
    seq(|w|, q requires 0 <= q < |w| => Dist(w[q].r.(roots2items := None), w[q].f))
  }

  lemma ItemsBackIsWorld(w: World)
    requires IsWorld(w)
    ensures IsWorld(ItemsBack(w))
  {
    var v := seq(|w|, q requires 0 <= q < |w| => w[q].(r := w[q].r.(roots2items := None)));
    SameMessagesMakeWorld(w, v);
    InverseIsWorld(v);
    assert ItemsBack(w) == Invert(v);
  }

  lemma CarriedBack(w: World, p: nat, i: nat, q: nat, j: nat)
    requires IsCarried(w, p, i, q, j)
    ensures IsCarried(ItemsBack(w), q, j, p, i)
  {
    var m: nat, k: nat :| IsSentAs(w, p, w[p].f.ContentAt(i), q, w[q].r.ContentAt(j), m, k);
    assert IsSentAs(ItemsBack(w), q, w[q].r.ContentAt(j), p, w[p].f.ContentAt(i), k, m);
  }

  method SendBack(w: World, data: seq<seq<nat>>) returns (out: seq<seq<nat>>)
    requires IsWorld(w) && |data| == |w| && forall q :: 0 <= q < |w| ==> |data[q]| == w[q].r.NItems()
    ensures |out| == |w| && forall p :: 0 <= p < |w| ==> |out[p]| == w[p].f.NItems()
    ensures forall p: nat, i: nat, q: nat, j: nat {:trigger IsCarried(w, p, i, q, j)} ::
      IsCarried(w, p, i, q, j) ==> out[p][i] == data[q][j]
  {
    ItemsBackIsWorld(w);
    out := Exch(ItemsBack(w), data);
    forall p: nat, i: nat, q: nat, j: nat | IsCarried(w, p, i, q, j)
      ensures out[p][i] == data[q][j]
    {
      CarriedBack(w, p, i, q, j);
      assert Brings(ItemsBack(w), data, out, q, j, j, p, i);
    }
  }

  // ----- the whole resolution -----

  method CanonicalMesh(deg: Degree, mesh: Mesh) returns (verts: seq<seq<Verts>>, globals: seq<seq<Verts>>)
    requires IsMesh(deg, mesh)
    ensures IsCanonicalMesh(deg, mesh, verts, globals)
  {
    verts, globals := [], [];
    for p := 0 to |mesh|
      invariant |verts| == p == |globals|
      invariant forall q :: 0 <= q < p ==> AreCanonical(deg, mesh[q], |mesh[q].ents|, verts[q], globals[q])
    {
      var v, g := CanonicalEnts(deg, mesh[p]);
      verts, globals := verts + [v], globals + [g];
    }
  }

  method FindAllServers(deg: Degree, mesh: Mesh, verts: seq<seq<Verts>>, ghost globals: seq<seq<Verts>>, total: nat)
    returns (servers: seq<seq<nat>>, idxs: seq<seq<nat>>)
    requires IsCanonicalMesh(deg, mesh, verts, globals) && |mesh| > 0
    requires forall p, v :: 0 <= p < |mesh| && 0 <= v < |mesh[p].verts2globs| ==> mesh[p].verts2globs[v] < total
    ensures |servers| == |mesh| == |idxs|
    ensures forall p :: 0 <= p < |mesh| ==> AreServers(deg, globals[p], total, |mesh|, servers[p], idxs[p])
  {
    servers, idxs := [], [];
    for p := 0 to |mesh|
      invariant |servers| == p == |idxs|
      invariant forall q :: 0 <= q < p ==> AreServers(deg, globals[q], total, |mesh|, servers[q], idxs[q])
    {
      var s, d := FindServers(deg, mesh[p], verts[p], globals[p], total, |mesh|);
      servers, idxs := servers + [s], idxs + [d];
    }
  }

  lemma ServersExist(deg: Degree, mesh: Mesh, globals: seq<seq<Verts>>, total: nat,
      servers: seq<seq<nat>>, idxs: seq<seq<nat>>, sizes: seq<nat>)
    requires |globals| == |mesh| == |servers| == |idxs| == |sizes| && |mesh| > 0
    requires forall p :: 0 <= p < |mesh| ==> AreServers(deg, globals[p], total, |mesh|, servers[p], idxs[p])
    requires forall p :: 0 <= p < |mesh| ==> sizes[p] == LinearPartitionSize(total, |mesh|, p)
    ensures AreIdxs(servers, idxs, sizes)
  {
    forall p, i | 0 <= p < |servers| && 0 <= i < |servers[p]|
      ensures servers[p][i] < |servers| && idxs[p][i] < sizes[servers[p][i]]
    {
      assert IsServerOf(globals[p][i][0], total, |mesh|, servers[p][i], idxs[p][i]);
      OwnerIsInRange(globals[p][i][0], total, |mesh|);
    }
  }

  method Serve(deg: Degree, mesh: Mesh, ghost verts: seq<seq<Verts>>, globals: seq<seq<Verts>>, ghost total: nat,
      servers: seq<seq<nat>>, idxs: seq<seq<nat>>, sizes: seq<nat>)
    returns (sv: Served)
    requires IsCanonicalMesh(deg, mesh, verts, globals) && |mesh| > 0 && |servers| == |mesh| == |idxs| == |sizes|
    requires forall p :: 0 <= p < |mesh| ==> AreServers(deg, globals[p], total, |mesh|, servers[p], idxs[p])
    requires forall p :: 0 <= p < |mesh| ==> sizes[p] == LinearPartitionSize(total, |mesh|, p)
    ensures IsServing(deg, mesh, globals, total, servers, idxs, sizes, sv)
  {
    ServersExist(deg, mesh, globals, total, servers, idxs, sizes);
    var w := MakeDist(servers, idxs, sizes);
    forall p | 0 <= p < |w|
      ensures |globals[p]| == w[p].f.NRoots()
    {
      SortedSideIs(w[p].f, servers[p], |w|);
    }
    var lists := Exch(w, globals);
    InverseIsWorld(w);
    var ranks, origins := Items2Dests(Invert(w));
    sv := Served(w, lists, ranks, origins);
  }

  method MatchAll(
      deg: Degree, ghost mesh: Mesh, ghost verts: seq<seq<Verts>>, ghost globals: seq<seq<Verts>>, ghost total: nat,
      ghost servers: seq<seq<nat>>, ghost idxs: seq<seq<nat>>, ghost sizes: seq<nat>, sv: Served)
    returns (se2ose: seq<seq<nat>>)
    requires IsServing(deg, mesh, globals, total, servers, idxs, sizes, sv)
    requires IsCanonicalMesh(deg, mesh, verts, globals)
    requires |mesh| <= MAX_RANK
    ensures AreMatched(sv, se2ose)
  {
    se2ose := [];
    for q := 0 to |sv.w|
      invariant |se2ose| == q
      invariant forall r :: 0 <= r < q ==> IsMatchedRank(sv.w[r].r, sv.lists[r], sv.ranks[r], se2ose[r])
    {
      ServesRows(deg, mesh, verts, globals, total, servers, idxs, sizes, sv, q);
      var matched := MatchServed(deg, sv.w[q].r.roots2items.value, sv.lists[q], sv.ranks[q]);
      se2ose := se2ose + [matched];
    }
  }

  /** The temporary owner's origin, on every rank. */
  method OwnersOf(se2ose: seq<seq<nat>>, origins: seq<seq<nat>>) returns (owners: seq<seq<nat>>)
    requires |se2ose| == |origins|
    requires forall q :: 0 <= q < |origins| ==> |se2ose[q]| == |origins[q]|
    requires forall q, j :: 0 <= q < |origins| && 0 <= j < |se2ose[q]| ==> se2ose[q][j] < |origins[q]|
    ensures |owners| == |origins|
    ensures forall q :: 0 <= q < |origins| ==> |owners[q]| == |origins[q]|
    ensures forall q, j :: 0 <= q < |origins| && 0 <= j < |se2ose[q]| ==> owners[q][j] == origins[q][se2ose[q][j]]
  {
    owners := [];
    for q := 0 to |origins|
      invariant |owners| == q
      invariant forall r :: 0 <= r < q ==> |owners[r]| == |origins[r]|
      invariant forall r, j :: 0 <= r < q && 0 <= j < |se2ose[r]| ==> owners[r][j] == origins[r][se2ose[r][j]]
    {
      var own := Unmap(se2ose[q], origins[q]);
      owners := owners + [own];
    }
  }

  lemma MatchesAreServed(sv: Served, se2ose: seq<seq<nat>>, nranks: nat, q: nat, j: nat)
    requires IsWorld(sv.w) && AreMatched(sv, se2ose) && q < |sv.w| && j < |se2ose[q]|
    requires |sv.lists[q]| == sv.w[q].r.NItems()
    ensures se2ose[q][j] < |sv.lists[q]|
  {
    var rows := sv.w[q].r.roots2items.value;
    var s := BucketOf(rows, |rows| - 1, |sv.lists[q]|, j, |rows| - 1);
    assert IsServedOwner(rows, sv.lists[q], sv.ranks[q], se2ose[q], s, j);
  }

  method ResolveDerivedCopies(deg: Degree, mesh: Mesh)
    returns (verts: seq<seq<Verts>>, ownRanks: seq<seq<nat>>, ownIdxs: seq<seq<nat>>, ghost globals: seq<seq<Verts>>)
    requires IsMesh(deg, mesh) && 0 < |mesh| <= MAX_RANK
    ensures IsCanonicalMesh(deg, mesh, verts, globals)
    ensures AreOwners(deg, mesh, ownRanks, ownIdxs)
    ensures |ownRanks| == |mesh| == |ownIdxs|
    ensures forall p :: 0 <= p < |mesh| ==> |ownRanks[p]| == |mesh[p].ents| == |ownIdxs[p]|
  {
    var lists;
    verts, lists := CanonicalMesh(deg, mesh);
    globals := lists;
    var total := FindTotalGlobals(mesh);
    var servers, idxs := FindAllServers(deg, mesh, verts, lists, total);
    var sizes := PartitionSizes(total, |mesh|);
    var sv := Serve(deg, mesh, verts, lists, total, servers, idxs, sizes);
    var se2ose := MatchAll(deg, mesh, verts, lists, total, servers, idxs, sizes, sv);
    forall q, j | 0 <= q < |sv.w| && 0 <= j < |se2ose[q]|
      ensures se2ose[q][j] < |sv.lists[q]|
    {
      MatchesAreServed(sv, se2ose, |mesh|, q, j);
    }
    var ranksBack := OwnersOf(se2ose, sv.ranks);
    var idxsBack := OwnersOf(se2ose, sv.idxs);
    ownRanks := SendBack(sv.w, ranksBack);
    ownIdxs := SendBack(sv.w, idxsBack);
    OwnersAreRight(deg, mesh, verts, lists, total, servers, idxs, sizes, sv, se2ose, ranksBack, idxsBack,
      ownRanks, ownIdxs);
  }

  lemma OwnersAreRight(
      deg: Degree, mesh: Mesh, verts: seq<seq<Verts>>, globals: seq<seq<Verts>>, total: nat,
      servers: seq<seq<nat>>, idxs: seq<seq<nat>>, sizes: seq<nat>, sv: Served, se2ose: seq<seq<nat>>,
      ranksBack: seq<seq<nat>>, idxsBack: seq<seq<nat>>, ownRanks: seq<seq<nat>>, ownIdxs: seq<seq<nat>>)
    requires IsServing(deg, mesh, globals, total, servers, idxs, sizes, sv)
    requires IsCanonicalMesh(deg, mesh, verts, globals)
    requires AreMatched(sv, se2ose) && |ranksBack| == |sv.w| == |idxsBack|
    requires forall q :: 0 <= q < |sv.w| ==> |ranksBack[q]| == |se2ose[q]| == |idxsBack[q]| == sv.w[q].r.NItems()
    requires forall q, j :: 0 <= q < |sv.w| && 0 <= j < |se2ose[q]| ==>
      && se2ose[q][j] < |sv.ranks[q]| && ranksBack[q][j] == sv.ranks[q][se2ose[q][j]]
      && se2ose[q][j] < |sv.idxs[q]| && idxsBack[q][j] == sv.idxs[q][se2ose[q][j]]
    requires |ownRanks| == |sv.w| == |ownIdxs|
    requires forall p :: 0 <= p < |sv.w| ==> |ownRanks[p]| == sv.w[p].f.NItems() == |ownIdxs[p]|
    requires forall p: nat, i: nat, q: nat, j: nat {:trigger IsCarried(sv.w, p, i, q, j)} ::
      IsCarried(sv.w, p, i, q, j) ==> ownRanks[p][i] == ranksBack[q][j] && ownIdxs[p][i] == idxsBack[q][j]
    ensures AreOwners(deg, mesh, ownRanks, ownIdxs)
    ensures forall p :: 0 <= p < |mesh| ==> |ownRanks[p]| == |mesh[p].ents| == |ownIdxs[p]|
  {
    forall p | 0 <= p < |mesh|
      ensures |ownRanks[p]| == |mesh[p].ents| == |ownIdxs[p]|
    {
      SortedSideIs(sv.w[p].f, servers[p], |sv.w|);
    }
    forall p: nat, i: nat, q: nat, j: nat
      ensures IsOwnedBy(deg, mesh, sv, se2ose, ownRanks, ownIdxs, p, i, q, j)
    {
      assert IsCarried(sv.w, p, i, q, j) ==> ownRanks[p][i] == ranksBack[q][j];
    }
    forall p: nat, i: nat
      ensures IsOwner(deg, mesh, ownRanks, ownIdxs, p, i)
    {
      if IsEntity(deg, mesh, p, i) {
        OwnerIsRight(deg, mesh, verts, globals, total, servers, idxs, sizes, sv, se2ose, ownRanks, ownIdxs, p, i);
      }
    }
  }

  // ----- what owners mean -----

  /** Two entities have the same owner exactly if they are copies. */
  lemma OwnersDecide(deg: Degree, mesh: Mesh, ownRanks: seq<seq<nat>>, ownIdxs: seq<seq<nat>>,
      p1: nat, i1: nat, p2: nat, i2: nat)
    requires AreOwners(deg, mesh, ownRanks, ownIdxs) && IsEntity(deg, mesh, p1, i1) && IsEntity(deg, mesh, p2, i2)
    ensures p1 < |ownRanks| && i1 < |ownRanks[p1]| && p1 < |ownIdxs| && i1 < |ownIdxs[p1]|
    ensures p2 < |ownRanks| && i2 < |ownRanks[p2]| && p2 < |ownIdxs| && i2 < |ownIdxs[p2]|
    ensures AreCopies(deg, mesh, p1, i1, p2, i2) <==>
      ownRanks[p1][i1] == ownRanks[p2][i2] && ownIdxs[p1][i1] == ownIdxs[p2][i2]
  {
    assert IsOwner(deg, mesh, ownRanks, ownIdxs, p1, i1) && IsOwner(deg, mesh, ownRanks, ownIdxs, p2, i2);
    if ownRanks[p1][i1] == ownRanks[p2][i2] && ownIdxs[p1][i1] == ownIdxs[p2][i2] {
      var owner := GlobalsAt(deg, mesh, ownRanks[p1][i1], ownIdxs[p1][i1]);
      IsSymmetric(deg, owner, GlobalsAt(deg, mesh, p1, i1));
      IsTransitive(deg, GlobalsAt(deg, mesh, p1, i1), owner, GlobalsAt(deg, mesh, p2, i2));
    }
  }

  /** No rank has two copies of an entity. */
  ghost predicate HasOneCopyPerRank(deg: Degree, mesh: Mesh) {
    forall p: nat, i1: nat, i2: nat :: AreCopies(deg, mesh, p, i1, p, i2) ==> i1 == i2
  }

  /** Then the owner does not depend on the order in which anything arrived. */
  lemma OwnersAreDetermined(deg: Degree, mesh: Mesh, ranks1: seq<seq<nat>>, idxs1: seq<seq<nat>>,
      ranks2: seq<seq<nat>>, idxs2: seq<seq<nat>>, p: nat, i: nat)
    requires AreOwners(deg, mesh, ranks1, idxs1) && AreOwners(deg, mesh, ranks2, idxs2)
    requires HasOneCopyPerRank(deg, mesh) && IsEntity(deg, mesh, p, i)
    ensures p < |ranks1| && i < |ranks1[p]| && p < |ranks2| && i < |ranks2[p]| && ranks1[p][i] == ranks2[p][i]
    ensures p < |idxs1| && i < |idxs1[p]| && p < |idxs2| && i < |idxs2[p]| && idxs1[p][i] == idxs2[p][i]
  {
    assert IsOwner(deg, mesh, ranks1, idxs1, p, i) && IsOwner(deg, mesh, ranks2, idxs2, p, i);
    var e := GlobalsAt(deg, mesh, p, i);
    var o1 := GlobalsAt(deg, mesh, ranks1[p][i], idxs1[p][i]);
    var o2 := GlobalsAt(deg, mesh, ranks2[p][i], idxs2[p][i]);
    IsSymmetric(deg, o1, e);
    IsSymmetric(deg, o2, e);
    assert AreCopies(deg, mesh, p, i, ranks1[p][i], idxs1[p][i])
      && AreCopies(deg, mesh, p, i, ranks2[p][i], idxs2[p][i]);
    assert ranks1[p][i] == ranks2[p][i];
    IsTransitive(deg, o1, e, o2);
    assert AreCopies(deg, mesh, ranks1[p][i], idxs1[p][i], ranks1[p][i], idxs2[p][i]);
  }
}
