/** Carrying data over a distributed map (`Dist::exch`): every forward item reaches exactly one reverse item,
    and the inverted map carries it back. The state of all ranks is one value. */
module Exchange {
  import opened Containers
  import opened Graphs

  ghost predicate IsPerm(perm: seq<nat>, n: nat) {
    && |perm| == n && (forall i :: 0 <= i < n ==> perm[i] < n)
    && (forall i, j :: 0 <= i < j < n ==> perm[i] != perm[j])
    && (forall c: nat :: c < n ==> c in perm)
  }

  /** One direction on one rank: roots are expanded to items, items permuted to content, and content cut
      into one message for each neighbour. */
  datatype Side = Side(
    roots2items: Option<seq<nat>>, items2content: Option<seq<nat>>, msgs2content: seq<nat>, msgs2ranks: seq<nat>)
  {
    function NItems(): nat {
      if msgs2content == [] then 0 else msgs2content[|msgs2content| - 1]
    }

    ghost predicate Valid(nranks: nat) {
      && AreOffsets(msgs2content, |msgs2ranks|, NItems())
      && (forall m :: 0 <= m < |msgs2ranks| ==> msgs2ranks[m] < nranks)
      && (forall m, l :: 0 <= m < l < |msgs2ranks| ==> msgs2ranks[m] != msgs2ranks[l])
      && (items2content.Some? ==> IsPerm(items2content.value, NItems()))
      && (roots2items.Some? ==>
        |roots2items.value| > 0 && AreOffsets(roots2items.value, |roots2items.value| - 1, NItems()))
    }

    ghost function ContentAt(i: nat): nat {
      if items2content.Some? && i < |items2content.value| then items2content.value[i] else i
    }

    /** The place `c` of the content is in message `m`. */
    ghost predicate InMessage(c: nat, m: nat) {
      m + 1 < |msgs2content| && msgs2content[m] <= c < msgs2content[m + 1]
    }

    ghost predicate InRoot(i: nat, root: nat) {
      if roots2items.Some? then
        root + 1 < |roots2items.value| && roots2items.value[root] <= i < roots2items.value[root + 1]
      else i == root
    }

    function NRoots(): nat {
      if roots2items.Some? && |roots2items.value| > 0 then |roots2items.value| - 1 else NItems()
    }
  }

  /** The two directions on one rank; the reverse one lists the ranks that send to it. */
  datatype Dist = Dist(f: Side, r: Side) {
    function Invert(): Dist {
      Dist(r, f)
    }
  }

  type World = seq<Dist>

  function Invert(w: World): (v: World)
    ensures |v| == |w| && forall p :: 0 <= p < |w| ==> v[p] == w[p].Invert()
  {
    seq(|w|, p requires 0 <= p < |w| => w[p].Invert())
  }

  /** Message `m` of rank `p` is what rank `q` receives as its message `k`. */
  ghost predicate IsLinked(w: World, p: nat, m: nat, q: nat, k: nat) {
    && p < |w| && q < |w| && m < |w[p].f.msgs2ranks| && k < |w[q].r.msgs2ranks|
    && w[p].f.msgs2ranks[m] == q && w[q].r.msgs2ranks[k] == p
  }

  ghost predicate SameLength(w: World, p: nat, m: nat, q: nat, k: nat) {
    IsLinked(w, p, m, q, k) && m + 1 < |w[p].f.msgs2content| && k + 1 < |w[q].r.msgs2content| ==>
      w[p].f.msgs2content[m + 1] + w[q].r.msgs2content[k] == w[q].r.msgs2content[k + 1] + w[p].f.msgs2content[m]
  }

  ghost predicate IsReceived(w: World, p: nat, m: nat) {
    p < |w| && m < |w[p].f.msgs2ranks| ==> exists k: nat :: IsLinked(w, p, m, w[p].f.msgs2ranks[m], k)
  }

  ghost predicate IsSentBy(w: World, q: nat, k: nat) {
    q < |w| && k < |w[q].r.msgs2ranks| ==> exists m: nat :: IsLinked(w, w[q].r.msgs2ranks[k], m, q, k)
  }

  /** Every message that is sent is received, and the other way round. */
  ghost predicate IsWorld(w: World) {
    && (forall p :: 0 <= p < |w| ==> w[p].f.Valid(|w|) && w[p].r.Valid(|w|))
    && (forall p: nat, m: nat {:trigger IsReceived(w, p, m)} :: IsReceived(w, p, m))
    && (forall q: nat, k: nat {:trigger IsSentBy(w, q, k)} :: IsSentBy(w, q, k))
    && (forall p: nat, m: nat, q: nat, k: nat {:trigger SameLength(w, p, m, q, k)} :: SameLength(w, p, m, q, k))
  }

  lemma LinksInvert(w: World, p: nat, m: nat, q: nat, k: nat)
    ensures IsLinked(w, p, m, q, k) <==> IsLinked(Invert(w), q, k, p, m)
  {
  }

  lemma InverseIsWorld(w: World)
    requires IsWorld(w)
    ensures IsWorld(Invert(w)) && Invert(Invert(w)) == w
  {
    var v := Invert(w);
    forall q: nat, k: nat
      ensures IsReceived(v, q, k)
    {
      assert IsSentBy(w, q, k);
      if q < |w| && k < |w[q].r.msgs2ranks| {
        var m: nat :| IsLinked(w, w[q].r.msgs2ranks[k], m, q, k);
        LinksInvert(w, w[q].r.msgs2ranks[k], m, q, k);
      }
    }
    forall p: nat, m: nat
      ensures IsSentBy(v, p, m)
    {
      assert IsReceived(w, p, m);
      if p < |w| && m < |w[p].f.msgs2ranks| {
        var k: nat :| IsLinked(w, p, m, w[p].f.msgs2ranks[m], k);
        LinksInvert(w, p, m, w[p].f.msgs2ranks[m], k);
      }
    }
    forall q: nat, k: nat, p: nat, m: nat
      ensures SameLength(v, q, k, p, m)
    {
      assert SameLength(w, p, m, q, k);
      LinksInvert(w, p, m, q, k);
    }
  }

  /** The place `c` of the content of `p` is what `q` receives at `c2`. */
  ghost predicate IsSentAs(w: World, p: nat, c: nat, q: nat, c2: nat, m: nat, k: nat) {
    && IsLinked(w, p, m, q, k) && w[p].f.InMessage(c, m) && w[q].r.InMessage(c2, k)
    && c - w[p].f.msgs2content[m] == c2 - w[q].r.msgs2content[k]
  }

  ghost predicate IsSent(w: World, p: nat, c: nat, q: nat, c2: nat) {
    exists m: nat, k: nat :: IsSentAs(w, p, c, q, c2, m, k)
  }

  lemma SentInverts(w: World, p: nat, c: nat, q: nat, c2: nat)
    requires IsSent(w, p, c, q, c2)
    ensures IsSent(Invert(w), q, c2, p, c)
  {
    var m: nat, k: nat :| IsSentAs(w, p, c, q, c2, m, k);
    LinksInvert(w, p, m, q, k);
    assert IsSentAs(Invert(w), q, c2, p, c, k, m);
  }

  lemma MessageOf(side: Side, nranks: nat, c: nat, n: nat) returns (m: nat)
    requires side.Valid(nranks) && n <= |side.msgs2ranks| && c < side.msgs2content[n]
    ensures m < n && side.InMessage(c, m)
  {
    if side.msgs2content[n - 1] <= c {
      m := n - 1;
    } else {
      m := MessageOf(side, nranks, c, n - 1);
    }
  }

  lemma OneMessage(side: Side, nranks: nat, c: nat, m: nat, l: nat)
    requires side.Valid(nranks) && side.InMessage(c, m) && side.InMessage(c, l)
    ensures m == l
  {
    if m < l {
      OffsetsAscend(side.msgs2content, |side.msgs2ranks|, side.NItems(), m + 1, l);
    } else if l < m {
      OffsetsAscend(side.msgs2content, |side.msgs2ranks|, side.NItems(), l + 1, m);
    }
  }

  /** All content is sent somewhere. */
  lemma ContentIsSent(w: World, p: nat, c: nat) returns (q: nat, c2: nat)
    requires IsWorld(w) && p < |w| && c < w[p].f.NItems()
    ensures q < |w| && IsSent(w, p, c, q, c2) && c2 < w[q].r.NItems()
  {
    var m := MessageOf(w[p].f, |w|, c, |w[p].f.msgs2ranks|);
    assert IsReceived(w, p, m);
    q := w[p].f.msgs2ranks[m];
    var k: nat :| IsLinked(w, p, m, q, k);
    assert SameLength(w, p, m, q, k);
    c2 := w[q].r.msgs2content[k] + (c - w[p].f.msgs2content[m]);
    assert IsSentAs(w, p, c, q, c2, m, k);
    OffsetsAscend(w[q].r.msgs2content, |w[q].r.msgs2ranks|, w[q].r.NItems(), k + 1, k + 1);
  }

  /** And only to one place. */
  lemma SentOnce(w: World, p: nat, c: nat, q1: nat, c1: nat, q2: nat, c2: nat)
    requires IsWorld(w) && IsSent(w, p, c, q1, c1) && IsSent(w, p, c, q2, c2)
    ensures q1 == q2 && c1 == c2
  {
    var m1: nat, k1: nat :| IsSentAs(w, p, c, q1, c1, m1, k1);
    var m2: nat, k2: nat :| IsSentAs(w, p, c, q2, c2, m2, k2);
    OneMessage(w[p].f, |w|, c, m1, m2);
  }

  // ----- the exchange -----

  ghost predicate HasContent<T>(w: World, data: seq<seq<T>>) {
    |data| == |w| && forall p :: 0 <= p < |w| ==> |data[p]| == w[p].f.NItems()
  }

  ghost predicate IsMessageTo<T>(w: World, data: seq<seq<T>>, q: nat, out: seq<T>, p: nat, c: nat, c2: nat) {
    IsSent(w, p, c, q, c2) && p < |data| && c < |data[p]| && c2 < |out| ==> out[c2] == data[p][c]
  }

  /** Messages from rank to rank: `out` is what each receives, in the order of its senders. */
  ghost predicate AreReceived<T>(w: World, data: seq<seq<T>>, q: nat, out: seq<T>) {
    forall p: nat, c: nat, c2: nat {:trigger IsMessageTo(w, data, q, out, p, c, c2)} ::
      IsMessageTo(w, data, q, out, p, c, c2)
  }

  method FindMessage(side: Side, q: nat) returns (m: nat)
    requires q in side.msgs2ranks
    ensures m < |side.msgs2ranks| && side.msgs2ranks[m] == q
  {
    m := 0;
    while side.msgs2ranks[m] != q
      invariant m < |side.msgs2ranks| && q in side.msgs2ranks[m..]
      decreases |side.msgs2ranks| - m
    {
      m := m + 1;
    }
  }

  ghost predicate IsFilledBy<T>(
      w: World, data: seq<seq<T>>, q: nat, out: seq<T>, n: nat, p: nat, c: nat, c2: nat, m: nat, k: nat)
  {
    IsSentAs(w, p, c, q, c2, m, k) && k < n && p < |data| && c < |data[p]| && c2 < |out| ==> out[c2] == data[p][c]
  }

  method Receive<T>(w: World, data: seq<seq<T>>, q: nat) returns (out: seq<T>)
    requires IsWorld(w) && HasContent(w, data) && q < |w|
    ensures |out| == w[q].r.NItems() && AreReceived(w, data, q, out)
  {
    out := [];
    var side := w[q].r;
    for k := 0 to |side.msgs2ranks|
      invariant |out| == side.msgs2content[k]
      invariant forall p: nat, c: nat, c2: nat, m: nat, l: nat
        {:trigger IsFilledBy(w, data, q, out, k, p, c, c2, m, l)} ::
        IsFilledBy(w, data, q, out, k, p, c, c2, m, l)
    {
      var sender := side.msgs2ranks[k];
      assert IsSentBy(w, q, k);
      ghost var link: nat :| IsLinked(w, sender, link, q, k);
      var msg := FindMessage(w[sender].f, q);
      var from, to := w[sender].f.msgs2content[msg], w[sender].f.msgs2content[msg + 1];
      OffsetsAscend(w[sender].f.msgs2content, |w[sender].f.msgs2ranks|, w[sender].f.NItems(), msg, msg + 1);
      assert SameLength(w, sender, msg, q, k);
      ghost var was := out;
      out := out + data[sender][from..to];
      MessageIsFilled(w, data, q, was, out, k, k + 1, sender, msg);
    }
    forall p: nat, c: nat, c2: nat
      ensures IsMessageTo(w, data, q, out, p, c, c2)
    {
      if IsSent(w, p, c, q, c2) {
        var m: nat, k: nat :| IsSentAs(w, p, c, q, c2, m, k);
        assert IsFilledBy(w, data, q, out, |side.msgs2ranks|, p, c, c2, m, k);
      }
    }
  }

  lemma MessageIsFilled<T>(
      w: World, data: seq<seq<T>>, q: nat, was: seq<T>, out: seq<T>, k: nat, next: nat, sender: nat, msg: nat)
    requires IsWorld(w) && next == k + 1 && HasContent(w, data) && IsLinked(w, sender, msg, q, k)
    requires |was| == w[q].r.msgs2content[k]
    requires w[sender].f.msgs2content[msg] <= w[sender].f.msgs2content[msg + 1] <= |data[sender]|
    requires out == was + data[sender][w[sender].f.msgs2content[msg]..w[sender].f.msgs2content[msg + 1]]
    requires forall p: nat, c: nat, c2: nat, m: nat, l: nat {:trigger IsFilledBy(w, data, q, was, k, p, c, c2, m, l)} ::
      IsFilledBy(w, data, q, was, k, p, c, c2, m, l)
    ensures forall p: nat, c: nat, c2: nat, m: nat, l: nat
      {:trigger IsFilledBy(w, data, q, out, next, p, c, c2, m, l)} ::
      IsFilledBy(w, data, q, out, next, p, c, c2, m, l)
  {
    forall p: nat, c: nat, c2: nat, m: nat, l: nat
      ensures IsFilledBy(w, data, q, out, next, p, c, c2, m, l)
    {
      assert IsFilledBy(w, data, q, was, k, p, c, c2, m, l);
      if IsSentAs(w, p, c, q, c2, m, l) && l < k {
        OffsetsAscend(w[q].r.msgs2content, |w[q].r.msgs2ranks|, w[q].r.NItems(), l + 1, k);
      }
      if IsSentAs(w, p, c, q, c2, m, l) && l == k {
        assert p == sender && m == msg;
      }
    }
  }

  method Alltoallv<T>(w: World, data: seq<seq<T>>) returns (out: seq<seq<T>>)
    requires IsWorld(w) && HasContent(w, data)
    ensures |out| == |w|
    ensures forall q :: 0 <= q < |w| ==> |out[q]| == w[q].r.NItems() && AreReceived(w, data, q, out[q])
  {
    out := [];
    for q := 0 to |w|
      invariant |out| == q
      invariant forall p :: 0 <= p < q ==> |out[p]| == w[p].r.NItems() && AreReceived(w, data, p, out[p])
    {
      var received := Receive(w, data, q);
      out := out + [received];
    }
  }

  /** One packet for each item of a root. */
  method Expand<T>(data: seq<T>, a2b: seq<nat>, ghost total: nat) returns (out: seq<T>)
    requires AreOffsets(a2b, |data|, total)
    ensures |out| == total
    ensures forall a, b :: 0 <= a < |data| && a2b[a] <= b < a2b[a + 1] && b < |out| ==> out[b] == data[a]
  {
    out := [];
    for a := 0 to |data|
      invariant |out| == a2b[a]
      invariant forall d, b :: 0 <= d < a && a2b[d] <= b < a2b[d + 1] && b < |out| ==> out[b] == data[d]
    {
      assert IsOffsetStep(a2b, a);
      ghost var was := out;
      out := out + seq(a2b[a + 1] - a2b[a], _ => data[a]);
      forall d, b | 0 <= d < a + 1 && a2b[d] <= b < a2b[d + 1] && b < |out|
        ensures out[b] == data[d]
      {
        if d < a {
          OffsetsAscend(a2b, |data|, total, d + 1, a);
          assert out[b] == was[b];
        }
      }
    }
  }

  method Permute<T>(data: seq<T>, perm: seq<nat>) returns (out: seq<T>)
    requires IsPerm(perm, |data|)
    ensures |out| == |data| && forall i :: 0 <= i < |data| ==> out[perm[i]] == data[i]
  {
    out := data;
    for i := 0 to |data|
      invariant |out| == |data| && forall j :: 0 <= j < i ==> out[perm[j]] == data[j]
    {
      out := out[perm[i] := data[i]];
    }
  }

  method Unmap<T>(perm: seq<nat>, data: seq<T>) returns (out: seq<T>)
    requires forall i :: 0 <= i < |perm| ==> perm[i] < |data|
    ensures |out| == |perm| && forall i :: 0 <= i < |perm| ==> out[i] == data[perm[i]]
  {
    out := seq(|perm|, i requires 0 <= i < |perm| => data[perm[i]]);
  }

  /** Forward item `i` of rank `p` reaches rank `q` as its reverse item `j`. */
  ghost predicate IsCarried(w: World, p: nat, i: nat, q: nat, j: nat) {
    && p < |w| && q < |w| && i < w[p].f.NItems() && j < w[q].r.NItems()
    && IsSent(w, p, w[p].f.ContentAt(i), q, w[q].r.ContentAt(j))
  }

  ghost predicate HasRoots<T>(w: World, data: seq<seq<T>>) {
    |data| == |w| && forall p :: 0 <= p < |w| ==> |data[p]| == w[p].f.NRoots()
  }

  /** What an item brings is what its root has. */
  ghost predicate Brings<T>(w: World, data: seq<seq<T>>, out: seq<seq<T>>, p: nat, i: nat, root: nat, q: nat, j: nat) {
    IsCarried(w, p, i, q, j) && w[p].f.InRoot(i, root) && p < |data| && root < |data[p]| && q < |out|
      && j < |out[q]| ==>
      out[q][j] == data[p][root]
  }

  ghost predicate IsReady<T>(side: Side, data: seq<T>, content: seq<T>) {
    && |content| == side.NItems()
    && forall i: nat, root: nat :: i < side.NItems() && side.InRoot(i, root) && root < |data| ==>
      side.ContentAt(i) < |content| && content[side.ContentAt(i)] == data[root]
  }

  ghost predicate AreItems<T>(side: Side, content: seq<T>, items: seq<T>) {
    && |items| == side.NItems()
    && forall j: nat :: j < |items| ==> side.ContentAt(j) < |content| && items[j] == content[side.ContentAt(j)]
  }

  /** The packets of one rank, ready to be sent. */
  method ToContent<T>(side: Side, ghost nranks: nat, data: seq<T>) returns (content: seq<T>)
    requires side.Valid(nranks) && |data| == side.NRoots()
    ensures IsReady(side, data, content)
  {
    content := data;
    if side.roots2items.Some? {
      content := Expand(data, side.roots2items.value, side.NItems());
    }
    if side.items2content.Some? {
      content := Permute(content, side.items2content.value);
    }
  }

  method FromContent<T>(side: Side, ghost nranks: nat, content: seq<T>) returns (items: seq<T>)
    requires side.Valid(nranks) && |content| == side.NItems()
    ensures AreItems(side, content, items)
  {
    items := content;
    if side.items2content.Some? {
      items := Unmap(side.items2content.value, content);
    }
  }

  ghost predicate AreBrought<T>(w: World, data: seq<seq<T>>, out: seq<seq<T>>) {
    && |out| == |w| && (forall q :: 0 <= q < |w| ==> |out[q]| == w[q].r.NItems())
    && forall p: nat, i: nat, root: nat, q: nat, j: nat {:trigger Brings(w, data, out, p, i, root, q, j)} ::
      Brings(w, data, out, p, i, root, q, j)
  }

  method Exch<T>(w: World, data: seq<seq<T>>) returns (out: seq<seq<T>>)
    requires IsWorld(w) && HasRoots(w, data)
    ensures AreBrought(w, data, out)
  {
    var contents: seq<seq<T>> := [];
    for p := 0 to |w|
      invariant |contents| == p && forall q: nat :: q < p ==> IsReady(w[q].f, data[q], contents[q])
    {
      var content := ToContent(w[p].f, |w|, data[p]);
      contents := contents + [content];
    }
    var received := Alltoallv(w, contents);
    out := [];
    for q := 0 to |w|
      invariant |out| == q && forall p: nat :: p < q ==> AreItems(w[p].r, received[p], out[p])
    {
      var items := FromContent(w[q].r, |w|, received[q]);
      out := out + [items];
    }
    forall p: nat, i: nat, root: nat, q: nat, j: nat
      ensures Brings(w, data, out, p, i, root, q, j)
    {
      if IsCarried(w, p, i, q, j) && w[p].f.InRoot(i, root) && root < |data[p]| {
        ItemIsBroughtBy(w, data, contents, received[q], out, p, i, root, q, j);
      }
    }
  }

  lemma ItemIsBroughtBy<T>(w: World, data: seq<seq<T>>, contents: seq<seq<T>>, received: seq<T>,
      out: seq<seq<T>>, p: nat, i: nat, root: nat, q: nat, j: nat)
    requires IsCarried(w, p, i, q, j) && w[p].f.InRoot(i, root) && |data| == |w| == |contents| == |out|
    requires root < |data[p]|
    requires IsReady(w[p].f, data[p], contents[p]) && AreItems(w[q].r, received, out[q])
    requires AreReceived(w, contents, q, received)
    ensures out[q][j] == data[p][root]
  {
    var c, c2 := w[p].f.ContentAt(i), w[q].r.ContentAt(j);
    assert IsMessageTo(w, contents, q, received, p, c, c2);
  }

  // ----- items -----

  lemma ItemOf(side: Side, nranks: nat, c: nat) returns (i: nat)
    requires side.Valid(nranks) && c < side.NItems()
    ensures i < side.NItems() && side.ContentAt(i) == c
  {
    if side.items2content.Some? {
      assert c in side.items2content.value;
      i :| 0 <= i < |side.items2content.value| && side.items2content.value[i] == c;
    } else {
      i := c;
    }
  }

  lemma OneItem(side: Side, nranks: nat, i: nat, j: nat)
    requires side.Valid(nranks) && i < side.NItems() && j < side.NItems() && side.ContentAt(i) == side.ContentAt(j)
    ensures i == j
  {
  }

  /** Every item is carried to one place, and only to one. */
  lemma ItemIsCarried(w: World, p: nat, i: nat) returns (q: nat, j: nat)
    requires IsWorld(w) && p < |w| && i < w[p].f.NItems()
    ensures IsCarried(w, p, i, q, j)
  {
    assert w[p].f.ContentAt(i) < w[p].f.NItems();
    var c2;
    q, c2 := ContentIsSent(w, p, w[p].f.ContentAt(i));
    j := ItemOf(w[q].r, |w|, c2);
  }

  lemma CarriedOnce(w: World, p: nat, i: nat, q1: nat, j1: nat, q2: nat, j2: nat)
    requires IsWorld(w) && IsCarried(w, p, i, q1, j1) && IsCarried(w, p, i, q2, j2)
    ensures q1 == q2 && j1 == j2
  {
    SentOnce(w, p, w[p].f.ContentAt(i), q1, w[q1].r.ContentAt(j1), q2, w[q2].r.ContentAt(j2));
    OneItem(w[q1].r, |w|, j1, j2);
  }

  lemma CarriedInverts(w: World, p: nat, i: nat, q: nat, j: nat)
    requires IsCarried(w, p, i, q, j)
    ensures IsCarried(Invert(w), q, j, p, i)
  {
    SentInverts(w, p, w[p].f.ContentAt(i), q, w[q].r.ContentAt(j));
  }

  /** Nothing is received that was not sent, and nothing twice: the other direction of `CarriedOnce`. */
  lemma CarriedFromOne(w: World, p1: nat, i1: nat, p2: nat, i2: nat, q: nat, j: nat)
    requires IsWorld(w) && IsCarried(w, p1, i1, q, j) && IsCarried(w, p2, i2, q, j)
    ensures p1 == p2 && i1 == i2
  {
    InverseIsWorld(w);
    CarriedInverts(w, p1, i1, q, j);
    CarriedInverts(w, p2, i2, q, j);
    CarriedOnce(Invert(w), q, j, p1, i1, p2, i2);
  }

  lemma ItemIsBrought(w: World, q: nat, j: nat) returns (p: nat, i: nat)
    requires IsWorld(w) && q < |w| && j < w[q].r.NItems()
    ensures IsCarried(w, p, i, q, j)
  {
    InverseIsWorld(w);
    p, i := ItemIsCarried(Invert(w), q, j);
    CarriedInverts(Invert(w), q, j, p, i);
  }
}
