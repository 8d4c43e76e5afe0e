/** Cutting out the message that a rank sends to itself (`self_send_part1`, `self_send_part2`): the exchange of
    the other messages, with that one put back, gives what the plain exchange gives. */
module SelfSend {
  import opened Containers

  function Joined<T>(ms: seq<seq<T>>): seq<T> {
    if ms == [] then [] else Joined(ms[..|ms| - 1]) + ms[|ms| - 1]
  }

  ghost predicate IsStep(displs: seq<nat>, lengths: seq<nat>, width: nat, i: int) {
    0 <= i < |lengths| && i + 1 < |displs| ==>
      displs[i] <= displs[i + 1] && lengths[i] == (displs[i + 1] - displs[i]) * width
  }

  /** Displacements of messages of these lengths, in packets of `width` values. */
  ghost predicate AreDispls(displs: seq<nat>, lengths: seq<nat>, width: nat) {
    && |displs| == |lengths| + 1 && displs[0] == 0
    && forall i {:trigger IsStep(displs, lengths, width, i)} :: IsStep(displs, lengths, width, i)
  }

  function Lengths<T>(ms: seq<seq<T>>): (lengths: seq<nat>)
    ensures |lengths| == |ms| && forall i :: 0 <= i < |ms| ==> lengths[i] == |ms[i]|
  {
    seq(|ms|, i requires 0 <= i < |ms| => |ms[i]|)
  }

  lemma {:induction false} JoinsAt<T>(ms: seq<seq<T>>, d: nat)
    requires d < |ms|
    ensures Joined(ms) == Joined(ms[..d]) + ms[d] + Joined(ms[d + 1..])
  {
    JoinedJoins(ms[..d + 1], ms[d + 1..]);
    assert ms[..d + 1] + ms[d + 1..] == ms;
    assert ms[..d + 1][..d] == ms[..d];
  }

  lemma {:induction false} JoinedJoins<T>(a: seq<seq<T>>, b: seq<seq<T>>)
    ensures Joined(a + b) == Joined(a) + Joined(b)
  {
    if b == [] {
      assert a + b == a;
    } else {
      var n := |b| - 1;
      var all, front := a + b, a + b[..n];
      assert all[..|all| - 1] == front && all[|all| - 1] == b[n];
      JoinedJoins(a, b[..n]);
      assert Joined(all) == Joined(front) + b[n];
    }
  }

  lemma Distribute(x: int, y: int, width: int)
    ensures (x + y) * width == x * width + y * width
  {
  }

  /** A displacement is where the messages before it end. */
  lemma DisplIsLength<T>(ms: seq<seq<T>>, displs: seq<nat>, width: nat, d: nat)
    requires AreDispls(displs, Lengths(ms), width) && d <= |ms|
    ensures displs[d] * width == |Joined(ms[..d])|
  {
    if d == 0 {
      assert ms[..0] == [];
    } else {
      DisplIsLength(ms, displs, width, d - 1);
      assert IsStep(displs, Lengths(ms), width, d - 1);
      assert ms[..d][..d - 1] == ms[..d - 1];
      Distribute(displs[d - 1], displs[d] - displs[d - 1], width);
    }
  }

  /** Where message `d` is. */
  lemma MessageIs<T>(ms: seq<seq<T>>, displs: seq<nat>, width: nat, d: nat)
    returns (begin: nat, end: nat)
    requires AreDispls(displs, Lengths(ms), width) && d < |ms|
    ensures begin == displs[d] * width && end == displs[d + 1] * width && begin <= end <= |Joined(ms)|
    ensures Joined(ms)[begin..end] == ms[d] && Joined(ms)[..begin] + Joined(ms)[end..] == Joined(ms[d := []])
    ensures end - begin == |ms[d]|
  {
    DisplIsLength(ms, displs, width, d);
    DisplIsLength(ms, displs, width, d + 1);
    begin, end := displs[d] * width, displs[d + 1] * width;
    LengthsCut(ms, d, begin, end);
  }

  /** Message `d` is what lies between the lengths of those before it, without and with it. */
  lemma LengthsCut<T>(ms: seq<seq<T>>, d: nat, begin: nat, end: nat)
    requires d < |ms| && begin == |Joined(ms[..d])| && end == |Joined(ms[..d + 1])|
    ensures begin <= end <= |Joined(ms)| && end - begin == |ms[d]|
    ensures Joined(ms)[begin..end] == ms[d] && Joined(ms)[..begin] + Joined(ms)[end..] == Joined(ms[d := []])
  {
    JoinsAt(ms, d);
    JoinsAt(ms[d := []], d);
    assert ms[d := []][..d] == ms[..d] && ms[d := []][d + 1..] == ms[d + 1..];
    assert ms[..d + 1][..d] == ms[..d];
    assert Joined(ms[..d + 1]) == Joined(ms[..d]) + ms[d];
  }

  /** The scan of the counts with that of message `k` set to 0. */
  method DisplsWithout(displs: seq<nat>, k: nat, ghost lengths: seq<nat>, ghost width: nat) returns (out: seq<nat>)
    requires AreDispls(displs, lengths, width) && k < |lengths|
    ensures AreDispls(out, lengths[k := 0], width)
  {
    var n := |displs| - 1;
    ghost var cut := lengths[k := 0];
    out := [0];
    for i := 0 to n
      invariant AreDispls(out, cut[..i], width)
    {
      assert IsStep(displs, lengths, width, i);
      var count := if i == k then 0 else displs[i + 1] - displs[i];
      DisplsGrow(out, cut[..i], width, count, cut[i]);
      assert cut[..i + 1] == cut[..i] + [cut[i]];
      out := out + [out[i] + count];
    }
    assert cut[..n] == cut;
  }

  lemma DisplsGrow(displs: seq<nat>, lengths: seq<nat>, width: nat, count: nat, length: nat)
    requires AreDispls(displs, lengths, width) && length == count * width
    ensures AreDispls(displs + [displs[|lengths|] + count], lengths + [length], width)
  {
    var more, last := displs + [displs[|lengths|] + count], lengths + [length];
    forall i
      ensures IsStep(more, last, width, i)
    {
      assert IsStep(displs, lengths, width, i);
    }
  }

  /** What is sent and received, as displacements and values. */
  datatype Buffers<T> = Buffers(sendbuf: seq<T>, sdispls: seq<nat>, rdispls: seq<nat>)

  /** The buffer and displacements are those of the messages `ms`; messages of the lengths of `rs` are expected. */
  ghost predicate Holds<T>(b: Buffers<T>, ms: seq<seq<T>>, rs: seq<seq<T>>, width: nat) {
    && b.sendbuf == Joined(ms) && AreDispls(b.sdispls, Lengths(ms), width)
    && AreDispls(b.rdispls, Lengths(rs), width)
  }

  /** Rank `self` is destination `dst` and source `src`; it expects from itself what it sends. */
  ghost predicate IsSelf<T>(ms: seq<seq<T>>, rs: seq<seq<T>>, dst: int, src: int) {
    0 <= dst < |ms| && 0 <= src < |rs| && rs[src] == ms[dst]
  }

  /** All that the rank sends goes to itself. */
  ghost predicate IsAllForSelf<T>(ms: seq<seq<T>>, dst: int) {
    0 <= dst < |ms| && |Joined(ms)| == |ms[dst]|
  }

  lemma LengthsWithout<T>(ms: seq<seq<T>>, d: nat)
    requires d < |ms|
    ensures Lengths(ms[d := []]) == Lengths(ms)[d := 0]
  {
  }

  /** Takes the message to the rank itself out, unless it is below the threshold and not all there is. */
  method SelfSendPart1<T>(
      b: Buffers<T>, dst: int, src: int, width: nat, itemSize: nat, threshold: nat,
      ghost ms: seq<seq<T>>, ghost rs: seq<seq<T>>)
    returns (selfData: Option<seq<T>>, b': Buffers<T>)
    requires Holds(b, ms, rs, width) && (0 <= dst ==> IsSelf(ms, rs, dst, src))
    ensures selfData.None? <==>
      dst < 0 || (!IsAllForSelf(ms, dst) && |ms[dst]| * itemSize < threshold)
    ensures selfData.None? ==> b' == b
    ensures selfData.Some? ==>
      && selfData.value == ms[dst] && b'.sendbuf == Joined(ms[dst := []])
      && AreDispls(b'.rdispls, Lengths(rs[src := []]), width)
      && (AreDispls(b'.sdispls, Lengths(ms[dst := []]), width) <==> !IsAllForSelf(ms, dst) || |ms| == 1)
      && |b'.sdispls| == if IsAllForSelf(ms, dst) then 2 else |b.sdispls|
  {
    selfData, b' := None, b;
    if dst < 0 {
      return;
    }
    ghost var from, to := MessageIs(ms, b.sdispls, width, dst);
    var begin, end := b.sdispls[dst] * width, b.sdispls[dst + 1] * width;
    var selfSize := end - begin;
    LengthsWithout(ms, dst);
    LengthsWithout(rs, src);
    if selfSize == |b.sendbuf| {
      assert begin == 0 && end == |b.sendbuf|;
      selfData := Some(b.sendbuf);
      var rdispls := DisplsWithout(b.rdispls, src, Lengths(rs), width);
      b' := Buffers([], [0, 0], rdispls);
      AllForSelf(ms, dst, width);
    } else {
      if selfSize * itemSize < threshold {
        return;
      }
      selfData := Some(b.sendbuf[begin..end]);
      var sdispls := DisplsWithout(b.sdispls, dst, Lengths(ms), width);
      var rdispls := DisplsWithout(b.rdispls, src, Lengths(rs), width);
      b' := Buffers(b.sendbuf[..begin] + b.sendbuf[end..], sdispls, rdispls);
    }
  }

  /** Two displacements are right if there is one message. */
  lemma AllForSelf<T>(ms: seq<seq<T>>, dst: nat, width: nat)
    requires dst < |ms|
    ensures AreDispls([0, 0], Lengths(ms[dst := []]), width) <==> |ms| == 1
  {
    var lengths := Lengths(ms[dst := []]);
    if |ms| == 1 {
      forall i
        ensures IsStep([0, 0], lengths, width, i)
      {
      }
    }
  }

  /** Puts the message back among those received. */
  method SelfSendPart2<T>(
      selfData: Option<seq<T>>, src: int, recvbuf: seq<T>, rdispls: seq<nat>, width: nat, ghost rs: seq<seq<T>>)
    returns (recvbuf': seq<T>)
    requires selfData.Some? ==>
      && 0 <= src < |rs| && selfData.value == rs[src] && recvbuf == Joined(rs[src := []])
      && AreDispls(rdispls, Lengths(rs[src := []]), width)
    ensures recvbuf' == if selfData.Some? then Joined(rs) else recvbuf
  {
    recvbuf' := recvbuf;
    if selfData.None? {
      return;
    }
    ghost var cut := rs[src := []];
    JoinsAt(rs, src);
    JoinsAt(cut, src);
    assert cut[..src] == rs[..src] && cut[src + 1..] == rs[src + 1..];
    if |recvbuf| == 0 {
      recvbuf' := selfData.value;
    } else {
      DisplIsLength(cut, rdispls, width, src);
      var begin := rdispls[src] * width;
      recvbuf' := recvbuf[..begin] + selfData.value + recvbuf[begin..];
    }
  }

  // ----- the whole exchange -----

  /** What a buffer holds for destination `d`. */
  function MessageAt<T>(b: Buffers<T>, d: nat, width: nat): seq<T> {
    if d + 1 < |b.sdispls| && b.sdispls[d] * width <= b.sdispls[d + 1] * width <= |b.sendbuf|
    then b.sendbuf[b.sdispls[d] * width..b.sdispls[d + 1] * width] else []
  }

  /** What the network delivers: the messages of the others, and from the rank itself what it sends to itself. */
  function Delivered<T>(b: Buffers<T>, rs: seq<seq<T>>, dst: int, src: int, width: nat): seq<T> {
    Joined(if 0 <= dst && 0 <= src < |rs| then rs[src := MessageAt(b, dst, width)] else rs)
  }

  /** Without the cut, all that is expected comes. */
  lemma {:induction false} PlainExchange<T>(
      b: Buffers<T>, dst: int, src: int, width: nat, ms: seq<seq<T>>, rs: seq<seq<T>>)
    requires Holds(b, ms, rs, width) && (0 <= dst ==> IsSelf(ms, rs, dst, src))
    ensures Delivered(b, rs, dst, src, width) == Joined(rs)
  {
    if 0 <= dst {
      var begin, end := MessageIs(ms, b.sdispls, width, dst);
      assert MessageAt(b, dst, width) == ms[dst];
      assert rs[src := ms[dst]] == rs;
    }
  }

  /** With the cut it is the same, unless all goes to the rank itself and it has other destinations: then there
      are too few displacements for these. */
  method AlltoallvWithSelf<T>(
      b: Buffers<T>, dst: int, src: int, width: nat, itemSize: nat, threshold: nat,
      ghost ms: seq<seq<T>>, rs: seq<seq<T>>)
    returns (ok: bool, recvbuf: seq<T>)
    requires Holds(b, ms, rs, width) && (0 <= dst ==> IsSelf(ms, rs, dst, src))
    ensures ok <==> !IsAllForSelf(ms, dst) || |ms| == 1
    ensures ok ==> recvbuf == Delivered(b, rs, dst, src, width)
  {
    var selfData, b' := SelfSendPart1(b, dst, src, width, itemSize, threshold, ms, rs);
    ok, recvbuf := |b'.sdispls| == |b.sdispls|, [];
    PlainExchange(b, dst, src, width, ms, rs);
    if !ok {
      return;
    }
    if selfData.Some? {
      PlainExchange(b', dst, src, width, ms[dst := []], rs[src := []]);
      assert rs[src := []][src := MessageAt(b', dst, width)] == rs[src := MessageAt(b', dst, width)];
    }
    recvbuf := Delivered(b', rs, dst, src, width);
    recvbuf := SelfSendPart2(selfData, src, recvbuf, b'.rdispls, width, rs);
  }

  /** Where no message is empty, there are always enough displacements. */
  lemma NoEmptyMessageFits<T>(ms: seq<seq<T>>, dst: int)
    requires IsAllForSelf(ms, dst) && forall m :: 0 <= m < |ms| ==> ms[m] != []
    ensures |ms| == 1
  {
    JoinsAt(ms, dst);
    NoneIsEmpty(ms[..dst]);
    NoneIsEmpty(ms[dst + 1..]);
  }

  lemma {:induction false} NoneIsEmpty<T>(ms: seq<seq<T>>)
    requires forall m :: 0 <= m < |ms| ==> ms[m] != []
    ensures |ms| <= |Joined(ms)|
  {
    if ms != [] {
      NoneIsEmpty(ms[..|ms| - 1]);
    }
  }
}
