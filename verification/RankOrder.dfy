/** Ordering the items that a server has by the rank they came from (`sort_locally_based_on_rank`). */
module RankOrder {
  import opened Graphs

  /** One more than any rank. */
  const MAX_RANK: nat := 0x7fff_ffff

  /** The places `begin` to `end` of the order hold each item of that range once, lower ranks first. */
  ghost predicate IsOrdered(ranks: seq<nat>, order: seq<nat>, begin: nat, end: nat) {
    && end <= |ranks| && end <= |order|
    && (forall i :: begin <= i < end ==> begin <= order[i] < end)
    && (forall i, k :: begin <= i < k < end ==> order[i] != order[k] && ranks[order[i]] <= ranks[order[k]])
    && (forall j :: begin <= j < end ==> IsPlaced(order, begin, end, j))
  }

  ghost predicate IsPlaced(order: seq<nat>, begin: nat, end: nat, j: nat) {
    exists i :: begin <= i < end && i < |order| && order[i] == j
  }

  /** So far: the items of ranks up to `last` are placed, below `i`. */
  ghost predicate IsOrdering(ranks: seq<nat>, order: seq<nat>, begin: nat, end: nat, i: nat, last: int) {
    && begin <= i <= end <= |ranks| && end <= |order|
    && (forall k :: begin <= k < i ==> begin <= order[k] < end && ranks[order[k]] <= last)
    && (forall k, l :: begin <= k < l < i ==> order[k] != order[l] && ranks[order[k]] <= ranks[order[l]])
    && (forall j :: begin <= j < end && ranks[j] <= last ==> IsPlaced(order, begin, i, j))
  }

  /** The smallest rank above the last. */
  method NextSmallestRank(ranks: seq<nat>, begin: nat, end: nat, last: int) returns (next: nat)
    requires begin <= end <= |ranks| && forall j :: 0 <= j < |ranks| ==> ranks[j] < MAX_RANK
    requires exists j :: begin <= j < end && ranks[j] > last
    ensures next > last && next < MAX_RANK
    ensures exists j :: begin <= j < end && ranks[j] == next
    ensures forall j :: begin <= j < end && ranks[j] > last ==> next <= ranks[j]
  {
    next := MAX_RANK;
    for j := begin to end
      invariant next < MAX_RANK ==> next > last && exists k :: begin <= k < j && ranks[k] == next
      invariant forall k :: begin <= k < j && ranks[k] > last ==> next <= ranks[k] && next < MAX_RANK
    {
      if ranks[j] > last && ranks[j] < next {
        next := ranks[j];
      }
    }
  }

  lemma IntervalSize(begin: nat, end: nat) returns (s: set<nat>)
    requires begin <= end
    ensures |s| == end - begin && forall x: nat :: x in s <==> begin <= x < end
  {
    if begin == end {
      s := {};
    } else {
      var front := IntervalSize(begin, end - 1);
      s := front + {end - 1};
    }
  }

  lemma DistinctSize(order: seq<nat>, begin: nat, i: nat) returns (s: set<nat>)
    requires begin <= i <= |order| && forall k, l :: begin <= k < l < i ==> order[k] != order[l]
    ensures |s| == i - begin && forall x: nat :: x in s <==> IsPlaced(order, begin, i, x)
  {
    if begin == i {
      s := {};
    } else {
      var front := DistinctSize(order, begin, i - 1);
      assert !IsPlaced(order, begin, i - 1, order[i - 1]);
      s := front + {order[i - 1]};
      forall x: nat
        ensures x in s <==> IsPlaced(order, begin, i, x)
      {
        if IsPlaced(order, begin, i, x) {
          var k :| begin <= k < i && k < |order| && order[k] == x;
          assert k < i - 1 ==> IsPlaced(order, begin, i - 1, x);
        }
        if x in front {
          assert IsPlaced(order, begin, i - 1, x);
          var k :| begin <= k < i - 1 && k < |order| && order[k] == x;
        }
      }
    }
  }

  lemma SubsetSize(s: set<nat>, t: set<nat>)
    requires s <= t
    ensures |s| <= |t|
  {
    var rest := t - s;
    assert t == s + rest;
  }

  /** There is room for an item that is not yet placed. */
  lemma HasRoom(order: seq<nat>, begin: nat, end: nat, i: nat, j: nat)
    requires begin <= i <= end <= |order| && forall k, l :: begin <= k < l < i ==> order[k] != order[l]
    requires forall k :: begin <= k < i ==> begin <= order[k] < end
    requires begin <= j < end && !IsPlaced(order, begin, i, j)
    ensures i < end
  {
    var all := IntervalSize(begin, end);
    var some := DistinctSize(order, begin, i);
    forall x | x in some
      ensures x in all - {j}
    {
      assert IsPlaced(order, begin, i, x);
    }
    SubsetSize(some, all - {j});
  }

  /** While the items of rank `next` are placed: those before `j` are, from `i` to `i2`. */
  ghost predicate IsPlacing(
      ranks: seq<nat>, order: seq<nat>, begin: nat, end: nat, i: nat, i2: nat, j: nat, next: nat)
  {
    && begin <= i <= i2 <= end <= |order| && begin <= j <= end <= |ranks|
    && (forall k :: i <= k < i2 ==> begin <= order[k] < j && ranks[order[k]] == next)
    && (forall k, l :: i <= k < l < i2 ==> order[k] != order[l])
    && (forall k :: begin <= k < j && ranks[k] == next ==> IsPlaced(order, i, i2, k))
  }

  lemma PlacedOnce(ranks: seq<nat>, order: seq<nat>, begin: nat, end: nat, i: nat, i2: nat, j: nat,
      last: int, next: nat)
    requires IsOrdering(ranks, order, begin, end, i, last) && IsPlacing(ranks, order, begin, end, i, i2, j, next)
    requires last < next && j < end && ranks[j] == next
    ensures i2 < end && IsPlacing(ranks, order[i2 := j], begin, end, i, i2 + 1, j + 1, next)
  {
    HasRoom(order, begin, end, i2, j);
    var order' := order[i2 := j];
    forall k | begin <= k < j + 1 && ranks[k] == next
      ensures IsPlaced(order', i, i2 + 1, k)
    {
      if k < j {
        assert IsPlaced(order, i, i2, k);
        var l :| i <= l < i2 && l < |order| && order[l] == k;
        assert order'[l] == k;
      } else {
        assert order'[i2] == k;
      }
    }
  }

  /** Places the items of one rank. */
  method PlaceRank(ranks: seq<nat>, order: seq<nat>, begin: nat, end: nat, i: nat, last: int, next: nat)
    returns (order': seq<nat>, i': nat)
    requires IsOrdering(ranks, order, begin, end, i, last) && next > last
    requires forall j :: begin <= j < end && ranks[j] > last ==> next <= ranks[j]
    requires exists j :: begin <= j < end && ranks[j] == next
    ensures |order'| == |order| && i < i' && IsOrdering(ranks, order', begin, end, i', next)
    ensures forall k :: 0 <= k < |order| && !(begin <= k < end) ==> order'[k] == order[k]
  {
    order', i' := order, i;
    for j := begin to end
      invariant |order'| == |order| && IsPlacing(ranks, order', begin, end, i, i', j, next)
      invariant forall k :: 0 <= k < |order| && !(i <= k < i') ==> order'[k] == order[k]
      invariant IsOrdering(ranks, order', begin, end, i, last)
    {
      if ranks[j] == next {
        PlacedOnce(ranks, order', begin, end, i, i', j, last, next);
        StaysOrdering(ranks, order', begin, end, i, last, order'[i' := j]);
        order' := order'[i' := j];
        i' := i' + 1;
      }
    }
    OrderingGrows(ranks, order', begin, end, i, i', last, next);
  }

  lemma StaysOrdering(
      ranks: seq<nat>, order: seq<nat>, begin: nat, end: nat, i: nat, last: int, order': seq<nat>)
    requires IsOrdering(ranks, order, begin, end, i, last) && |order'| == |order| && order'[..i] == order[..i]
    ensures IsOrdering(ranks, order', begin, end, i, last)
  {
    assert forall k :: 0 <= k < i ==> order'[k] == order'[..i][k] == order[k];
    forall j | begin <= j < end && ranks[j] <= last
      ensures IsPlaced(order', begin, i, j)
    {
      assert IsPlaced(order, begin, i, j);
      var k :| begin <= k < i && k < |order| && order[k] == j;
      assert order'[k] == j;
    }
  }

  lemma OrderingGrows(
      ranks: seq<nat>, order: seq<nat>, begin: nat, end: nat, i: nat, i2: nat, last: int, next: nat)
    requires IsOrdering(ranks, order, begin, end, i, last) && IsPlacing(ranks, order, begin, end, i, i2, end, next)
    requires next > last && forall j :: begin <= j < end && ranks[j] > last ==> next <= ranks[j]
    requires exists j :: begin <= j < end && ranks[j] == next
    ensures i < i2 && IsOrdering(ranks, order, begin, end, i2, next)
  {
    var j0 :| begin <= j0 < end && ranks[j0] == next;
    assert IsPlaced(order, i, i2, j0);
    forall j | begin <= j < end && ranks[j] <= next
      ensures IsPlaced(order, begin, i2, j)
    {
      if ranks[j] <= last {
        assert IsPlaced(order, begin, i, j);
      } else {
        assert IsPlaced(order, i, i2, j);
      }
    }
  }

  /** The order of all servers' items. */
  ghost predicate RowIsOrdered(servers: seq<nat>, ranks: seq<nat>, order: seq<nat>, server: nat) {
    server + 1 < |servers| ==> IsOrdered(ranks, order, servers[server], servers[server + 1])
  }

  method SortServer(ranks: seq<nat>, order: seq<nat>, begin: nat, end: nat) returns (order': seq<nat>)
    requires begin <= end <= |ranks| == |order| && forall j :: 0 <= j < |ranks| ==> ranks[j] < MAX_RANK
    ensures |order'| == |order| && IsOrdered(ranks, order', begin, end)
    ensures forall k :: 0 <= k < |order| && !(begin <= k < end) ==> order'[k] == order[k]
  {
    order' := order;
    var i: nat := begin;
    var last: int := -1;
    while i < end
      invariant |order'| == |order| && IsOrdering(ranks, order', begin, end, i, last)
      invariant forall k :: 0 <= k < |order| && !(begin <= k < end) ==> order'[k] == order[k]
      decreases end - i
    {
      SomeIsLeft(ranks, order', begin, end, i, last);
      var next := NextSmallestRank(ranks, begin, end, last);
      order', i := PlaceRank(ranks, order', begin, end, i, last, next);
      last := next;
    }
    AllArePlaced(ranks, order', begin, end, last);
  }

  lemma SomeIsLeft(ranks: seq<nat>, order: seq<nat>, begin: nat, end: nat, i: nat, last: int)
    requires IsOrdering(ranks, order, begin, end, i, last) && i < end
    ensures exists j :: begin <= j < end && ranks[j] > last
  {
    if forall j :: begin <= j < end ==> ranks[j] <= last {
      var all := IntervalSize(begin, end);
      var some := DistinctSize(order, begin, i);
      forall x | x in all
        ensures x in some
      {
        assert IsPlaced(order, begin, i, x);
      }
      SubsetSize(all, some);
      assert false;
    }
  }

  lemma AllArePlaced(ranks: seq<nat>, order: seq<nat>, begin: nat, end: nat, last: int)
    requires IsOrdering(ranks, order, begin, end, end, last)
    ensures IsOrdered(ranks, order, begin, end)
  {
    forall j | begin <= j < end
      ensures IsPlaced(order, begin, end, j)
    {
      if !IsPlaced(order, begin, end, j) {
        HasRoom(order, begin, end, end, j);
        assert false;
      }
    }
  }

  method SortLocallyBasedOnRank(servers: seq<nat>, ranks: seq<nat>) returns (order: seq<nat>)
    requires |servers| > 0 && AreOffsets(servers, |servers| - 1, |ranks|)
    requires forall j :: 0 <= j < |ranks| ==> ranks[j] < MAX_RANK
    ensures |order| == |ranks| && forall server: nat :: RowIsOrdered(servers, ranks, order, server)
  {
    order := seq(|ranks|, _ => 0);
    for server := 0 to |servers| - 1
      invariant |order| == |ranks|
      invariant forall s: nat :: s < server ==> RowIsOrdered(servers, ranks, order, s)
    {
      OffsetsAscend(servers, |servers| - 1, |ranks|, server, server + 1);
      ghost var was := order;
      order := SortServer(ranks, order, servers[server], servers[server + 1]);
      forall s: nat | s < server + 1
        ensures RowIsOrdered(servers, ranks, order, s)
      {
        if s < server {
          assert RowIsOrdered(servers, ranks, was, s);
          OffsetsAscend(servers, |servers| - 1, |ranks|, s + 1, server);
          RowStaysOrdered(ranks, was, order, servers[s], servers[s + 1]);
        }
      }
    }
  }

  lemma RowStaysOrdered(ranks: seq<nat>, was: seq<nat>, now: seq<nat>, begin: nat, end: nat)
    requires IsOrdered(ranks, was, begin, end) && |now| == |was| && forall k :: begin <= k < end ==> now[k] == was[k]
    ensures IsOrdered(ranks, now, begin, end)
  {
    forall j | begin <= j < end
      ensures IsPlaced(now, begin, end, j)
    {
      assert IsPlaced(was, begin, end, j);
      var i :| begin <= i < end && i < |was| && was[i] == j;
      assert now[i] == j;
    }
  }
}
