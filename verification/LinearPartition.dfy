/** The linear partition of global numbers over ranks (`globals_to_linear_owners`): each global number has its
    own place on one rank. */
module LinearPartition {

  datatype Remote = Remote(rank: nat, idx: nat)

  function LinearOwner(global: nat, total: nat, size: nat): Remote
    requires global < total && size > 0
  {
    var quot, rem := total / size, total % size;
    var split := (quot + 1) * rem;
    if global < split then Remote(global / (quot + 1), global % (quot + 1))
    else
      QuotIsPositive(total, size, quot, rem, global);
      var g := global - split;
      Remote(g / quot + rem, g % quot)
  }

  function LinearPartitionSize(total: nat, size: nat, rank: nat): nat
    requires size > 0
  {
    var quot, rem := total / size, total % size;
    if rank < rem then quot + 1 else quot
  }

  lemma QuotIsPositive(total: nat, size: nat, quot: nat, rem: nat, global: nat)
    requires size > 0 && quot == total / size && rem == total % size && global < total
    requires global >= (quot + 1) * rem
    ensures quot > 0
  {
    assert total == size * quot + rem;
    assert quot == 0 ==> (quot + 1) * rem == rem;
  }

  lemma DivMod(g: nat, n: nat) returns (q: nat, r: nat)
    requires n > 0
    ensures q == g / n && r == g % n && g == q * n + r && r < n
  {
    q, r := g / n, g % n;
  }

  lemma SmallQuotient(g: nat, n: nat, q: nat, r: nat, m: nat)
    requires n > 0 && g == q * n + r && g < m * n
    ensures q < m
  {
    assert q * n == m * n + (q - m) * n;
    assert q >= m ==> (q - m) * n >= 0;
  }

  /** The place exists. */
  lemma OwnerIsInRange(global: nat, total: nat, size: nat)
    requires global < total && size > 0
    ensures LinearOwner(global, total, size).rank < size
    ensures LinearOwner(global, total, size).idx <
      LinearPartitionSize(total, size, LinearOwner(global, total, size).rank)
  {
    var quot, rem := DivMod(total, size);
    var split := (quot + 1) * rem;
    if global < split {
      var q, r := DivMod(global, quot + 1);
      assert rem * (quot + 1) == split;
      SmallQuotient(global, quot + 1, q, r, rem);
    } else {
      QuotIsPositive(total, size, quot, rem, global);
      var g := global - split;
      var q, r := DivMod(g, quot);
      assert (size - rem) * quot == size * quot - rem * quot;
      assert (quot + 1) * rem == rem * quot + rem;
      SmallQuotient(g, quot, q, r, size - rem);
    }
  }

  /** The global number of a place. */
  function GlobalOf(o: Remote, total: nat, size: nat): nat
    requires size > 0
  {
    var quot, rem := total / size, total % size;
    if o.rank < rem then o.rank * (quot + 1) + o.idx
    else (quot + 1) * rem + (o.rank - rem) * quot + o.idx
  }

  /** No two global numbers have the same place. */
  lemma OwnerDetermines(global: nat, total: nat, size: nat)
    requires global < total && size > 0
    ensures GlobalOf(LinearOwner(global, total, size), total, size) == global
  {
    var quot, rem := DivMod(total, size);
    var split := (quot + 1) * rem;
    if global < split {
      var q, r := DivMod(global, quot + 1);
      assert rem * (quot + 1) == split;
      SmallQuotient(global, quot + 1, q, r, rem);
    } else {
      QuotIsPositive(total, size, quot, rem, global);
      var g := global - split;
      var q, r := DivMod(g, quot);
    }
  }
}
