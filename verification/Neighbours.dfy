/** Sparse neighbour discovery (`sources_from_destinations`): every rank sends a synchronous message to
    each of its destinations, polls for messages from ranks it does not know of, and leaves once a
    nonblocking barrier tells it that all messages have been received. The calls of all ranks, one after
    another, are a state machine of single-rank steps in any order. */
module Neighbours {

  /** `dests(r, p)` is what rank `p` passes to call number `r`. The program has a barrier both before
      and after the polling; the model can do without. */
  datatype Setup = Setup(n: nat, rounds: nat, dests: (nat, nat) -> seq<nat>, before: bool, after: bool) {
    ghost predicate Valid() {
      forall r: nat, p: nat, i :: p < n && 0 <= i < |dests(r, p)| ==> dests(r, p)[i] < n
    }
  }

  /** A message is told apart by the call it was sent in, its sender and its place in the list of
      destinations. Its receiver sees the sender only. */
  datatype Message = Message(round: nat, from: nat, index: nat)

  /** Where a rank is in the program: outside a call, in the first barrier, posting the sends, about to
      probe or to test in the polling loop, in the last barrier. */
  datatype Pc = Outside | InFirstBarrier | Sending | AtProbe | AtTest | InLastBarrier

  /** `sent` counts the sends posted in this call, `results` holds what the earlier calls returned. */
  datatype Rank = Rank(
    round: nat, pc: Pc, sent: nat, locallyDone: bool, sources: seq<nat>, results: seq<seq<nat>>)

  datatype World = World(ranks: seq<Rank>, inFlight: set<Message>)

  datatype Action =
    | Enter(p: nat)
    | PassFirst(p: nat)
    | Send(p: nat)
    | StartPolling(p: nat)
    | Receive(p: nat, m: Message)
    | NoMessage(p: nat)
    | AllReceived(p: nat)
    | SomeNotReceived(p: nat)
    | GloballyDone(p: nat)
    | NotGloballyDone(p: nat)
    | PassLast(p: nat)

  // ----- collectives -----

  /** How many collective operations a rank has entered; a call has three of them: the first barrier,
      the nonblocking barrier and the last barrier. */
  function Entered(k: Rank): nat {
    3 * k.round +
    match k.pc
    case Outside => 0
    case InFirstBarrier | Sending => 1
    case AtProbe | AtTest => if k.locallyDone then 2 else 1
    case InLastBarrier => 3
  }

  /** How many it has completed. */
  function Completed(k: Rank): nat {
    3 * k.round +
    match k.pc
    case Outside | InFirstBarrier => 0
    case Sending | AtProbe | AtTest => 1
    case InLastBarrier => 2
  }

  /** A collective operation can be completed once all ranks have entered it. */
  ghost predicate MayComplete(w: World, c: nat) {
    forall q :: 0 <= q < |w.ranks| ==> c < Entered(w.ranks[q])
  }

  // ----- steps -----

  /** `m` is in flight and `p` is its destination; a probe cannot tell the call it was sent in. */
  ghost predicate IsAddressedTo(c: Setup, w: World, m: Message, p: nat) {
    && m in w.inFlight && m.index < |c.dests(m.round, m.from)| && c.dests(m.round, m.from)[m.index] == p
  }

  ghost predicate CanDo(c: Setup, w: World, a: Action) {
    && a.p < |w.ranks|
    && var k := w.ranks[a.p];
       match a
       case Enter(_) => k.pc.Outside? && k.round < c.rounds
       case PassFirst(_) => k.pc.InFirstBarrier? && (c.before ==> MayComplete(w, 3 * k.round))
       case Send(_) => k.pc.Sending? && k.sent < |c.dests(k.round, a.p)|
       case StartPolling(_) => k.pc.Sending? && k.sent == |c.dests(k.round, a.p)|
       case Receive(_, m) => k.pc.AtProbe? && IsAddressedTo(c, w, m, a.p)
       case NoMessage(_) => k.pc.AtProbe?
       case AllReceived(_) => k.pc.AtTest? && !k.locallyDone &&
         forall i: nat :: i < k.sent ==> Message(k.round, a.p, i) !in w.inFlight
       case SomeNotReceived(_) => k.pc.AtTest? && !k.locallyDone
       case GloballyDone(_) => k.pc.AtTest? && k.locallyDone && MayComplete(w, 3 * k.round + 1)
       case NotGloballyDone(_) => k.pc.AtTest? && k.locallyDone
       case PassLast(_) => k.pc.InLastBarrier? && (c.after ==> MayComplete(w, 3 * k.round + 2))
  }

  ghost function RankAfter(k: Rank, a: Action): Rank {
    match a
    case Enter(_) => k.(pc := InFirstBarrier)
    case PassFirst(_) => k.(pc := Sending)
    case Send(_) => k.(sent := k.sent + 1)
    case StartPolling(_) => k.(pc := AtProbe)
    case Receive(_, m) => k.(pc := AtTest, sources := k.sources + [m.from])
    case NoMessage(_) => k.(pc := AtTest)
    case AllReceived(_) => k.(pc := AtProbe, locallyDone := true)
    case SomeNotReceived(_) | NotGloballyDone(_) => k.(pc := AtProbe)
    case GloballyDone(_) => k.(pc := InLastBarrier)
    case PassLast(_) => Rank(k.round + 1, Outside, 0, false, [], k.results + [Sort(k.sources)])
  }

  ghost function Do(c: Setup, w: World, a: Action): World
    requires CanDo(c, w, a)
  {
    var k := w.ranks[a.p];
    World(
      w.ranks[a.p := RankAfter(k, a)],
      if a.Send? then w.inFlight + {Message(k.round, a.p, k.sent)}
      else if a.Receive? then w.inFlight - {a.m}
      else w.inFlight)
  }

  ghost function Initial(c: Setup): World {
    World(seq(c.n, _ => Rank(0, Outside, 0, false, [], [])), {})
  }

  ghost predicate IsRun(c: Setup, run: seq<World>) {
    && run != [] && run[0] == Initial(c)
    && forall i {:trigger IsRunStep(c, run, i)} :: IsRunStep(c, run, i)
  }

  ghost predicate IsRunStep(c: Setup, run: seq<World>, i: int) {
    0 <= i < |run| - 1 ==> exists a :: CanDo(c, run[i], a) && run[i + 1] == Do(c, run[i], a)
  }

  ghost predicate IsReachable(c: Setup, w: World) {
    exists run :: IsRun(c, run) && run[|run| - 1] == w
  }

  // ----- what a call should return -----

  ghost predicate IsSorted(s: seq<nat>) {
    forall i, j :: 0 <= i < j < |s| ==> s[i] <= s[j]
  }

  function Insert(x: nat, s: seq<nat>): (t: seq<nat>)
    ensures multiset(t) == multiset(s) + multiset{x}
  {
    if s == [] || x <= s[0] then [x] + s
    else
      assert s == [s[0]] + s[1..];
      [s[0]] + Insert(x, s[1..])
  }

  function Sort(s: seq<nat>): (t: seq<nat>)
    ensures multiset(t) == multiset(s)
  {
    if s == [] then []
    else
      assert s == [s[0]] + s[1..];
      Insert(s[0], Sort(s[1..]))
  }

  ghost predicate IsLowerBound(s: seq<nat>, low: nat) {
    forall i :: 0 <= i < |s| ==> low <= s[i]
  }

  lemma {:induction false} InsertKeepsSorted(x: nat, s: seq<nat>, low: nat)
    requires IsSorted(s)
    ensures IsSorted(Insert(x, s))
    ensures IsLowerBound(s, low) && low <= x ==> IsLowerBound(Insert(x, s), low)
  {
    if s != [] && s[0] < x {
      InsertKeepsSorted(x, s[1..], low);
      InsertKeepsSorted(x, s[1..], s[0]);
      assert IsLowerBound(s[1..], s[0]);
    }
  }

  lemma {:induction false} SortIsSorted(s: seq<nat>)
    ensures IsSorted(Sort(s))
  {
    if s != [] {
      SortIsSorted(s[1..]);
      InsertKeepsSorted(s[0], Sort(s[1..]), 0);
    }
  }

  /** The ranks below `n` that name `q` in call `r`, in ascending order, each as often as it does. */
  ghost function NamedBy(c: Setup, r: nat, q: nat, n: nat): seq<nat> {
    if n == 0 then [] else NamedBy(c, r, q, n - 1) + seq(multiset(c.dests(r, n - 1))[q], _ => n - 1)
  }

  lemma {:induction false} NamedByIsSorted(c: Setup, r: nat, q: nat, n: nat)
    ensures IsSorted(NamedBy(c, r, q, n))
    ensures forall i :: 0 <= i < |NamedBy(c, r, q, n)| ==> NamedBy(c, r, q, n)[i] < n
  {
    if n > 0 {
      NamedByIsSorted(c, r, q, n - 1);
    }
  }

  lemma CountOfCopies(x: nat, k: nat, f: nat)
    ensures multiset(seq(k, _ => x))[f] == if f == x then k else 0
  {
    if k > 0 {
      CountOfCopies(x, k - 1, f);
      assert seq(k, _ => x) == seq(k - 1, _ => x) + [x];
    }
  }

  lemma {:induction false} NamedByCounts(c: Setup, r: nat, q: nat, n: nat, f: nat)
    ensures multiset(NamedBy(c, r, q, n))[f] == if f < n then multiset(c.dests(r, f))[q] else 0
  {
    if n > 0 {
      NamedByCounts(c, r, q, n - 1, f);
      CountOfCopies(n - 1, multiset(c.dests(r, n - 1))[q], f);
    }
  }

  lemma FirstIsLeast(s: seq<nat>, x: nat)
    requires IsSorted(s) && x in multiset(s)
    ensures s != [] && s[0] <= x
  {
    var i :| 0 <= i < |s| && s[i] == x;
  }

  lemma RestsAreAlike(s: seq<nat>, t: seq<nat>)
    requires s != [] && t != [] && s[0] == t[0] && multiset(s) == multiset(t)
    ensures multiset(s[1..]) == multiset(t[1..])
  {
    assert s == [s[0]] + s[1..] && t == [t[0]] + t[1..];
    forall x: nat
      ensures multiset(s[1..])[x] == multiset(t[1..])[x]
    {
      assert multiset(s)[x] == multiset{s[0]}[x] + multiset(s[1..])[x];
      assert multiset(t)[x] == multiset{t[0]}[x] + multiset(t[1..])[x];
    }
  }

  lemma SortedIsUnique(s: seq<nat>, t: seq<nat>)
    requires IsSorted(s) && IsSorted(t) && multiset(s) == multiset(t)
    ensures s == t
  {
    assert |multiset(s)| == |s| && |multiset(t)| == |t|;
    if s != [] {
      assert s[0] in multiset(s) && t[0] in multiset(t);
      FirstIsLeast(t, s[0]);
      FirstIsLeast(s, t[0]);
      RestsAreAlike(s, t);
      SortedIsUnique(s[1..], t[1..]);
      assert s == [s[0]] + s[1..] && t == [t[0]] + t[1..];
    }
  }

  // ----- the invariant -----

  /** How many sends a rank has posted in call `r`. */
  ghost function Posted(c: Setup, w: World, r: nat, f: nat): nat
    requires f < |w.ranks|
  {
    var k := w.ranks[f];
    if r < k.round then |c.dests(r, f)| else if r == k.round then k.sent else 0
  }

  /** The sends that `f` has posted to `q` in call `r` and that `q` has received. */
  ghost function Received(c: Setup, w: World, r: nat, f: nat, q: nat): set<nat>
    requires f < |w.ranks| && Posted(c, w, r, f) <= |c.dests(r, f)|
  {
    set i: nat | i < Posted(c, w, r, f) && c.dests(r, f)[i] == q && Message(r, f, i) !in w.inFlight
  }

  ghost predicate RankIsWellFormed(c: Setup, k: Rank, p: nat) {
    && k.round <= c.rounds && (k.round == c.rounds ==> k.pc.Outside?)
    && |k.results| == k.round
    && k.sent <= |c.dests(k.round, p)|
    && (k.pc.Outside? || k.pc.InFirstBarrier? ==> k.sent == 0 && k.sources == [])
    && (k.pc.AtProbe? || k.pc.AtTest? || k.pc.InLastBarrier? ==> k.sent == |c.dests(k.round, p)|)
    && (k.pc.Outside? || k.pc.InFirstBarrier? || k.pc.Sending? ==> !k.locallyDone)
  }

  ghost predicate RanksAreWellFormed(c: Setup, w: World) {
    && |w.ranks| == c.n
    && forall p :: 0 <= p < c.n ==> RankIsWellFormed(c, w.ranks[p], p)
  }

  /** Whether collective number `x` is there; the nonblocking barrier always is. */
  ghost predicate IsPresent(c: Setup, x: nat) {
    && (x % 3 == 0 ==> c.before)
    && (x % 3 == 2 ==> c.after)
  }

  /** A collective that some rank has completed, all have entered. */
  ghost predicate CollectivesAgree(c: Setup, w: World)
    requires RanksAreWellFormed(c, w)
  {
    forall p, q, x: nat {:trigger w.ranks[p], w.ranks[q], IsPresent(c, x)} ::
      0 <= p < c.n && 0 <= q < c.n && x < Completed(w.ranks[p]) && IsPresent(c, x) ==> x < Entered(w.ranks[q])
  }

  /** Rank `f` is past its sends' being posted, and may still have some not received. */
  ghost predicate MayHaveInFlight(k: Rank) {
    k.pc.Sending? || ((k.pc.AtProbe? || k.pc.AtTest?) && !k.locallyDone)
  }

  /** Messages in flight were sent in the call their sender is in, and that it cannot leave. */
  ghost predicate FlightsAreCurrent(c: Setup, w: World)
    requires RanksAreWellFormed(c, w)
  {
    forall m :: m in w.inFlight ==>
      && m.from < c.n && MayHaveInFlight(w.ranks[m.from]) && m.round == w.ranks[m.from].round
      && m.index < w.ranks[m.from].sent
  }

  /** The sources of a rank are the senders of the messages to it of its own call that are no longer in
      flight; no later ones have been received. */
  ghost predicate SourcesAreReceived(c: Setup, w: World)
    requires RanksAreWellFormed(c, w)
  {
    && (forall q, f :: 0 <= q < c.n && 0 <= f < c.n ==> CountsAgree(c, w, q, f))
    && (forall q, f, r: nat :: 0 <= q < c.n && 0 <= f < c.n && w.ranks[q].round < r ==> NoneReceived(c, w, r, f, q))
  }

  ghost predicate CountsAgree(c: Setup, w: World, q: nat, f: nat)
    requires RanksAreWellFormed(c, w) && q < c.n && f < c.n
  {
    multiset(w.ranks[q].sources)[f] == |Received(c, w, w.ranks[q].round, f, q)|
  }

  ghost predicate NoneReceived(c: Setup, w: World, r: nat, f: nat, q: nat)
    requires RanksAreWellFormed(c, w) && q < c.n && f < c.n
  {
    Received(c, w, r, f, q) == {}
  }

  ghost predicate SourcesAreRanks(c: Setup, w: World)
    requires RanksAreWellFormed(c, w)
  {
    forall q, i :: 0 <= q < c.n && 0 <= i < |w.ranks[q].sources| ==> w.ranks[q].sources[i] < c.n
  }

  ghost predicate ResultsAreExact(c: Setup, w: World)
    requires RanksAreWellFormed(c, w)
  {
    forall q, r: nat :: 0 <= q < c.n && r < w.ranks[q].round ==> w.ranks[q].results[r] == NamedBy(c, r, q, c.n)
  }

  ghost predicate Invariant(c: Setup, w: World) {
    && c.Valid() && (c.before || c.after)
    && RanksAreWellFormed(c, w)
    && CollectivesAgree(c, w)
    && FlightsAreCurrent(c, w)
    && SourcesAreReceived(c, w) && SourcesAreRanks(c, w)
    && ResultsAreExact(c, w)
  }

  // ----- what the invariant means for one rank and another -----

  /** When one rank has completed the nonblocking barrier of call `r`, every other is past its sends'
      being received, or in a later call. */
  lemma PastTheBarrier(c: Setup, w: World, p: nat, f: nat, r: nat)
    requires RanksAreWellFormed(c, w) && CollectivesAgree(c, w) && p < c.n && f < c.n
    requires 3 * r + 1 < Completed(w.ranks[p])
    ensures r <= w.ranks[f].round
    ensures r == w.ranks[f].round ==> w.ranks[f].locallyDone || w.ranks[f].pc.InLastBarrier?
  {
    assert IsPresent(c, 3 * r + 1);
    assert 3 * r + 1 < Entered(w.ranks[f]);
  }

  /** A rank that still has messages in flight is in the same call as any rank in its polling loop. */
  lemma SendersAreInTheSameCall(c: Setup, w: World, q: nat, f: nat)
    requires RanksAreWellFormed(c, w) && CollectivesAgree(c, w) && (c.before || c.after) && q < c.n && f < c.n
    requires MayHaveInFlight(w.ranks[f]) && (w.ranks[q].pc.AtProbe? || w.ranks[q].pc.AtTest?)
    ensures w.ranks[q].round == w.ranks[f].round
  {
    var r, s := w.ranks[q].round, w.ranks[f].round;
    if r < s {
      if c.before {
        assert IsPresent(c, 3 * s);
      } else {
        assert IsPresent(c, 3 * s - 1);
      }
    } else if s < r {
      PastTheBarrier(c, w, q, f, s);
    }
  }

  // ----- every step keeps it -----

  lemma StepKeepsRanks(c: Setup, w: World, a: Action)
    requires RanksAreWellFormed(c, w) && CanDo(c, w, a)
    ensures RanksAreWellFormed(c, Do(c, w, a))
  {
    assert RankIsWellFormed(c, w.ranks[a.p], a.p);
    assert RankIsWellFormed(c, RankAfter(w.ranks[a.p], a), a.p);
  }

  /** A rank enters no fewer collectives, and completes at most one more, if it may. */
  lemma StepCompletes(c: Setup, w: World, a: Action)
    requires RanksAreWellFormed(c, w) && CanDo(c, w, a)
    ensures Entered(w.ranks[a.p]) <= Entered(RankAfter(w.ranks[a.p], a))
    ensures Completed(RankAfter(w.ranks[a.p], a)) <= Completed(w.ranks[a.p]) + 1
    ensures Completed(w.ranks[a.p]) < Completed(RankAfter(w.ranks[a.p], a)) && IsPresent(c, Completed(w.ranks[a.p])) ==>
      MayComplete(w, Completed(w.ranks[a.p]))
  {
    var k := w.ranks[a.p];
    assert RankIsWellFormed(c, k, a.p);
    assert (3 * k.round) % 3 == 0 && (3 * k.round + 2) % 3 == 2;
  }

  lemma StepKeepsCollectives(c: Setup, w: World, a: Action)
    requires RanksAreWellFormed(c, w) && CollectivesAgree(c, w) && CanDo(c, w, a)
    ensures RanksAreWellFormed(c, Do(c, w, a)) && CollectivesAgree(c, Do(c, w, a))
  {
    StepKeepsRanks(c, w, a);
    StepCompletes(c, w, a);
    var w' := Do(c, w, a);
    forall p, q, x: nat | 0 <= p < c.n && 0 <= q < c.n && x < Completed(w'.ranks[p]) && IsPresent(c, x)
      ensures x < Entered(w'.ranks[q])
    {
      assert Entered(w.ranks[q]) <= Entered(w'.ranks[q]);
      if x < Completed(w.ranks[p]) {
        assert x < Entered(w.ranks[q]);
      } else {
        assert p == a.p && x == Completed(w.ranks[p]);
      }
    }
  }

  lemma StepKeepsFlights(c: Setup, w: World, a: Action)
    requires RanksAreWellFormed(c, w) && FlightsAreCurrent(c, w) && CanDo(c, w, a)
    ensures RanksAreWellFormed(c, Do(c, w, a)) && FlightsAreCurrent(c, Do(c, w, a))
  {
    StepKeepsRanks(c, w, a);
    var w' := Do(c, w, a);
    forall m | m in w'.inFlight
      ensures m.from < c.n && MayHaveInFlight(w'.ranks[m.from]) && m.round == w'.ranks[m.from].round
      ensures m.index < w'.ranks[m.from].sent
    {
      assert m == Message(m.round, m.from, m.index);
    }
  }

  /** Only a send changes how many have been posted. */
  lemma StepKeepsPosted(c: Setup, w: World, a: Action, r: nat, f: nat)
    requires RanksAreWellFormed(c, w) && CanDo(c, w, a) && f < c.n
    ensures RanksAreWellFormed(c, Do(c, w, a))
    ensures Posted(c, Do(c, w, a), r, f) ==
      Posted(c, w, r, f) + if a.Send? && a.p == f && r == w.ranks[f].round then 1 else 0
  {
    StepKeepsRanks(c, w, a);
    assert RankIsWellFormed(c, w.ranks[a.p], a.p);
  }

  /** Only a receive changes what has been received. */
  lemma StepKeepsReceived(c: Setup, w: World, a: Action, r: nat, f: nat, q: nat)
    requires RanksAreWellFormed(c, w) && FlightsAreCurrent(c, w) && CanDo(c, w, a) && f < c.n && q < c.n
    ensures RanksAreWellFormed(c, Do(c, w, a))
    ensures Received(c, Do(c, w, a), r, f, q) ==
      Received(c, w, r, f, q) +
      if a.Receive? && a.p == q && a.m.round == r && a.m.from == f then {a.m.index} else {}
    ensures a.Receive? && a.p == q && a.m.round == r && a.m.from == f ==> a.m.index !in Received(c, w, r, f, q)
  {
    StepKeepsPosted(c, w, a, r, f);
    var before, after := Received(c, w, r, f, q), Received(c, Do(c, w, a), r, f, q);
    var extra: set<nat> := if a.Receive? && a.p == q && a.m.round == r && a.m.from == f then {a.m.index} else {};
    forall i: nat | i in after
      ensures i in before + extra
    {
      if Message(r, f, i) in w.inFlight {
        assert a.Receive? ==> Message(r, f, i) == a.m;
      }
    }
    forall i: nat | i in before + extra
      ensures i in after
    {
    }
  }

  lemma ReceiveKeepsCounts(c: Setup, w: World, a: Action, f: nat)
    requires Invariant(c, w) && CanDo(c, w, a) && a.Receive? && f < c.n
    ensures RanksAreWellFormed(c, Do(c, w, a)) && CountsAgree(c, Do(c, w, a), a.p, f)
  {
    assert CountsAgree(c, w, a.p, f);
    StepKeepsReceived(c, w, a, w.ranks[a.p].round, f, a.p);
    SendersAreInTheSameCall(c, w, a.p, a.m.from);
  }

  lemma LeavingKeepsCounts(c: Setup, w: World, a: Action, f: nat)
    requires Invariant(c, w) && CanDo(c, w, a) && a.PassLast? && f < c.n
    ensures RanksAreWellFormed(c, Do(c, w, a)) && CountsAgree(c, Do(c, w, a), a.p, f)
  {
    StepKeepsReceived(c, w, a, w.ranks[a.p].round + 1, f, a.p);
    assert NoneReceived(c, w, w.ranks[a.p].round + 1, f, a.p);
  }

  lemma StepKeepsCounts(c: Setup, w: World, a: Action, q: nat, f: nat)
    requires Invariant(c, w) && CanDo(c, w, a) && q < c.n && f < c.n
    ensures RanksAreWellFormed(c, Do(c, w, a)) && CountsAgree(c, Do(c, w, a), q, f)
  {
    if a.PassLast? && a.p == q {
      LeavingKeepsCounts(c, w, a, f);
    } else if a.Receive? && a.p == q {
      ReceiveKeepsCounts(c, w, a, f);
    } else {
      assert CountsAgree(c, w, q, f);
      assert RankIsWellFormed(c, w.ranks[a.p], a.p);
      StepKeepsReceived(c, w, a, w.ranks[q].round, f, q);
    }
  }

  lemma StepKeepsNoneReceived(c: Setup, w: World, a: Action, r: nat, f: nat, q: nat)
    requires Invariant(c, w) && CanDo(c, w, a) && q < c.n && f < c.n && Do(c, w, a).ranks[q].round < r
    ensures RanksAreWellFormed(c, Do(c, w, a)) && NoneReceived(c, Do(c, w, a), r, f, q)
  {
    StepKeepsReceived(c, w, a, r, f, q);
    assert NoneReceived(c, w, r, f, q);
    if a.Receive? && a.p == q {
      SendersAreInTheSameCall(c, w, q, a.m.from);
    }
  }

  // ----- what is returned -----

  lemma CountIndices(s: seq<nat>, x: nat)
    ensures |set i: nat | i < |s| && s[i] == x| == multiset(s)[x]
  {
    var at := set i: nat | i < |s| && s[i] == x;
    if s != [] {
      var n := |s| - 1;
      var front := s[..n];
      assert s == front + [s[n]];
      CountIndices(front, x);
      var before := set i: nat | i < |front| && front[i] == x;
      assert at == before + if s[n] == x then {n} else {};
    }
  }

  /** Past the nonblocking barrier of call `r`, all messages of that call have been posted and received. */
  lemma AllIsReceived(c: Setup, w: World, p: nat, r: nat, f: nat, q: nat)
    requires Invariant(c, w) && p < c.n && f < c.n && q < c.n && 3 * r + 1 < Completed(w.ranks[p])
    ensures |Received(c, w, r, f, q)| == multiset(c.dests(r, f))[q]
    ensures forall i :: Message(r, f, i) !in w.inFlight
  {
    PastTheBarrier(c, w, p, f, r);
    assert RankIsWellFormed(c, w.ranks[f], f);
    assert Posted(c, w, r, f) == |c.dests(r, f)|;
    CountIndices(c.dests(r, f), q);
    assert Received(c, w, r, f, q) == set i: nat | i < |c.dests(r, f)| && c.dests(r, f)[i] == q;
  }

  lemma {:induction false} SourcesAreExact(c: Setup, w: World, p: nat, q: nat, r: nat)
    requires Invariant(c, w) && p < c.n && q < c.n && 3 * r + 1 < Completed(w.ranks[p]) && w.ranks[q].round == r
    ensures Sort(w.ranks[q].sources) == NamedBy(c, r, q, c.n)
  {
    var sources: seq<nat>, expected: seq<nat> := w.ranks[q].sources, NamedBy(c, r, q, c.n);
    forall f: nat
      ensures multiset(sources)[f] == multiset(expected)[f]
    {
      NamedByCounts(c, r, q, c.n, f);
      if f < c.n {
        AllIsReceived(c, w, p, r, f, q);
        assert CountsAgree(c, w, q, f);
      } else {
        assert f !in sources;
      }
    }
    assert multiset(sources) == multiset(expected);
    SortIsSorted(sources);
    NamedByIsSorted(c, r, q, c.n);
    SortedIsUnique(Sort(sources), NamedBy(c, r, q, c.n));
  }

  lemma StepKeepsResults(c: Setup, w: World, a: Action)
    requires Invariant(c, w) && CanDo(c, w, a)
    ensures RanksAreWellFormed(c, Do(c, w, a)) && ResultsAreExact(c, Do(c, w, a))
  {
    hide CollectivesAgree, FlightsAreCurrent, SourcesAreReceived, SourcesAreRanks, NamedBy, Sort, IsAddressedTo,
      MayComplete;
    StepKeepsRanks(c, w, a);
    assert RankIsWellFormed(c, w.ranks[a.p], a.p);
    if a.PassLast? {
      SourcesAreExact(c, w, a.p, a.p, w.ranks[a.p].round);
    }
  }

  lemma StepKeepsInvariant(c: Setup, w: World, a: Action)
    requires Invariant(c, w) && CanDo(c, w, a)
    ensures Invariant(c, Do(c, w, a))
  {
    var w' := Do(c, w, a);
    StepKeepsRanks(c, w, a);
    StepKeepsCollectives(c, w, a);
    StepKeepsFlights(c, w, a);
    StepKeepsResults(c, w, a);
    forall q, f | 0 <= q < c.n && 0 <= f < c.n
      ensures CountsAgree(c, w', q, f)
    {
      StepKeepsCounts(c, w, a, q, f);
    }
    forall q, f, r: nat | 0 <= q < c.n && 0 <= f < c.n && w'.ranks[q].round < r
      ensures NoneReceived(c, w', r, f, q)
    {
      StepKeepsNoneReceived(c, w, a, r, f, q);
    }
    assert SourcesAreRanks(c, w');
  }

  lemma InvariantHoldsAt(c: Setup, run: seq<World>, i: nat)
    requires c.Valid() && (c.before || c.after) && IsRun(c, run) && i < |run|
    ensures Invariant(c, run[i])
  {
    if i == 0 {
      assert forall q, f, r: nat :: 0 <= q < c.n && 0 <= f < c.n ==> Received(c, run[0], r, f, q) == {};
    } else {
      InvariantHoldsAt(c, run, i - 1);
      assert IsRunStep(c, run, i - 1);
      var a :| CanDo(c, run[i - 1], a) && run[i] == Do(c, run[i - 1], a);
      StepKeepsInvariant(c, run[i - 1], a);
    }
  }

  // ----- main results: safety -----

  lemma ReachableIsInvariant(c: Setup, w: World)
    requires c.Valid() && (c.before || c.after) && IsReachable(c, w)
    ensures Invariant(c, w)
  {
    var run :| IsRun(c, run) && run[|run| - 1] == w;
    InvariantHoldsAt(c, run, |run| - 1);
  }

  /** Whatever the interleaving, every call returns to every rank exactly the ranks that named it. */
  lemma {:induction false} CallsReturnWhoNamedThem(c: Setup, w: World, q: nat, r: nat)
    requires c.Valid() && (c.before || c.after) && IsReachable(c, w)
    requires q < |w.ranks| && r < w.ranks[q].round
    ensures r < |w.ranks[q].results| && w.ranks[q].results[r] == NamedBy(c, r, q, c.n)
  {
    ReachableIsInvariant(c, w);
    assert RankIsWellFormed(c, w.ranks[q], q);
  }

  /** Once any rank has left the polling loop of call `r`, none of its messages is in flight, and every
      rank in that call has all its sources. */
  lemma LeavingMeansAllReceived(c: Setup, w: World, p: nat, r: nat)
    requires c.Valid() && (c.before || c.after) && IsReachable(c, w)
    requires p < |w.ranks| && (r < w.ranks[p].round || (r == w.ranks[p].round && w.ranks[p].pc.InLastBarrier?))
    ensures forall m :: m in w.inFlight ==> m.round != r
    ensures forall q: nat :: q < |w.ranks| && w.ranks[q].round == r ==>
      Sort(w.ranks[q].sources) == NamedBy(c, r, q, c.n)
  {
    ReachableIsInvariant(c, w);
    forall m | m in w.inFlight
      ensures m.round != r
    {
      AllIsReceived(c, w, p, r, m.from, 0);
      assert m == Message(m.round, m.from, m.index);
    }
    forall q: nat | q < |w.ranks| && w.ranks[q].round == r
      ensures Sort(w.ranks[q].sources) == NamedBy(c, r, q, c.n)
    {
      SourcesAreExact(c, w, p, q, r);
    }
  }

  /** No rank receives a message of another call than the one it is in. */
  lemma CallsDoNotMix(c: Setup, w: World, p: nat, m: Message)
    requires c.Valid() && (c.before || c.after) && IsReachable(c, w) && CanDo(c, w, Receive(p, m))
    ensures m.round == w.ranks[p].round
  {
    ReachableIsInvariant(c, w);
    SendersAreInTheSameCall(c, w, p, m.from);
  }

  // ----- one barrier is needed -----

  lemma StepIsReachable(c: Setup, w: World, a: Action) returns (w': World)
    requires IsReachable(c, w) && CanDo(c, w, a)
    ensures w' == Do(c, w, a) && IsReachable(c, w')
  {
    w' := Do(c, w, a);
    var run :| IsRun(c, run) && run[|run| - 1] == w;
    var longer := run + [w'];
    forall i
      ensures IsRunStep(c, longer, i)
    {
      if 0 <= i < |run| - 1 {
        assert IsRunStep(c, run, i);
        var b :| CanDo(c, run[i], b) && run[i + 1] == Do(c, run[i], b);
        assert longer[i] == run[i] && longer[i + 1] == run[i + 1];
      } else if i == |run| - 1 {
        assert longer[i] == w && longer[i + 1] == Do(c, w, a);
      }
    }
    assert IsRun(c, longer) && longer[|longer| - 1] == w';
  }

  ghost function TwoRanksNoBarriers(): Setup {
    Setup(2, 2, (r: nat, p: nat) => if r == 1 && p == 0 then [1] else [], false, false)
  }

  /** Rank `p`, which has no destinations in its call, goes from outside it to having entered the
      nonblocking barrier. */
  lemma GoToBarrier(w: World, p: nat) returns (w': World)
    requires var c := TwoRanksNoBarriers(); IsReachable(c, w) && p < |w.ranks| && w.inFlight == {}
    requires w.ranks[p] == Rank(0, Outside, 0, false, [], [])
    ensures var c := TwoRanksNoBarriers(); IsReachable(c, w')
    ensures w' == World(w.ranks[p := Rank(0, AtProbe, 0, true, [], [])], {})
  {
    var c := TwoRanksNoBarriers();
    w' := StepIsReachable(c, w, Enter(p));
    w' := StepIsReachable(c, w', PassFirst(p));
    w' := StepIsReachable(c, w', StartPolling(p));
    w' := StepIsReachable(c, w', NoMessage(p));
    w' := StepIsReachable(c, w', AllReceived(p));
  }

  /** Rank 0 goes through the barrier and sends to rank 1 in its next call. */
  lemma SendInNextCall(w: World) returns (w': World)
    requires var c := TwoRanksNoBarriers(); IsReachable(c, w)
    requires w == World(seq(2, _ => Rank(0, AtProbe, 0, true, [], [])), {})
    ensures var c := TwoRanksNoBarriers(); IsReachable(c, w')
    ensures |w'.ranks| == 2 && w'.ranks[1] == w.ranks[1] && w'.inFlight == {Message(1, 0, 0)}
  {
    hide IsReachable;
    var c := TwoRanksNoBarriers();
    w' := StepIsReachable(c, w, NoMessage(0));
    w' := StepIsReachable(c, w', GloballyDone(0));
    w' := StepIsReachable(c, w', PassLast(0));
    w' := StepIsReachable(c, w', Enter(0));
    w' := StepIsReachable(c, w', PassFirst(0));
    w' := StepIsReachable(c, w', Send(0));
  }

  /** With neither barrier a rank can receive, in one call, a message of the next. */
  lemma WithoutBarriersCallsMayMix() returns (c: Setup, w: World, p: nat, m: Message)
    ensures c.Valid() && !c.before && !c.after
    ensures IsReachable(c, w) && CanDo(c, w, Receive(p, m)) && m.round != w.ranks[p].round
  {
    c := TwoRanksNoBarriers();
    w := Initial(c);
    assert IsRun(c, [w]) && [w][|[w]| - 1] == w;
    w := GoToBarrier(w, 0);
    w := GoToBarrier(w, 1);
    assert w.ranks == seq(2, _ => Rank(0, AtProbe, 0, true, [], []));
    w := SendInNextCall(w);
    p, m := 1, Message(1, 0, 0);
  }

  // ----- main results: progress -----

  /** The steps of one call of one rank, with two for each message: one to send and one to receive it. */
  ghost function CallWork(c: Setup, r: nat, p: nat): nat {
    6 + 2 * |c.dests(r, p)|
  }

  ghost function WorkFrom(c: Setup, p: nat, r: nat): nat
    decreases c.rounds - r
  {
    if c.rounds <= r then 0 else CallWork(c, r, p) + WorkFrom(c, p, r + 1)
  }

  ghost function WorkOf(c: Setup, k: Rank, p: nat): int {
    if k.pc.Outside? then WorkFrom(c, p, k.round)
    else
      WorkFrom(c, p, k.round + 1) +
      match k.pc
      case InFirstBarrier => 5 + 2 * |c.dests(k.round, p)|
      case Sending => 4 + 2 * (|c.dests(k.round, p)| - k.sent)
      case InLastBarrier => 1
      case _ => if k.locallyDone then 2 else 3
  }

  ghost function TotalWork(c: Setup, w: World, n: nat): int
    requires n <= |w.ranks|
  {
    if n == 0 then |w.inFlight| else TotalWork(c, w, n - 1) + WorkOf(c, w.ranks[n - 1], n - 1)
  }

  predicate IsIdle(a: Action) {
    a.NoMessage? || a.SomeNotReceived? || a.NotGloballyDone?
  }

  lemma {:induction false} TotalFollowsRank(c: Setup, w: World, a: Action, n: nat)
    requires CanDo(c, w, a) && n <= |w.ranks|
    ensures TotalWork(c, Do(c, w, a), n) - |Do(c, w, a).inFlight| ==
      TotalWork(c, w, n) - |w.inFlight| +
      if a.p < n then WorkOf(c, RankAfter(w.ranks[a.p], a), a.p) - WorkOf(c, w.ranks[a.p], a.p) else 0
  {
    if n > 0 {
      TotalFollowsRank(c, w, a, n - 1);
    }
  }

  lemma {:induction false} WorkIsNotNegative(c: Setup, w: World, n: nat)
    requires RanksAreWellFormed(c, w) && n <= c.n
    ensures |w.inFlight| <= TotalWork(c, w, n)
  {
    if n > 0 {
      WorkIsNotNegative(c, w, n - 1);
      assert RankIsWellFormed(c, w.ranks[n - 1], n - 1);
    }
  }

  lemma WorkOfStep(c: Setup, w: World, a: Action)
    requires RanksAreWellFormed(c, w) && CanDo(c, w, a)
    ensures WorkOf(c, RankAfter(w.ranks[a.p], a), a.p) ==
      WorkOf(c, w.ranks[a.p], a.p) - if IsIdle(a) || a.Receive? then 0 else if a.Send? then 2 else 1
  {
    assert RankIsWellFormed(c, w.ranks[a.p], a.p);
  }

  lemma FlightsOfStep(c: Setup, w: World, a: Action)
    requires RanksAreWellFormed(c, w) && FlightsAreCurrent(c, w) && CanDo(c, w, a)
    ensures |Do(c, w, a).inFlight| ==
      |w.inFlight| + if a.Send? then 1 else if a.Receive? then -1 else 0
  {
    assert a.Send? ==> Message(w.ranks[a.p].round, a.p, w.ranks[a.p].sent) !in w.inFlight;
  }

  /** Every step but an idle one takes exactly one off the work that is left, and an idle one none. */
  lemma {:induction false} StepsDoTheWork(c: Setup, w: World, a: Action)
    requires Invariant(c, w) && CanDo(c, w, a)
    ensures 0 <= TotalWork(c, w, c.n)
    ensures TotalWork(c, Do(c, w, a), c.n) == TotalWork(c, w, c.n) - if IsIdle(a) then 0 else 1
  {
    WorkIsNotNegative(c, w, c.n);
    TotalFollowsRank(c, w, a, c.n);
    WorkOfStep(c, w, a);
    FlightsOfStep(c, w, a);
  }

  ghost predicate IsFinished(c: Setup, k: Rank) {
    k.round == c.rounds
  }

  /** Some step that does work is possible, at once or after an idle one. */
  ghost predicate CanProceed(c: Setup, w: World) {
    || (exists a :: DoesWork(c, w, a))
    || (exists b, a :: DoesWorkAfter(c, w, b, a))
  }

  ghost predicate DoesWork(c: Setup, w: World, a: Action) {
    !IsIdle(a) && CanDo(c, w, a)
  }

  ghost predicate DoesWorkAfter(c: Setup, w: World, b: Action, a: Action) {
    IsIdle(b) && CanDo(c, w, b) && DoesWork(c, Do(c, w, b), a)
  }

  /** A message in flight can be received, or its destination can go on to where it can. */
  lemma FlightsCanProceed(c: Setup, w: World, m: Message)
    requires Invariant(c, w) && m in w.inFlight
    ensures CanProceed(c, w)
  {
    var f := m.from;
    var q := c.dests(m.round, f)[m.index];
    var k := w.ranks[q];
    assert RankIsWellFormed(c, k, q) && RankIsWellFormed(c, w.ranks[f], f);
    if m.round < k.round {
      PastTheBarrier(c, w, q, f, m.round);
    }
    match k.pc
    case Outside =>
      assert DoesWork(c, w, Enter(q));
    case InFirstBarrier =>
      if c.before {
        assert IsPresent(c, 3 * k.round) && 3 * k.round < Completed(w.ranks[f]);
      }
      assert DoesWork(c, w, PassFirst(q));
    case Sending =>
      assert DoesWork(c, w, Send(q)) || DoesWork(c, w, StartPolling(q));
    case AtProbe =>
      assert DoesWork(c, w, Receive(q, m));
    case AtTest =>
      var b := if k.locallyDone then NotGloballyDone(q) else SomeNotReceived(q);
      assert DoesWorkAfter(c, w, b, Receive(q, m));
    case InLastBarrier =>
      if c.after {
        if k.round == m.round {
          PastTheBarrier(c, w, q, f, m.round);
        }
        assert IsPresent(c, 3 * k.round + 2) && 3 * k.round + 2 < Completed(w.ranks[f]);
      }
      assert DoesWork(c, w, PassLast(q));
  }

  lemma LeastCompleted(w: World, n: nat) returns (p: nat)
    requires 0 < n <= |w.ranks|
    ensures p < n && forall q :: 0 <= q < n ==> Completed(w.ranks[p]) <= Completed(w.ranks[q])
  {
    p := 0;
    if n > 1 {
      p := LeastCompleted(w, n - 1);
      if Completed(w.ranks[n - 1]) < Completed(w.ranks[p]) {
        p := n - 1;
      }
    }
  }

  /** Waiting in a collective operation. */
  ghost predicate IsWaiting(k: Rank) {
    k.pc.InFirstBarrier? || ((k.pc.AtProbe? || k.pc.AtTest?) && k.locallyDone) || k.pc.InLastBarrier?
  }

  /** Among ranks that all wait, the one that is furthest behind can go on. */
  lemma LastCanProceed(c: Setup, w: World, u: nat)
    requires Invariant(c, w) && u < c.n && !IsFinished(c, w.ranks[u])
    requires forall q :: 0 <= q < c.n ==> IsFinished(c, w.ranks[q]) || IsWaiting(w.ranks[q])
    ensures CanProceed(c, w)
  {
    assert RankIsWellFormed(c, w.ranks[u], u);
    var p := LeastCompleted(w, c.n);
    var k := w.ranks[p];
    assert RankIsWellFormed(c, k, p);
    assert Completed(w.ranks[u]) < 3 * c.rounds;
    forall q | 0 <= q < c.n
      ensures Completed(k) < Entered(w.ranks[q])
    {
      assert RankIsWellFormed(c, w.ranks[q], q);
    }
    assert MayComplete(w, Completed(k));
    if k.pc.InFirstBarrier? {
      assert DoesWork(c, w, PassFirst(p));
    } else if k.pc.InLastBarrier? {
      assert DoesWork(c, w, PassLast(p));
    } else if k.pc.AtTest? {
      assert DoesWork(c, w, GloballyDone(p));
    } else {
      NoMessageThenDone(c, w, p);
    }
  }

  lemma NoMessageThenDone(c: Setup, w: World, p: nat)
    requires Invariant(c, w) && p < c.n && w.ranks[p].pc.AtProbe? && w.ranks[p].locallyDone
    requires MayComplete(w, 3 * w.ranks[p].round + 1)
    ensures CanProceed(c, w)
  {
    var w' := Do(c, w, NoMessage(p));
    assert MayComplete(w', 3 * w.ranks[p].round + 1);
    assert DoesWorkAfter(c, w, NoMessage(p), GloballyDone(p));
  }

  /** From every reachable state in which some rank has calls left, work can be done: with the steps'
      doing all the work there is, no run can get stuck. */
  lemma NobodyIsStuck(c: Setup, w: World, u: nat)
    requires c.Valid() && (c.before || c.after) && IsReachable(c, w)
    requires u < |w.ranks| && !IsFinished(c, w.ranks[u])
    ensures CanProceed(c, w)
  {
    hide IsReachable;
    ReachableIsInvariant(c, w);
    if m :| m in w.inFlight {
      FlightsCanProceed(c, w, m);
    } else if p :| 0 <= p < c.n && !IsFinished(c, w.ranks[p]) && !IsWaiting(w.ranks[p]) {
      var k := w.ranks[p];
      assert RankIsWellFormed(c, k, p);
      match k.pc
      case Outside => assert DoesWork(c, w, Enter(p));
      case Sending => assert DoesWork(c, w, Send(p)) || DoesWork(c, w, StartPolling(p));
      case AtTest => assert DoesWork(c, w, AllReceived(p));
      case AtProbe => assert DoesWorkAfter(c, w, NoMessage(p), AllReceived(p));
    } else {
      LastCanProceed(c, w, u);
    }
  }
}
