/** Splitting cavities by the colour of their elements (`separate_by_color`): it ends, loses no element,
    and gives parts of one colour exactly where the new elements that no old one sets the colour of agree. */
module Separation {

  /** The old and the new elements of one cavity. */
  datatype Cavity = Cavity(olds: seq<nat>, news: seq<nat>)

  /** One cavity for each key. */
  type Cavs = seq<Cavity>

  /** The elements of one colour, in order, or all others. */
  function OfColor(elems: seq<nat>, colors: seq<int>, color: int, same: bool): (kept: seq<nat>)
    ensures |kept| <= |elems|
  {
    if elems == [] then []
    else
      var e := elems[0];
      (if (e < |colors| && colors[e] == color) == same then [e] else []) + OfColor(elems[1..], colors, color, same)
  }

  lemma {:induction false} ColorIsKept(elems: seq<nat>, colors: seq<int>, color: int)
    ensures forall e :: e in OfColor(elems, colors, color, true) ==> e < |colors| && colors[e] == color
  {
    if elems != [] {
      ColorIsKept(elems[1..], colors, color);
    }
  }

  lemma OneMore(x: nat, some: seq<nat>, others: seq<nat>, rest: seq<nat>)
    requires multiset(some) + multiset(others) == multiset(rest)
    ensures multiset([x] + some) + multiset(others) == multiset([x] + rest)
    ensures multiset(some) + multiset([x] + others) == multiset([x] + rest)
  {
  }

  /** The first one goes to the one side or the other. */
  lemma {:induction false} FirstGoesTo(elems: seq<nat>, colors: seq<int>, color: int)
    ensures var kept, left := OfColor(elems, colors, color, true), OfColor(elems, colors, color, false);
      if elems == [] then kept == left == []
      else
        var some, others := OfColor(elems[1..], colors, color, true), OfColor(elems[1..], colors, color, false);
        (kept == [elems[0]] + some && left == others) || (kept == some && left == [elems[0]] + others)
  {
  }

  lemma {:induction false} ColorsPartition(elems: seq<nat>, colors: seq<int>, color: int)
    ensures multiset(OfColor(elems, colors, color, true)) + multiset(OfColor(elems, colors, color, false)) ==
      multiset(elems)
    ensures |OfColor(elems, colors, color, true)| + |OfColor(elems, colors, color, false)| == |elems|
    ensures forall e :: e in OfColor(elems, colors, color, true) ==> e < |colors| && colors[e] == color
  {
    hide OfColor;
    ColorIsKept(elems, colors, color);
    FirstGoesTo(elems, colors, color);
    if elems != [] {
      var rest := elems[1..];
      ColorsPartition(rest, colors, color);
      OneMore(elems[0], OfColor(rest, colors, color, true), OfColor(rest, colors, color, false), rest);
      assert elems == [elems[0]] + rest;
    }
  }

  predicate IsColored(elems: seq<nat>, colors: seq<int>) {
    forall i :: 0 <= i < |elems| ==> elems[i] < |colors|
  }

  predicate CavsAreColored(cavs: Cavs, oldColors: seq<int>, newColors: seq<int>) {
    forall k :: 0 <= k < |cavs| ==> IsColored(cavs[k].olds, oldColors) && IsColored(cavs[k].news, newColors)
  }

  /** The part of a cavity that is split off: the elements that have the colour of its first old element.
      Without old elements it is all of it. */
  function Separated(c: Cavity, oldColors: seq<int>, newColors: seq<int>): Cavity
    requires IsColored(c.olds, oldColors)
  {
    if c.olds == [] then c
    else
      var color := oldColors[c.olds[0]];
      Cavity(OfColor(c.olds, oldColors, color, true), OfColor(c.news, newColors, color, true))
  }

  function Remainder(c: Cavity, oldColors: seq<int>, newColors: seq<int>): Cavity
    requires IsColored(c.olds, oldColors)
  {
    if c.olds == [] then Cavity([], [])
    else
      var color := oldColors[c.olds[0]];
      Cavity(OfColor(c.olds, oldColors, color, false), OfColor(c.news, newColors, color, false))
  }

  ghost predicate HasColor(c: Cavity, oldColors: seq<int>, newColors: seq<int>, color: int) {
    && (forall e :: e in c.olds ==> e < |oldColors| && oldColors[e] == color)
    && (forall e :: e in c.news ==> e < |newColors| && newColors[e] == color)
  }

  /** All elements of the part have one colour. */
  ghost predicate IsOneColor(c: Cavity, oldColors: seq<int>, newColors: seq<int>) {
    exists color :: HasColor(c, oldColors, newColors, color)
  }

  /** No old element of the cavity has the colour of `e`, a new one. */
  ghost predicate IsUncovered(c: Cavity, oldColors: seq<int>, newColors: seq<int>, e: nat) {
    && e in c.news && e < |newColors|
    && forall o :: o in c.olds && o < |oldColors| ==> oldColors[o] != newColors[e]
  }

  ghost predicate UncoveredAgree(c: Cavity, oldColors: seq<int>, newColors: seq<int>) {
    forall e: nat, f: nat :: IsUncovered(c, oldColors, newColors, e) && IsUncovered(c, oldColors, newColors, f) ==>
      newColors[e] == newColors[f]
  }

  ghost predicate HaveSameUncovered(c: Cavity, left: Cavity, oldColors: seq<int>, newColors: seq<int>) {
    forall e: nat :: IsUncovered(c, oldColors, newColors, e) <==> IsUncovered(left, oldColors, newColors, e)
  }

  lemma {:induction false} KeptHasColor(elems: seq<nat>, colors: seq<int>, color: int, same: bool, e: nat)
    ensures e in OfColor(elems, colors, color, same) <==>
      e in elems && ((e < |colors| && colors[e] == color) == same)
  {
    if elems != [] {
      KeptHasColor(elems[1..], colors, color, same, e);
      assert elems == [elems[0]] + elems[1..];
    }
  }

  /** Taking out a colour that an old element has leaves the same new elements uncovered. */
  lemma RemainderHasSameUncovered(c: Cavity, oldColors: seq<int>, newColors: seq<int>)
    requires IsColored(c.olds, oldColors) && IsColored(c.news, newColors) && c.olds != []
    ensures HaveSameUncovered(c, Remainder(c, oldColors, newColors), oldColors, newColors)
  {
    var r, color := Remainder(c, oldColors, newColors), oldColors[c.olds[0]];
    forall e: nat
      ensures IsUncovered(c, oldColors, newColors, e) <==> IsUncovered(r, oldColors, newColors, e)
    {
      KeptHasColor(c.news, newColors, color, false, e);
      forall o: nat
        ensures o in r.olds <==> o in c.olds && !(o < |oldColors| && oldColors[o] == color)
      {
        KeptHasColor(c.olds, oldColors, color, false, o);
      }
      assert c.olds[0] in c.olds;
    }
  }

  /** Without old elements to set the colour, the new ones are not told apart: they have one colour just if
      they agree. */
  lemma WholeIsOneColor(c: Cavity, oldColors: seq<int>, newColors: seq<int>)
    requires c.olds == [] && IsColored(c.news, newColors)
    ensures IsOneColor(c, oldColors, newColors) <==> UncoveredAgree(c, oldColors, newColors)
  {
    if IsOneColor(c, oldColors, newColors) {
      var color :| HasColor(c, oldColors, newColors, color);
    }
    if UncoveredAgree(c, oldColors, newColors) {
      var color := if c.news == [] then 0 else newColors[c.news[0]];
      forall e | e in c.news
        ensures e < |newColors| && newColors[e] == color
      {
        assert c.news[0] in c.news;
        assert IsUncovered(c, oldColors, newColors, e) && IsUncovered(c, oldColors, newColors, c.news[0]);
      }
      assert HasColor(c, oldColors, newColors, color);
    }
  }

  lemma SeparatedIsOneColor(c: Cavity, oldColors: seq<int>, newColors: seq<int>)
    requires IsColored(c.olds, oldColors) && c.olds != []
    ensures IsOneColor(Separated(c, oldColors, newColors), oldColors, newColors)
    ensures Separated(c, oldColors, newColors).olds != []
  {
    var color := oldColors[c.olds[0]];
    ColorsPartition(c.olds, oldColors, color);
    ColorsPartition(c.news, newColors, color);
    assert HasColor(Separated(c, oldColors, newColors), oldColors, newColors, color);
    KeptHasColor(c.olds, oldColors, color, true, c.olds[0]);
  }

  lemma SubsetStaysColored(elems: seq<nat>, part: seq<nat>, colors: seq<int>)
    requires IsColored(elems, colors) && multiset(part) <= multiset(elems)
    ensures IsColored(part, colors)
  {
    forall i | 0 <= i < |part|
      ensures part[i] < |colors|
    {
      assert part[i] in multiset(part);
      assert part[i] in elems;
    }
  }

  /** The two parts hold the elements of the cavity between them, and the second has fewer unless the
      cavity has none. */
  lemma SeparationPartitions(c: Cavity, oldColors: seq<int>, newColors: seq<int>)
    requires IsColored(c.olds, oldColors) && IsColored(c.news, newColors)
    ensures var s, r := Separated(c, oldColors, newColors), Remainder(c, oldColors, newColors);
      && multiset(s.olds) + multiset(r.olds) == multiset(c.olds)
      && multiset(s.news) + multiset(r.news) == multiset(c.news)
      && IsColored(r.olds, oldColors) && IsColored(r.news, newColors)
      && |r.olds| + |r.news| <= |c.olds| + |c.news|
      && (|c.olds| + |c.news| > 0 ==> |r.olds| + |r.news| < |c.olds| + |c.news|)
  {
    if c.olds != [] {
      var color := oldColors[c.olds[0]];
      ColorsPartition(c.olds, oldColors, color);
      ColorsPartition(c.news, newColors, color);
      assert OfColor(c.olds, oldColors, color, true) != [];
      SubsetStaysColored(c.olds, OfColor(c.olds, oldColors, color, false), oldColors);
      SubsetStaysColored(c.news, OfColor(c.news, newColors, color, false), newColors);
    }
  }

  method SeparateByColorOnce(cavs: Cavs, oldColors: seq<int>, newColors: seq<int>)
    returns (separated: Cavs, remainder: Cavs)
    requires CavsAreColored(cavs, oldColors, newColors)
    ensures |separated| == |remainder| == |cavs|
    ensures forall k :: 0 <= k < |cavs| ==>
      && separated[k] == Separated(cavs[k], oldColors, newColors)
      && remainder[k] == Remainder(cavs[k], oldColors, newColors)
  {
    separated, remainder := [], [];
    for key := 0 to |cavs|
      invariant |separated| == |remainder| == key
      invariant forall k :: 0 <= k < key ==>
        separated[k] == Separated(cavs[k], oldColors, newColors)
        && remainder[k] == Remainder(cavs[k], oldColors, newColors)
    {
      separated := separated + [Separated(cavs[key], oldColors, newColors)];
      remainder := remainder + [Remainder(cavs[key], oldColors, newColors)];
    }
  }

  /** The number of elements of all cavities, old and new. */
  function Edges(cavs: Cavs): nat {
    if cavs == [] then 0 else |cavs[0].olds| + |cavs[0].news| + Edges(cavs[1..])
  }

  lemma {:induction false} EdgesShrink(cavs: Cavs, rest: Cavs, oldColors: seq<int>, newColors: seq<int>)
    requires CavsAreColored(cavs, oldColors, newColors) && |rest| == |cavs|
    requires forall k :: 0 <= k < |cavs| ==> rest[k] == Remainder(cavs[k], oldColors, newColors)
    ensures CavsAreColored(rest, oldColors, newColors)
    ensures Edges(rest) <= Edges(cavs) && (Edges(cavs) > 0 ==> Edges(rest) < Edges(cavs))
  {
    if cavs != [] {
      SeparationPartitions(cavs[0], oldColors, newColors);
      EdgesShrink(cavs[1..], rest[1..], oldColors, newColors);
    }
  }

  lemma {:induction false} NoEdgesNoElements(cavs: Cavs, k: nat)
    requires Edges(cavs) == 0 && k < |cavs|
    ensures cavs[k] == Cavity([], [])
  {
    if k > 0 {
      NoEdgesNoElements(cavs[1..], k - 1);
    }
  }

  /** The elements that key `k` has in all the parts. */
  ghost function OldElems(parts: seq<Cavs>, k: nat): multiset<nat> {
    if parts == [] then multiset{}
    else OldElems(parts[..|parts| - 1], k)
         + if k < |parts[|parts| - 1]| then multiset(parts[|parts| - 1][k].olds) else multiset{}
  }

  ghost function NewElems(parts: seq<Cavs>, k: nat): multiset<nat> {
    if parts == [] then multiset{}
    else NewElems(parts[..|parts| - 1], k)
         + if k < |parts[|parts| - 1]| then multiset(parts[|parts| - 1][k].news) else multiset{}
  }

  /** The parts of all rounds so far, with what is left, hold the elements of the cavity. */
  ghost predicate IsPartition(parts: seq<Cavs>, left: Cavity, k: nat, c: Cavity) {
    && OldElems(parts, k) + multiset(left.olds) == multiset(c.olds)
    && NewElems(parts, k) + multiset(left.news) == multiset(c.news)
  }

  ghost predicate AllAreOneColor(parts: seq<Cavs>, k: nat, oldColors: seq<int>, newColors: seq<int>) {
    forall r :: 0 <= r < |parts| && k < |parts[r]| ==> IsOneColor(parts[r][k], oldColors, newColors)
  }

  /** What is known of the colours of the parts while something is left of the cavity, and after that. */
  ghost predicate IsJudged(
      c: Cavity, left: Cavity, parts: seq<Cavs>, k: nat, oldColors: seq<int>, newColors: seq<int>)
  {
    || (AllAreOneColor(parts, k, oldColors, newColors) && HaveSameUncovered(c, left, oldColors, newColors))
    || (left == Cavity([], [])
        && (AllAreOneColor(parts, k, oldColors, newColors) <==> UncoveredAgree(c, oldColors, newColors)))
  }

  lemma AllAreOneColorOnce(
      parts: seq<Cavs>, part: Cavs, k: nat, oldColors: seq<int>, newColors: seq<int>)
    requires k < |part|
    ensures AllAreOneColor(parts + [part], k, oldColors, newColors) <==>
      AllAreOneColor(parts, k, oldColors, newColors) && IsOneColor(part[k], oldColors, newColors)
  {
    var more := parts + [part];
    assert forall r :: 0 <= r < |parts| ==> more[r] == parts[r];
    assert more[|parts|] == part;
  }

  lemma NoElementsIsOneColor(oldColors: seq<int>, newColors: seq<int>)
    ensures IsOneColor(Cavity([], []), oldColors, newColors)
  {
    assert HasColor(Cavity([], []), oldColors, newColors, 0);
  }

  lemma RoundKeepsJudged(
      c: Cavity, left: Cavity, parts: seq<Cavs>, part: Cavs, k: nat, oldColors: seq<int>, newColors: seq<int>)
    requires IsColored(left.olds, oldColors) && IsColored(left.news, newColors) && k < |part|
    requires IsJudged(c, left, parts, k, oldColors, newColors) && part[k] == Separated(left, oldColors, newColors)
    ensures IsJudged(c, Remainder(left, oldColors, newColors), parts + [part], k, oldColors, newColors)
  {
    AllAreOneColorOnce(parts, part, k, oldColors, newColors);
    if left.olds != [] {
      SeparatedIsOneColor(left, oldColors, newColors);
      RemainderHasSameUncovered(left, oldColors, newColors);
    } else if left.news == [] {
      NoElementsIsOneColor(oldColors, newColors);
    } else {
      WholeIsOneColor(left, oldColors, newColors);
    }
  }

  lemma NothingLeftIsJudged(
      c: Cavity, parts: seq<Cavs>, k: nat, oldColors: seq<int>, newColors: seq<int>)
    requires IsJudged(c, Cavity([], []), parts, k, oldColors, newColors)
    ensures AllAreOneColor(parts, k, oldColors, newColors) <==> UncoveredAgree(c, oldColors, newColors)
  {
  }

  lemma Regroup(a: multiset<nat>, s: multiset<nat>, r: multiset<nat>, l: multiset<nat>)
    requires s + r == l
    ensures (a + s) + r == a + l
  {
  }

  lemma {:induction false} ElemsGrow(parts: seq<Cavs>, part: Cavs, k: nat)
    requires k < |part|
    ensures OldElems(parts + [part], k) == OldElems(parts, k) + multiset(part[k].olds)
    ensures NewElems(parts + [part], k) == NewElems(parts, k) + multiset(part[k].news)
  {
    assert (parts + [part])[..|parts|] == parts;
  }

  lemma OneMoreRound(
      parts: seq<Cavs>, left: Cavity, separated: Cavs, k: nat, c: Cavity, oldColors: seq<int>, newColors: seq<int>)
    requires k < |separated| && IsColored(left.olds, oldColors) && IsColored(left.news, newColors)
    requires separated[k] == Separated(left, oldColors, newColors) && IsPartition(parts, left, k, c)
    ensures IsPartition(parts + [separated], Remainder(left, oldColors, newColors), k, c)
  {
    var rest := Remainder(left, oldColors, newColors);
    SeparationPartitions(left, oldColors, newColors);
    ElemsGrow(parts, separated, k);
    Regroup(OldElems(parts, k), multiset(separated[k].olds), multiset(rest.olds), multiset(left.olds));
    Regroup(NewElems(parts, k), multiset(separated[k].news), multiset(rest.news), multiset(left.news));
  }

  /** What holds after some rounds: `left` is what they have left of the cavities. */
  ghost predicate IsSeparation(
      cavs: Cavs, parts: seq<Cavs>, left: Cavs, oldColors: seq<int>, newColors: seq<int>)
    requires CavsAreColored(cavs, oldColors, newColors)
  {
    && |left| == |cavs| && CavsAreColored(left, oldColors, newColors)
    && (forall r :: 0 <= r < |parts| ==> |parts[r]| == |cavs|)
    && (forall k :: 0 <= k < |cavs| ==> IsPartition(parts, left[k], k, cavs[k]))
    && (forall k :: 0 <= k < |cavs| ==> IsJudged(cavs[k], left[k], parts, k, oldColors, newColors))
    && |parts| + Edges(left) <= Edges(cavs)
  }

  lemma {:induction false} RoundKeepsSeparation(
      cavs: Cavs, parts: seq<Cavs>, left: Cavs, separated: Cavs, remainder: Cavs,
      oldColors: seq<int>, newColors: seq<int>)
    requires CavsAreColored(cavs, oldColors, newColors)
    requires IsSeparation(cavs, parts, left, oldColors, newColors) && Edges(left) > 0
    requires |separated| == |remainder| == |left|
    requires forall k :: 0 <= k < |left| ==>
      && separated[k] == Separated(left[k], oldColors, newColors)
      && remainder[k] == Remainder(left[k], oldColors, newColors)
    ensures IsSeparation(cavs, parts + [separated], remainder, oldColors, newColors)
    ensures Edges(remainder) < Edges(left)
  {
    EdgesShrink(left, remainder, oldColors, newColors);
    forall k | 0 <= k < |cavs|
      ensures IsPartition(parts + [separated], remainder[k], k, cavs[k])
    {
      OneMoreRound(parts, left[k], separated, k, cavs[k], oldColors, newColors);
    }
    forall k | 0 <= k < |cavs|
      ensures IsJudged(cavs[k], remainder[k], parts + [separated], k, oldColors, newColors)
    {
      RoundKeepsJudged(cavs[k], left[k], parts, separated, k, oldColors, newColors);
    }
  }

  /** Splits until nothing is left. Every turn takes elements away, from each cavity that has any. */
  method SeparateByColor(cavs: Cavs, oldColors: seq<int>, newColors: seq<int>) returns (parts: seq<Cavs>)
    requires CavsAreColored(cavs, oldColors, newColors)
    ensures forall r :: 0 <= r < |parts| ==> |parts[r]| == |cavs|
    ensures forall k :: 0 <= k < |cavs| ==>
      OldElems(parts, k) == multiset(cavs[k].olds) && NewElems(parts, k) == multiset(cavs[k].news)
    ensures forall k :: 0 <= k < |cavs| ==>
      (AllAreOneColor(parts, k, oldColors, newColors) <==> UncoveredAgree(cavs[k], oldColors, newColors))
    ensures |parts| <= Edges(cavs)
  {
    parts := [];
    var left := cavs;
    while Edges(left) > 0
      invariant IsSeparation(cavs, parts, left, oldColors, newColors)
      decreases Edges(left)
    {
      var separated, remainder := SeparateByColorOnce(left, oldColors, newColors);
      RoundKeepsSeparation(cavs, parts, left, separated, remainder, oldColors, newColors);
      parts := parts + [separated];
      left := remainder;
    }
    forall k | 0 <= k < |cavs|
      ensures OldElems(parts, k) == multiset(cavs[k].olds) && NewElems(parts, k) == multiset(cavs[k].news)
    {
      NoEdgesNoElements(left, k);
      assert IsPartition(parts, left[k], k, cavs[k]);
    }
    forall k | 0 <= k < |cavs|
      ensures AllAreOneColor(parts, k, oldColors, newColors) <==> UncoveredAgree(cavs[k], oldColors, newColors)
    {
      NoEdgesNoElements(left, k);
      NothingLeftIsJudged(cavs[k], parts, k, oldColors, newColors);
    }
  }

  /** The parts need not have one colour: a cavity with an old element and two new ones, of three colours. */
  method SeparateThreeColors(a: int, b: int, c: int) returns (parts: seq<Cavs>)
    requires a != b && a != c && b != c
    ensures (forall r :: 0 <= r < |parts| ==> |parts[r]| == 1) && NewElems(parts, 0) == multiset{0, 1}
    ensures exists r :: 0 <= r < |parts| && !IsOneColor(parts[r][0], [a], [b, c])
  {
    var cavity := Cavity([0], [0, 1]);
    parts := SeparateByColor([cavity], [a], [b, c]);
    assert cavity.news[0] == 0 && cavity.news[1] == 1;
    assert IsUncovered(cavity, [a], [b, c], 0) && IsUncovered(cavity, [a], [b, c], 1);
    assert !UncoveredAgree(cavity, [a], [b, c]);
    assert !AllAreOneColor(parts, 0, [a], [b, c]);
    assert multiset([cavity][0].news) == multiset{0, 1};
  }
}
