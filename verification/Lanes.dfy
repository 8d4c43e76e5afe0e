/** What the contexts of a state-config are: the terminals found by following lanes of originators
    whose follow strings derive the empty string. */
module Lanes {
  import opened Containers
  import FirstSets

  const NULL: int := FirstSets.FIRST_NULL

  /** The originators of each address, the FIRST set of the string that follows each address, and the
      contexts an address has from the start (the end mark, for the accepting configs). */
  datatype LaneGraph = LaneGraph(og: ParserGraph, first: seq<set<int>>, base: seq<set<int>>) {
    ghost predicate Valid() {
      && |og| == |first| == |base|
      && IsGraph(og)
    }
  }

  /** How the algorithm decides that a follow string has a null descendant, from its FIRST set. A string
      with no terminal descendant at all is taken for one as well. */
  ghost predicate Vanishes(first: set<int>) {
    NULL in first || first == {}
  }

  /** The lane can be continued from `z` to its originator `w`. */
  ghost predicate Continues(lg: LaneGraph, z: nat, w: nat)
    requires lg.Valid()
  {
    HasEdge(lg.og, z, w) && Vanishes(lg.first[w])
  }

  ghost predicate IsLane(lg: LaneGraph, path: seq<nat>, z: nat, y: nat)
    requires lg.Valid()
  {
    && path != [] && path[0] == z && path[|path| - 1] == y
    && (forall i :: 0 <= i < |path| ==> path[i] < |lg.og|)
    && forall i {:trigger IsStep(lg, path, i)} :: IsStep(lg, path, i)
  }

  ghost predicate IsStep(lg: LaneGraph, path: seq<nat>, i: int)
    requires lg.Valid()
  {
    0 <= i < |path| - 1 ==> Continues(lg, path[i], path[i + 1])
  }

  ghost predicate Reaches(lg: LaneGraph, z: nat, y: nat)
    requires lg.Valid()
  {
    exists path :: IsLane(lg, path, z, y)
  }

  /** Some lane of at least one step leads from `z` to `y`. */
  ghost predicate Leads(lg: LaneGraph, z: nat, y: nat)
    requires lg.Valid()
  {
    exists x: nat :: Continues(lg, z, x) && Reaches(lg, x, y)
  }

  /** No lane comes back to where it started. */
  ghost predicate IsAcyclic(lg: LaneGraph)
    requires lg.Valid()
  {
    forall z: nat :: !Leads(lg, z, z)
  }

  /** `t` can follow directly at address `y`. */
  ghost predicate Contributes(lg: LaneGraph, y: nat, t: int)
    requires lg.Valid() && y < |lg.og|
  {
    t in lg.base[y] || exists x: nat :: HasEdge(lg.og, y, x) && t != NULL && t in lg.first[x]
  }

  /** `t` is a context of `z`: some lane from `z` ends where `t` can follow directly. */
  ghost predicate InContext(lg: LaneGraph, z: nat, t: int)
    requires lg.Valid()
  {
    exists y: nat :: Reaches(lg, z, y) && y < |lg.og| && Contributes(lg, y, t)
  }

  lemma ReachesItself(lg: LaneGraph, z: nat)
    requires lg.Valid() && z < |lg.og|
    ensures Reaches(lg, z, z)
  {
    assert IsLane(lg, [z], z, z);
  }

  lemma FirstStep(lg: LaneGraph, path: seq<nat>, z: nat, y: nat)
    requires lg.Valid() && IsLane(lg, path, z, y) && 1 < |path|
    ensures path[1] < |lg.og| && Continues(lg, z, path[1]) && IsLane(lg, path[1..], path[1], y)
  {
    assert IsStep(lg, path, 0);
    var rest := path[1..];
    forall i
      ensures IsStep(lg, rest, i)
    {
      assert IsStep(lg, path, i + 1);
    }
  }

  lemma LanesJoin(lg: LaneGraph, z: nat, y: nat, x: nat)
    requires lg.Valid() && Reaches(lg, z, y) && Reaches(lg, y, x)
    ensures Reaches(lg, z, x)
  {
    var p :| IsLane(lg, p, z, y);
    var q :| IsLane(lg, q, y, x);
    var joined := p + q[1..];
    forall i
      ensures IsStep(lg, joined, i)
    {
      assert IsStep(lg, p, i) && IsStep(lg, q, i + 1 - |p|);
      if |p| - 1 <= i < |joined| - 1 {
        assert joined[i] == q[i + 1 - |p|] && joined[i + 1] == q[i + 2 - |p|];
      }
    }
    assert IsLane(lg, joined, z, x);
  }

  lemma ReachesFurther(lg: LaneGraph, z: nat, y: nat, x: nat)
    requires lg.Valid() && Reaches(lg, z, y) && Continues(lg, y, x)
    ensures Reaches(lg, z, x)
  {
    assert IsLane(lg, [y, x], y, x);
    LanesJoin(lg, z, y, x);
  }

  lemma LeadsIsReaches(lg: LaneGraph, z: nat, y: nat)
    requires lg.Valid() && Leads(lg, z, y) && z < |lg.og|
    ensures Reaches(lg, z, y)
  {
    var x: nat :| Continues(lg, z, x) && Reaches(lg, x, y);
    assert IsLane(lg, [z, x], z, x);
    LanesJoin(lg, z, x, y);
  }

  lemma LeadsFurther(lg: LaneGraph, z: nat, y: nat, x: nat)
    requires lg.Valid() && Leads(lg, z, y) && Continues(lg, y, x)
    ensures Leads(lg, z, x)
  {
    var w: nat :| Continues(lg, z, w) && Reaches(lg, w, y);
    ReachesFurther(lg, w, y, x);
  }

  lemma StepLeads(lg: LaneGraph, z: nat, y: nat)
    requires lg.Valid() && Continues(lg, z, y)
    ensures Leads(lg, z, y)
  {
    ReachesItself(lg, y);
  }

  lemma LeadsJoin(lg: LaneGraph, z: nat, y: nat, x: nat)
    requires lg.Valid() && Leads(lg, z, y) && Leads(lg, y, x) && y < |lg.og|
    ensures Leads(lg, z, x)
  {
    var w: nat :| Continues(lg, z, w) && Reaches(lg, w, y);
    LeadsIsReaches(lg, y, x);
    LanesJoin(lg, w, y, x);
  }

  /** Contexts flow from the far end of a lane to its near end. */
  lemma ContextsFlow(lg: LaneGraph, z: nat, y: nat, t: int)
    requires lg.Valid() && Reaches(lg, z, y) && InContext(lg, y, t)
    ensures InContext(lg, z, t)
  {
    var x: nat :| Reaches(lg, y, x) && x < |lg.og| && Contributes(lg, x, t);
    LanesJoin(lg, z, y, x);
  }

  // ----- contexts are the least solution of the context equations -----

  /** `sol` has the base contexts, the terminals that follow at each originator, and the contexts of
      each originator whose follow string derives the empty string. */
  ghost predicate IsSolution(lg: LaneGraph, sol: seq<set<int>>)
    requires lg.Valid()
  {
    && |sol| == |lg.og|
    && (forall z: nat, t :: z < |sol| && Contributes(lg, z, t) ==> t in sol[z])
    && (forall z: nat, w: nat :: Continues(lg, z, w) ==> sol[w] <= sol[z])
  }

  lemma SolutionCoversLane(
      lg: LaneGraph, sol: seq<set<int>>, path: seq<nat>, z: nat, y: nat, t: int)
    requires lg.Valid() && IsSolution(lg, sol) && IsLane(lg, path, z, y) && Contributes(lg, y, t)
    ensures t in sol[z]
    decreases |path|
  {
    if |path| > 1 {
      FirstStep(lg, path, z, y);
      SolutionCoversLane(lg, sol, path[1..], path[1], y, t);
    }
  }

  /** Sets that hold exactly the contexts solve the equations, and are below every other solution. */
  lemma ContextsAreLeastSolution(lg: LaneGraph, exact: seq<set<int>>)
    requires lg.Valid() && |exact| == |lg.og|
    requires forall z: nat, t :: z < |exact| ==> (t in exact[z] <==> InContext(lg, z, t))
    ensures IsSolution(lg, exact)
    ensures forall sol, z: nat :: IsSolution(lg, sol) && z < |sol| ==> exact[z] <= sol[z]
  {
    forall z: nat, t | z < |exact| && Contributes(lg, z, t)
      ensures t in exact[z]
    {
      ReachesItself(lg, z);
    }
    forall z: nat, w: nat, t | Continues(lg, z, w) && t in exact[w]
      ensures t in exact[z]
    {
      assert IsLane(lg, [z, w], z, w);
      ContextsFlow(lg, z, w, t);
    }
    forall sol, z: nat, t | IsSolution(lg, sol) && z < |sol| && t in exact[z]
      ensures t in sol[z]
    {
      var y: nat :| Reaches(lg, z, y) && y < |lg.og| && Contributes(lg, y, t);
      var path :| IsLane(lg, path, z, y);
      SolutionCoversLane(lg, sol, path, z, y, t);
    }
  }

  /** An address with all the originators and all the base contexts of another has its contexts. */
  lemma MoreOriginatorsMoreContexts(lg: LaneGraph, z: nat, w: nat, t: int)
    requires lg.Valid() && z < |lg.og| && w < |lg.og|
    requires lg.base[z] <= lg.base[w] && forall x: nat :: HasEdge(lg.og, z, x) ==> HasEdge(lg.og, w, x)
    requires InContext(lg, z, t)
    ensures InContext(lg, w, t)
  {
    var y: nat :| Reaches(lg, z, y) && y < |lg.og| && Contributes(lg, y, t);
    var path :| IsLane(lg, path, z, y);
    if |path| == 1 {
      ReachesItself(lg, w);
      if t !in lg.base[w] {
        var x: nat :| HasEdge(lg.og, y, x) && t != NULL && t in lg.first[x];
        assert HasEdge(lg.og, w, x);
      }
      assert Contributes(lg, w, t);
    } else {
      FirstStep(lg, path, z, y);
      assert Continues(lg, w, path[1]);
      assert IsLane(lg, [w, path[1]], w, path[1]);
      LanesJoin(lg, w, path[1], y);
    }
  }
}
