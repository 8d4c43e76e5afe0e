# Verified models of Omega_h

Dafny models of six parts of Omega_h, a library that adapts simplex meshes in parallel, with proofs of what these
parts are for. Each module is about one file or one algorithm; its first comment names the functions it models.

| part | modules |
|---|---|
| LALR(1) construction by lane tracing | Grammars, FirstSets, Lr0, Originators, Lanes, LaneStates, Pushers, Snares, ContextAdding, LaneRuns, FailedChecks, LaneTracing, Lookaheads, Adequacy, Conflicts, Lalr; on written-out machines Sheets, RefusedGrammar, UselessGrammar, LaneLoss, LossGrammar, LaneAbort, AbortGrammar |
| neighbour discovery, distributed maps, owners | Neighbours, Exchange, Dists, SelfSend, LinearPartition, RankOrder, Owners |
| curved elements | Sums, Forms, Polynomials, Bernstein, NodeNumbering, TriangleValidity, Loops, TetValidity, TetCheck, Vandermonde, Turns, Surfaces, Layouts, TriangleLayouts, TetLayouts, Curves |
| adjacencies | Graphs, Align, Canonical, Matching, ReflectDown, Inversion, ElementGraph |
| conservation | Separation, Ledger, BoundaryStatus, Diffusion, Settling, Sides, DiffusionLoop, ErrorCorrection |
| edge collapse | Rails, Coarsening, LiveEntities, Collapse, MeshLayers, SmallMeshes |

How the code is modelled:

- Code that works step by step is a method with the loops of the original, proved against a specification; code made
  of expressions is a function with lemmas. Vectors and arrays that are filled by index are `seq` values that the
  methods reassign; the arrays that `sort_by_high_index` sorts in place are `array`s.
- `Real` is `real`, without rounding. Sizes and indices are unbounded. Where an integer bound decides something it is
  there: `sort_locally_based_on_rank` looks for ranks below `MAX_RANK`, the largest value of `I32`.
- A failing `OMEGA_H_CHECK` is an outcome of its own (`ok == false`, or a case of `Outcome`), and contracts say exactly
  when it occurs or what follows from it.
- Parallel kernels are loops over their indices. Where the order matters, as in `invert_map_by_atomics`, an arbitrary
  element is taken next, and results are proved to be the same for all orders.
- A family of ranks is one value that holds the state of all of them. Neighbour discovery is a state machine whose
  steps are single steps of single ranks, in any order, with the synchronous sends and the nonblocking barrier of the
  MPI 3.1 standard, sections 3.4 and 5.12.1.

## Model

| member | source | states |
|---|---|---|
| FirstSets.ComputeFirstSets | src/Omega_h_build_parser.cpp:278-350 | the event queue ends, and a symbol's set holds a terminal exactly if it leads a string derivable from the symbol, and the null mark exactly if the symbol derives nothing |
| FirstSets.FirstOfStringIsExact | src/Omega_h_build_parser.cpp:254-273 | the same for strings of symbols, given exact sets of the symbols |
| Lr0.Close | src/Omega_h_build_parser.cpp:63-89 | the result is the least closed set of configs that holds the kernel, in increasing order |
| Lr0.BuildLr0Parser | src/Omega_h_build_parser.cpp:129-193 | the states are exactly the canonical collection: closed, distinct, all reachable, with one transition per symbol after a dot, to the closure of the advanced configs, and one reduction per complete config |
| Lr0.ShiftsAreDeterministic | src/Omega_h_build_parser.cpp:129-193 | no state has two transitions for one symbol |
| Originators.MakeOriginatorGraph | src/Omega_h_build_parser.cpp:525-556 | an address has as originators exactly the immediate predecessors of all addresses it comes from along transitions, in order |
| Originators.LalrOriginatorsAreOriginators | src/Omega_h_build_parser.cpp:461-556 | no originator of LALR(1) is missed |
| Originators.WhenOriginatorsAreLalr | src/Omega_h_build_parser.cpp:461-556 | these are the originators of LALR(1) exactly if every config with immediate predecessors loops back to one with its dot at the start in the same state |
| Lanes.ContextsAreLeastSolution | src/Omega_h_build_parser.cpp:763-970 | the terminals found along lanes are the least solution of the context equations |
| LaneTracing.MoveMarkers | src/Omega_h_build_parser.cpp:612-634 | the markers above the first place of an address are zeroed and as many put on top, below the address on top if tests have failed |
| ContextAdding.ContextAddingRoutine | src/Omega_h_build_parser.cpp:638-683 | goes down the lane taking each address's contexts out of what is passed on, as the recursive function `AddedDown` says, and stops when nothing is left |
| ContextAdding.WhenAddingReachesAll | src/Omega_h_build_parser.cpp:638-683 | a terminal gets to every address of the lane exactly if no address that has it already is above one that lacks it |
| ContextAdding.AddingMayNotReachAll | src/Omega_h_build_parser.cpp:638-683 | on a lane that has an address twice, a terminal does not get to those below |
| LaneTracing.DealWithTestsFailed | src/Omega_h_build_parser.cpp:685-736 | what goes on the lane and the stack at the first, second and later failure, and exactly when the check on the lane fails |
| LaneTracing.HeuristicPropagationOfContextSets | src/Omega_h_build_parser.cpp:738-759 | copies the contexts and the flag to exactly the configs of the state with the same left-hand side and the dot at the start |
| LaneTracing.ComputeContextSet | src/Omega_h_build_parser.cpp:763-970 | always ends; takes the steps of the functional specification `LaneRuns.Turns`; never records what is not a context; completed addresses are closed under lanes; without a tangle of lanes it records every context of the addresses it completes; the check fails exactly if it does in some turn, by `FailedChecks.WhenCheckFails`, and then the lanes have a snare; ambiguity is reported only where something and nothing can follow an address that its lanes come back to |
| LaneTracing.ExactWhenSolved | src/Omega_h_build_parser.cpp:763-970 | after any number of calls, what is recorded for complete addresses is everything exactly if it solves the context equations there, one originator at a time |
| FailedChecks.WhenCheckFails | src/Omega_h_build_parser.cpp:797-900 | from the state before a turn: the check fails in it exactly if, before any ambiguity, two originators fail the tests and one before the second of them closes a cycle onto a place of the lane that has a marker above it |
| Snares.SnaresAreCycles | src/Omega_h_build_parser.cpp:685-736 | what the lanes have when the check fails, a lane that comes back past a fork where two more go on, takes a cycle |
| Pushers.TanglesAreCycles | src/Omega_h_build_parser.cpp:763-970 | where lanes have no cycles there is no tangle |
| LaneLoss.RunLosesContext | src/Omega_h_build_parser.cpp:797-958 | in every lane graph with these nine addresses the tracing from the first of them completes it in seven turns and misses a context of it |
| LossGrammar.TheGrammarIsProductive | src/Omega_h_build_parser.cpp:1023-1107 | every symbol of that grammar derives a string of terminals |
| LossGrammar.IsTheMachine | src/Omega_h_build_parser.cpp:129-193 | a machine of 14 states, written out, is the LR(0) machine of that grammar of seven productions |
| LossGrammar.AcceptTheMachine | src/Omega_h_build_parser.cpp:1023-1107 | the construction accepts it as LALR(1); the contexts have no conflict, the lanes are tangled, and the reduction beside shifts is recorded without the end mark, which is one of its contexts |
| LaneAbort.RunIsAborted | src/Omega_h_build_parser.cpp:797-900 | in every lane graph with these addresses the tracing from the first of them is ended by the check in its third turn |
| AbortGrammar.IsTheMachine | src/Omega_h_build_parser.cpp:129-193 | a machine, written out, is the LR(0) machine of a grammar of four productions and the accepting one |
| AbortGrammar.GiveUpOnTheMachine | src/Omega_h_build_parser.cpp:1023-1107 | the construction gives up on it by the failing check, although it is LALR(1) and its contexts have no conflict |
| Lookaheads.ContextsCoverLookaheads | src/Omega_h_build_parser.cpp:1023-1090 | the contexts of an address hold all its lookaheads in the canonical LR(1) machine |
| Lookaheads.ContextsAreLookaheads | src/Omega_h_build_parser.cpp:1023-1090 | and nothing else, if the originators are those of LALR(1) and what follows at each of them derives some string of terminals, as it does in productive grammars |
| Lookaheads.WhenVanishingIsDerivingNothing | src/Omega_h_build_parser.cpp:585-589 | a string counts as deriving nothing exactly if it does, or has no first terminal at all |
| UselessGrammar.ContextIsNoLookahead | src/Omega_h_build_parser.cpp:585-589 | in the machine of a grammar with a symbol that derives no terminals, LALR(1) originators and all, a context is no lookahead |
| UselessGrammar.RefuseTheMachine | src/Omega_h_build_parser.cpp:1023-1107 | and that LALR(1) machine is refused |
| Adequacy.DetermineAdequateStates | src/Omega_h_build_parser.cpp:972-1021 | a state is adequate exactly if no terminal is in the contexts of two of its actions |
| Lalr.BuildLalr1Parser | src/Omega_h_build_parser.cpp:1023-1107 | which of four verdicts: LR(0) exactly if all states are adequate; a refusal only with a conflict by the exact contexts; an acceptance only without one, if lane tracing has found all contexts, which it has without a tangle; giving up for ambiguity only with a conflict; giving up for the check exactly if a turn of one of the tracings, made in order, fails it, and only with a snare; all but the contexts of reductions is the LR(0) machine |
| Conflicts.ReportedAmbiguityIsConflict | src/Omega_h_build_parser.cpp:826-855 | what lane tracing gives up on as ambiguous is a conflict: two actions of some state share a terminal of their exact contexts |
| Lalr.ConflictFreeMeansLalr1 | src/Omega_h_build_parser.cpp:1023-1107 | no conflict by the contexts means LALR(1); with the originators of LALR(1), where something can follow at each, the converse holds |
| RefusedGrammar.Lalr1GrammarHasConflict | src/Omega_h_build_parser.cpp:461-556 | the machine of a grammar of five productions, proved to be its LR(0) machine and LALR(1), has a conflict by the contexts |
| RefusedGrammar.RefuseTheMachine | src/Omega_h_build_parser.cpp:1023-1107 | and the construction refuses it |
| Neighbours.CallsReturnWhoNamedThem | src/Omega_h_comm.cpp:120-164 | in every interleaving of any number of calls, each returns to each rank the sorted list of the ranks that named it, as often as they did |
| Neighbours.LeavingMeansAllReceived | src/Omega_h_comm.cpp:134-160 | once a rank has left the polling loop, no message of that call is in flight and every rank in it has all its sources |
| Neighbours.CallsDoNotMix | src/Omega_h_comm.cpp:126-162 | with either barrier, no rank receives a message of another call |
| Neighbours.WithoutBarriersCallsMayMix | src/Omega_h_comm.cpp:126-162 | with neither, a rank can |
| Neighbours.StepsDoTheWork | src/Omega_h_comm.cpp:120-164 | every step but an idle one takes exactly one off the work that is left |
| Neighbours.NobodyIsStuck | src/Omega_h_comm.cpp:120-164 | while any rank has calls left, some rank can do work |
| Exchange.Exch | src/Omega_h_dist.cpp:109-123 | the data of every root item arrive at the item it is carried to, and nothing else does |
| Exchange.ItemIsCarried | src/Omega_h_dist.cpp:109-123 | every item is carried somewhere |
| Exchange.CarriedFromOne | src/Omega_h_dist.cpp:109-123 | and nothing arrives from two items |
| Exchange.CarriedInverts | src/Omega_h_dist.cpp:96-106 | the inverted map carries every item back where it came from |
| Dists.SetDestRanks | src/Omega_h_dist.cpp:30-74 | the map sends each item to the rank given for it, one message per rank, for every order within buckets |
| Dists.Items2Dests | src/Omega_h_dist.cpp:161-180 | reads off where each item is carried: rank and root |
| Dists.DestsComeBack | src/Omega_h_dist.cpp:20-82 | a map built from ranks and root indices gives exactly these back |
| Dists.BucketIsExact | src/Omega_h_dist.cpp:76-82 | what is brought into the bucket of a root is what was sent to that root |
| SelfSend.SelfSendPart1 | src/Omega_h_comm.cpp:403-450 | what is cut out and what is left, for any displacements, width and threshold, and exactly when the displacements left fit the destinations |
| SelfSend.SelfSendPart2 | src/Omega_h_comm.cpp:453-476 | puts the message back at its place among those received |
| SelfSend.AlltoallvWithSelf | src/Omega_h_comm.cpp:526-567 | cut, exchange and splice give what the plain exchange gives, exactly unless all data go to the rank itself and it has other destinations |
| SelfSend.NoEmptyMessageFits | src/Omega_h_comm.cpp:403-450 | which does not occur where no message is empty |
| RankOrder.SortLocallyBasedOnRank | src/Omega_h_build.cpp:174-202 | for each server the served items, each once, in the order of their ranks |
| LinearPartition.OwnerDetermines | src/Omega_h_linpart.cpp:8-27 | the rank and index assigned to a global number determine it |
| Owners.ResolveDerivedCopies | src/Omega_h_build.cpp:204-292 | every copy of an entity, on whatever rank, gets the same owner, a copy on the lowest rank that has one, and its vertices are written in the same canonical order |
| Owners.OwnersDecide | src/Omega_h_build.cpp:204-292 | two entities have the same owner exactly if they have the same vertices up to rotation and flip |
| Owners.OwnersAreDetermined | src/Omega_h_build.cpp:204-292 | with one copy per rank, the owners do not depend on the order of arrival |
| NodeNumbering.TriIndexInverts | src/Omega_h_beziers.hpp:1907-1916 | each legal exponent pair gets a number below the count, from which it is got back; which number is in the rows of TriangleLayouts |
| NodeNumbering.TriCountClosed | src/Omega_h_beziers.hpp:1907-1916 | the count is (p + 1)(p + 2) / 2 |
| NodeNumbering.TetIndexInverts | src/Omega_h_curve_validity_3d.hpp:12-29 | the same in all branches of the numbering of tetrahedra; which number is in the rows of TetLayouts |
| NodeNumbering.TetCountClosed | src/Omega_h_curve_validity_3d.hpp:12-29 | the count is (p + 1)(p + 2)(p + 3) / 6 |
| TriangleValidity.Nijk | src/Omega_h_beziers.hpp:1937-1951 | times its trinomial weight the value is the coefficient of the Jacobian determinant |
| TriangleValidity.JacobianHasCoefficients | src/Omega_h_beziers.hpp:1923-1951 | the Jacobian determinant, by the formal derivatives of the Bezier map, is the polynomial with these coefficients, for all control points and orders |
| TriangleValidity.CheckMinJacDet | src/Omega_h_beziers.hpp:1967-1991 | returns -1 exactly if no value is negative, and otherwise the group of places that the first negative value is in |
| TriangleValidity.CheckTriangle | src/Omega_h_beziers.hpp:1953-1991 | the values and the check together, said by exponents: -1 exactly if no coefficient of the determinant is negative, and then it is nowhere negative on the triangle; otherwise the first of the corners, sides and inside that has a negative one |
| Surfaces.EdgeIsCurve | src/Omega_h_beziers.hpp:1907-1916 | along each edge a polynomial in Bernstein form is the Bezier curve of the control values there, in their order |
| Surfaces.FaceIsSurface | src/Omega_h_beziers.hpp:1907-1916 | and on each face the Bezier triangle of the rows of control values there |
| TriangleLayouts.CornersAreFirst | src/Omega_h_beziers.hpp:1909-1911 | the map of a triangle takes the three corners to the first three points of the array |
| TriangleLayouts.SideIsCurve | src/Omega_h_beziers.hpp:1912-1914 | each side is the Bezier curve of its two corners with the run of points listed for it between them: from the first corner to the second, and so on round |
| TriangleLayouts.MapIsSurface | src/Omega_h_beziers.hpp:1907-1916 | the whole map is the Bezier triangle of rows cut from the array: corners, three runs, inner rows one after the other |
| TriangleLayouts.CornerDeterminants | src/Omega_h_beziers.hpp:1937-1972 | the coefficients behind the first three codes are the determinants at the corners |
| TriangleLayouts.StraightValues | src/Omega_h_beziers.hpp:1937-1951 | every value of an evenly divided straight triangle is twice its area |
| TriangleLayouts.StraightVerdict | src/Omega_h_beziers.hpp:1953-1991 | so it is accepted exactly if its corners do not go round clockwise |
| TriangleLayouts.CheckUnitTriangle | src/Omega_h_beziers.hpp:1953-1991 | the array of the unit triangle of order 2 is accepted |
| TetCheck.Nijkl | src/Omega_h_curve_validity_3d.hpp:48-77 | the six loops add every way to split the exponents once; times its weight the value is the coefficient of the Jacobian determinant |
| TetValidity.JacobianHasCoefficients | src/Omega_h_curve_validity_3d.hpp:35-77 | the Jacobian determinant of the tetrahedron is the polynomial with these coefficients |
| TetCheck.CheckMinJacDet3d | src/Omega_h_curve_validity_3d.hpp:93-128 | in full mode looks at every value once and returns -1 exactly if none is negative, in vertex mode at the first four; otherwise the group of the first negative one |
| TetCheck.CheckTetrahedron | src/Omega_h_curve_validity_3d.hpp:80-128 | in both modes, said by exponents: the first of the corners, edges, faces and inside that has a negative coefficient, or -1 exactly if none that is looked at is negative; in full mode the determinant is then nowhere negative on the tetrahedron |
| TetLayouts.CornersAreFirst | src/Omega_h_curve_validity_3d.hpp:14-17 | the map of a tetrahedron takes the four corners to the first four points of the array |
| TetLayouts.EdgeIsCurveOfRun | src/Omega_h_curve_validity_3d.hpp:18-23 | each edge is the Bezier curve of its two corners with the run of points listed for it between them |
| TetLayouts.FaceIsSurfaceOfRun | src/Omega_h_curve_validity_3d.hpp:24-27 | each face is the Bezier triangle of its corners, the runs of its sides, reversed where they go the other way, and the rows listed for it |
| TetLayouts.InsideIsLayers | src/Omega_h_curve_validity_3d.hpp:28 | inside, the control values are the layers of the last run, of 1, 3, 6 and so on points, by rows |
| TetLayouts.CornerDeterminants | src/Omega_h_curve_validity_3d.hpp:48-101 | the coefficients behind the first four codes are the determinants at the corners |
| TetLayouts.StraightValues | src/Omega_h_curve_validity_3d.hpp:48-77 | every value of an evenly divided straight tetrahedron is six times its volume |
| TetLayouts.StraightVerdict | src/Omega_h_curve_validity_3d.hpp:80-128 | so it is accepted, in both modes, exactly if its volume is not negative |
| TetLayouts.CheckUnitTetrahedron | src/Omega_h_curve_validity_3d.hpp:80-128 | the array of the unit tetrahedron of order 2 is accepted |
| Vandermonde.SharesAddUp | src/Omega_h_curve_validity_3d.hpp:48-77 | the multinomial Vandermonde identity: the weights of all ways to split exponents add up to the weight of the whole |
| Vandermonde.OneDeterminantOneValue | src/Omega_h_curve_validity_3d.hpp:48-77 | if all partial determinants are alike, every value is that determinant times the cube of the order |
| Curves.InterpToCtrl | src/Omega_h_bezier_interp.hpp:44-72 | the two-by-two system is regular, and the cubic with the points found has the given values |
| Curves.HalveCurve | src/Omega_h_bezier_interp.hpp:74-135 | the halves trace the two halves of the old curve at every parameter |
| Curves.ElevateCurve | src/Omega_h_beziers.cpp:213-240 | the points for the next higher order trace the same curve, for every order |
| Align.AlignmentsInvert | src/Omega_h_align.hpp:103-109 | the inverse code undoes an alignment |
| Align.AlignmentsCompound | src/Omega_h_align.hpp:128-132 | the compound code does what the two codes do one after the other |
| Canonical.CanonicalDecides | src/Omega_h_adj.cpp:69-95 | two lists are the same up to rotation and flip exactly if their canonical forms are equal |
| Canonical.ChooseUnique | src/Omega_h_adj.cpp:118-142 | of every class of uses exactly one is chosen |
| Matching.MatchIsExact | src/Omega_h_adj.cpp:362-424 | a match is found exactly if the lists are of one entity, and its code aligns one with the other |
| Matching.FindMatches | src/Omega_h_adj.cpp:426-464 | succeeds exactly if every use has a match, or just one where duplicates are not allowed, and returns the first with its code |
| ReflectDown.ReflectDown | src/Omega_h_adj.cpp:500-508 | succeeds exactly if every use has just one entity, and returns it with the code that aligns its vertices with the use |
| ReflectDown.DeriveDown | src/Omega_h_adj.cpp:133-142 | among the entities derived from the uses themselves every use finds its own |
| Inversion.InvertMapByAtomics | src/Omega_h_adj.cpp:299-331 | inverts the map for every order in which the buckets are filled |
| Inversion.InvertAdj | src/Omega_h_adj.cpp:299-331 | the rows of the upward adjacency are sorted, the codes in step |
| Inversion.UpwardIsExact | src/Omega_h_adj.cpp:236-331 | an entry is in it exactly if it is in the downward one |
| Inversion.UpwardIsUnique | src/Omega_h_adj.cpp:212-331 | it is the same for every order of filling |
| ElementGraph.ElementsAcrossSides | src/Omega_h_adj.cpp:767-802 | the row of an element lists, side by side, the elements across its sides that are not exposed |
| ElementGraph.Topology.AcrossIsSymmetric | src/Omega_h_adj.cpp:767-802 | as often as one element is across from another, the other is from it |
| Separation.SeparateByColor | src/Omega_h_conserve.cpp:111-120 | ends; the parts hold the elements of each cavity; they are all of one colour exactly if the new elements whose colour no old one has agree |
| Separation.SeparateThreeColors | src/Omega_h_conserve.cpp:65-120 | with one old and two new elements of three colours some part has two colours |
| Ledger.TransferIntegError | src/Omega_h_conserve.cpp:251-281 | refused exactly if some part has an amount to book and no size; else each new element gets the error of its old self, if it is in both meshes, and for each part that holds it, as the flags of the status ask, the part's amount times its own size over the size of the part's new elements; the total is theirs |
| Ledger.Spread | src/Omega_h_conserve.cpp:200-207 | adds to each element its share, by size, of the amount of a part, refused exactly if there is an amount and no size |
| Ledger.EachErrorIsOwn | src/Omega_h_conserve.cpp:185-281 | where unchanged elements and parts cover the new mesh once, an element's error is that of its old self, or what its one part gives it |
| Ledger.LedgerBalances | src/Omega_h_conserve.cpp:185-281 | the integral less the booked error changes by exactly what is not booked, which is nothing without flags |
| BoundaryStatus.SeparateCavities | src/Omega_h_conserve.cpp:130-179 | the cavities of each boundary status, those with a key on the boundary split by colour |
| BoundaryStatus.Setting.StatusesCover | src/Omega_h_conserve.cpp:143-170 | every changed element is in the statuses once, exactly if no cavity with elements has a key on the boundary without touching it |
| BoundaryStatus.Setting.ClassifiedHasNoDoubles | src/Omega_h_conserve.cpp:143-170 | in a mesh with proper classification there is no such cavity |
| BoundaryStatus.TransferDensityError | src/Omega_h_conserve.cpp:130-281 | from disjoint cavities that cover the changed elements: sorted, split and transferred, the balance changes by exactly what is not booked, and each element has the error of its old self or its share of its own cavity's |
| Diffusion.Net.StepsConserve | src/Omega_h_conserve.cpp:636-658 | no number of diffusion steps changes the integral over any union of components |
| Settling.StepsStayAbove | src/Omega_h_conserve.cpp:636-658 | nor goes below the least value, of a component or of one side of it |
| Settling.StepsStayBelow | src/Omega_h_conserve.cpp:636-658 | nor above the greatest |
| Sides.SidesConserve | src/Omega_h_conserve.cpp:636-658 | of elements an even and an odd number of steps away from one another, the integral over the one side is that over the other after each step |
| Sides.KeepingJoinsSides | src/Omega_h_conserve.cpp:636-658 | if an element within reach keeps some of its density, the two sides are the same and a whole component |
| DiffusionLoop.RestsWhen | src/Omega_h_conserve.cpp:636-658 | an element keeps some of its density exactly if it has fewer neighbours than there can be, or a smaller one |
| DiffusionLoop.LoopEnds | src/Omega_h_conserve.cpp:673-685 | the loop ends if for each element the mean over those an even number of steps away is below the tolerance, or these are within bounds already |
| DiffusionLoop.CannotEnd | src/Omega_h_conserve.cpp:673-685 | it never ends if one of these means is above the tolerance |
| DiffusionLoop.WhenLoopEnds | src/Omega_h_conserve.cpp:673-685 | so, unless one of these means is the tolerance itself, it ends exactly if all are below it |
| DiffusionLoop.LoopMayNotEnd | src/Omega_h_conserve.cpp:673-685 | on a closed polygon of four edges with equal weights, whose graph is a ring, it does not end although the mean is 0 |
| ErrorCorrection.DiffuseDensities | src/Omega_h_conserve.cpp:673-685 | if it returns, the result is bounded and comes from the number of steps it reports |
| ErrorCorrection.DiffuseIntegralsWeighted | src/Omega_h_conserve.cpp:687-713 | divides exactly if it can, and returns weighted size times density after the least number of diffusion steps, from errors over weighted sizes, that is within the tolerance; totals over components are kept |
| ErrorCorrection.CorrectDensityError | src/Omega_h_conserve.cpp:715-735 | what is taken off each element's integral is what diffusing the booked errors gives it, at most the tolerance times its weighted size; over each component that is the booked errors |
| ErrorCorrection.DiffusionNetIsValid | src/Omega_h_conserve.cpp:618-658 | the graph of elements across sides has what diffusion relies on: symmetry and few enough neighbours |
| ErrorCorrection.IntegralIsConserved | src/Omega_h_conserve.cpp:251-281 | a transfer without flags, diffusion and correction together: the integral is that of the old mesh less its booked error |
| Rails.ChooseRails | src/Omega_h_collapse_rail.cpp:15-67 | each vertex with a permitted edge gets the shortest, among these the one with the best quality |
| Rails.FindRails | src/Omega_h_collapse_rail.cpp:79-108 | with unique edge globals, the edge found for a key is the one chosen, in the permitted direction |
| Coarsening.MarkAllDead | src/Omega_h_coarsen_topology.cpp:28-69 | exactly the entities with both ends of a rail, or opposite to the far end in such a cell, are dead; by vertices in the next row |
| LiveEntities.MarksAreByVerts | src/Omega_h_coarsen_topology.cpp:28-69 | in a mesh whose cells have their sides, these are exactly the entities with both ends of a rail, and those whose vertices are all of such a cell's but the far end |
| Coarsening.OneKeyPerCell | src/Omega_h_coarsen_topology.cpp:71-122 | no cell has two keys |
| Coarsening.CoarsenTopology | src/Omega_h_coarsen_topology.cpp:71-122 | one product for each live entity of the key, with the far end in the place of the key |
| Collapse.CollapseEdges | src/Omega_h_coarsen.cpp:86-181 | from permitted edges and an independent set of vertices to the new entities of all dimensions: each live entity with a key is replaced by one product, which repeats no vertex and has no key; in a mesh whose cells have their sides, the dead are told by vertices, the products of a key differ, and they are new exactly if the link condition holds |
| Collapse.LiveIsReplaced | src/Omega_h_coarsen_topology.cpp:71-122 | every live entity with a key is replaced |
| Collapse.ReplacedOnce | src/Omega_h_coarsen_topology.cpp:71-122 | and no entity twice |
| LiveEntities.ProductsDiffer | src/Omega_h_coarsen_topology.cpp:71-122 | two products of a key never have the same vertices |
| LiveEntities.ProductsAreNew | src/Omega_h_coarsen_topology.cpp:71-122 | no product of a key has the vertices of an entity that stays, exactly if the link condition holds: what can be joined to both ends of the rail can be joined to the rail |
| MeshLayers.MakeComplex | src/Omega_h_adj.cpp:166-187 | from lists of vertices, the adjacencies that the collapse asks for, exactly if every edge and side of a cell is listed once |
| SmallMeshes.CollapseTriangle | src/Omega_h_coarsen_topology.cpp:28-69 | of the triangle 0, 1, 2 with its sides in the order of the templates, collapsed along any edge either way, everything with the key dies and the side opposite to the key stays |
| SmallMeshes.CollapseTetrahedron | src/Omega_h_coarsen_topology.cpp:28-69 | the same of a tetrahedron |
| SmallMeshes.CollapseFan | src/Omega_h_coarsen_topology.cpp:71-122 | three triangles around a vertex, one of whose edges collapses although the link condition does not hold: a product is there already |

## Findings

Properties that the code does not have, with the condition under which it has them.

- `make_immediate_predecessor_graph` (src/Omega_h_build_parser.cpp:461-488) takes any config with the right left-hand
  side, also with its dot moved on. So addresses can have more originators than in LALR(1), and some LALR(1) grammars
  are refused: `RefusedGrammar.RefuseTheMachine` is given one with five productions, and
  `Originators.WhenOriginatorsAreLalr` says exactly when the originators are right.
- Lane tracing can miss contexts of the addresses it completes. It takes a tangle of lanes (`Pushers.HasTangle`): two
  originators of one address of which the first leads to the second and that one back, and a further branch.
  `LossGrammar.AcceptTheMachine` has this happen to the grammar B ::= 3 D, D ::= 4 C, S ::= C 2, S ::= 4 B, C ::= 0 B,
  C ::= 5 C, D ::= 4, which has no conflict and is accepted: the reduction of D ::= 4 after 3 4 is not made at the end
  of the input, as in 4 3 4. `LaneTracing.ComputeContextSet` is exact without a tangle, and
  `LaneTracing.ExactWhenSolved` tells from what has been recorded whether anything is missing.
- The cause is in `context_adding_routine` (src/Omega_h_build_parser.cpp:638-683), which stops at an address that
  has the contexts already; `ContextAdding.WhenAddingReachesAll` says when nothing is lost by that.
- The check in `deal_with_tests_failed` (src/Omega_h_build_parser.cpp:685-736) that the tracing address is below the
  top of the lane can fail after markers have been moved, and the construction ends there: `AbortGrammar` has it give
  up on the LALR(1) grammar S ::= 1 S, S ::= 2 S, S ::= 2 0, S ::= 0 S. `FailedChecks.WhenCheckFails` says exactly when
  a turn fails it, from the state before; the lanes then have a snare (`Snares.HasSnare`): the lane over one
  originator of an address comes back to it past a fork, and lanes go on from it over two more.
- A string that has no derivation to terminals is treated as if it derived nothing (src/Omega_h_build_parser.cpp:585-589).
  `UselessGrammar` has the LALR(1) machine of S ::= A N, S ::= b, A ::= b, N ::= N b refused for it: N derives no
  terminals, and so the end mark is taken to follow A. Contexts are lookaheads if no such string follows at an
  originator, as in productive grammars (`Lookaheads.ProductiveOriginatorsHaveFirst`).
- One of the two barriers around neighbour discovery is enough; without both, calls can mix.
- `separate_by_color` leaves parts of several colours where new elements with colours of no old element differ; where
  they agree it does not.
- In the full transfer `carry_class_bdry_integ_error` is handed the parts by class, although the comment above it
  (src/Omega_h_conserve.cpp:181-183) speaks of those by class and boundary.
- The ledger is not balanced where a status is flagged as conserved and is not; by how much is said exactly.
- `diffuse_densities` need not end: not if the mean over the elements an even number of steps away from some element is
  above the tolerance. Those are a whole component, unless all its elements have as many neighbours as there can be and
  none a smaller one; then the component can have two sides, as a ring of four has, whose means go to and fro.
- `find_rails` looks a rail up by its global number and not by its quality, as the comment has it; with unique numbers
  it finds the one that was chosen.
- A collapse can build an entity that is there already, as three triangles around a vertex do in
  `SmallMeshes.CollapseFan`. Within the products of one key it does not happen exactly if the link condition holds
  (`LiveEntities.ProductsAreNew`). Nothing here tests it; the filters for classification and quality that come before,
  which the model does not have, may rule such candidates out.
- `self_send_part1` leaves two displacements when all data go to the rank itself; these are too few if it has other
  destinations, which then get empty messages.

## Left out

- Rounding: values are real numbers. The validity checks are about the exact values.
- The table of binomial coefficients ends at 33; the model uses the mathematical ones.
- Validity of elements of order 1, whose determinant is constant, and the fixed sizes of the arrays of values.
- DiffusionLoop.WhenLoopEnds: leaves out means that are the tolerance itself; then the loop ends just if the elements
  have all got that value after finitely many steps.
- ErrorCorrection.DiffuseDensities: requires that the loop ends, as `DiffusionLoop` has it, since it need not.
- Elements with neighbours but without size, for which diffusion divides by zero.
- Collapse.CollapseEdges: takes the independent set of vertices and the renumbering of the vertices as inputs.
- LiveEntities.ProductsAreNew: is about the products of one key and the entities that stay; products of different keys
  can coincide where quality does not rule it out.
- Canonical.ChooseUnique: takes the order of the canonical lists as what sorting gives; the sort itself is not modelled.
- Of `separate_cavities` only the parts that the transfer of errors goes by; those by class and boundary, and the
  transfer of densities by intersection, are not part of the model.
- The choice of which status is flagged as conserved, and several components of a density, which are treated alike.
- Choosing collapses by quality (`filter_coarsen_candidates`), swaps, refinement and their entity templates.
- Surfaces: raising the order of faces (`elevate_curve_order_3to4` and its like) and interpolating points; the edge
  kernels of these functions share scratch arrays between parallel iterations, which the model does not have.
- MPI calls other than those of neighbour discovery, whose behaviour is that of the standard; `Future`s and `iexch`.
- The fast path for self-sends is a build option for GPUs; the network is modelled as delivering what is sent.
- Reading grammars, printing, and the tables that `accept_parser` writes.
