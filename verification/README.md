# archcheck: a verified model

archcheck reads the include graph and the token streams of a C++ code base and reports
include cycles, architectural regressions, overly complex functions and copy-paste. This
project models four of its parts in Dafny and proves what they are for.

Where archcheck mutates vectors, stacks and maps, the model has classes, arrays and loops,
each tied by its contract to a specification; the theorems are about the specifications.
Every file holds one module of the same name, except `TarjanState.dfy`, whose module is
`TarjanSpec`.

**The include-graph engine.** `IncludeGraph` is the mutable graph: unique normalised paths,
mirrored adjacency lists, and conditional marks that say "every add of this edge was
conditional" (a ghost log of all adds makes that statement precise). `TarjanState`,
`TarjanEnter`, `TarjanScan`, `TarjanClose` and `Tarjan` prove the iterative component search
correct by an invariant over all its states; `SccPartition` shows that its result depends
on the edges alone. `Condensation` and `IncludeDepths` prove the work-stack depth pass
terminates and gives longest chains. `GraphDiff`, `GrownCycles`, `PathCorrespondence` and
`GrownTheorems` cover the comparison of two graphs by path; `GraphMetrics`, `ShrinkingEdits`,
`ChainLengths`, `AreaEdges`, `RegressionReport` and `FileRemovals` cover the report that
decides the exit code, up to the theorems on which edits can fail the gate or be reported.
`AreaPaths` says by the shape of paths which area dependencies are new, and `RegressionGate`
by the two graphs when the gate fails and when there is a finding.
`CycleWitness` is the SF.9 search for a cycle to show, and `CycleOrder` says which cycle that
is. `GraphBaseline` and `GraphReload` are the saved form of a graph.

**The complexity pipeline.** `Directives` and `DirectiveOutput` show that the `#if` stack
machine evaluates the tree of conditional branches, and `DirectiveSources` says so of the
tokens of a source. `FunctionSpans` finds the bodies, and `DefinitionShapes` says which tokens
make a definition.
`ScoreMachine` is the flag-driven scorer with what it keeps on every token stream.
`CognitiveTree` gives trees of statements, expressions and lambdas with their printed
tokens, `CognitiveCost` what the scorer charges for a tree, with all it remembers between
tokens as an explicit argument, and `CognitiveRefinement` proves that the machine computes
that charge. `CognitiveMetric` is Cognitive Complexity as its definition (Campbell, 2018)
assigns it to a tree, without the scorer: 1 for each maximal run of like operators of an
operand sequence, which a `!` does not interrupt and a `,`, `;`, `:` or `?` ends; 1 plus the
nesting for each structure, conditional expressions included; 1 for each else and goto.
Parentheses and brackets hold operand sequences of their own, so that `a && (b && c)` costs
2; tools that flatten parentheses give it 1. `CognitiveDeviations` proves where the charge departs from the metric
and that on these trees it departs nowhere else, `CognitivePlain` describes code without
departures, `CognitiveTheorems` says all this of the machine, and `CognitiveFamilies` and
`CognitiveNesting` have closed forms for families of programs.

**The clone detector.** `BraceMatching`, `StatementRuns`, `FragmentWalk` and
`FragmentTheorems` cut a file into fragments, and `FragmentShapes` says by the tokens which
spans these are; `Winnowing` and `CloneIndex` find candidate pairs, and `CandidateVerdicts`
says by their fields which; `Similarity` and `Jaccard` measure them; `PairFilters` and
`PairPhases` are the ranking and the filters; `FocusTheorem`, `Containment` and `TwinOrder`
say what these may and may not lose, and `PairVerdicts` what becomes of one pair and of two,
by their fields.

**The violation baseline.** `JsonText`, `JsonFields`, `BaselineLine` and `ViolationBaseline`
are the printer and the key-searching reader of known violations; `JsonValidity` compares
the printed text with the standards, `JsonReading` says what a standard reader makes of it,
and `JsonDocuments` that the whole file is a JSON document of the violations.

`Sorting`, `StringOrder`, `EdgeOrder`, `Subsequences`, `Digraphs`, `Tokens`, `Fragments`,
`Violations` and `Wrappers` hold what several parts share.

## Promises that hold only under a condition

Each of these is kept as the code has it; a lemma gives an input, and another the
condition under which the promise holds.

- The score is documented as Cognitive Complexity. `CognitiveTheorems.MachineScore` gives
  the difference for every tree, and the score is the metric iff the departures balance;
  `MachineIsCognitive` is the case of code that has none. The departures, each with a family
  of programs:
  - Runs: a `!` between two like operators splits their run (`NegationSplits`; noted in
    `docs/research/local_complexity_drift_examples.md`, lines 1301-1305). Like operators of
    different operand sequences are merged, because neither a `,` nor the end of a statement
    resets the tracker (`ArgumentsMerge`, `TrackerCarriesOver`), and an `&&` that sticks to
    the name before it is not seen at all (`UnspacedIgnored`).
  - A `co_await` costs 1 (`AwaitCharged`;
    `docs/research/local_complexity_drift_scorer_review.md`, line 111).
  - Levels short of the nesting: conditional expressions add none (`NestedConditionals`;
    `docs/research/cognitive_complexity_delta_design.md`, line 91). A `;` closes all braceless
    bodies, those around the braces that it stands in as well (`ClosedEarly`). A `=` before
    its brace hides a lambda, so `[=]` does (`CaptureForgetsLambda`). A control statement in a
    lambda in a header ends that header, so that its body is not known for one
    (`HeaderLost`).
  - Levels ahead of it: braceless bodies that end in a braced one stay open until a `;`
    (`ClosedLate`), and those of a lambda in parentheses until the call ends
    (`LambdaPilesUp`). A `[` makes a later plain brace a lambda body (`ScopeTakenForLambda`).
  - The mark of a do-while stays set until a header ends, and a while loop until then costs
    nothing (`LoopsUnseen`); the tail of a do-while with a braceless body is a loop of its
    own (`TailsCharged`).
- A cycle with an unconditional edge is meant to be reported by SF.9. The rule judges a
  component by its first cycle in the order of the include lists, and stays silent when all
  edges of that one are conditional, even if the same component holds an unconditional
  cycle (`CycleOrder.UnconditionalCycleCanHide`, `ReportedIff`).
- The containment pass keeps the maximal span of a clone site, except that two pairs
  covering the same two places crosswise drop each other
  (`Containment.TwinsDropEachOther`, `SurvivorIff`, `RepresentedIff`). That needs a synthetic
  run numbered out of line order, as the suffix run of a body is before the bodies nested in
  it (`TwinOrder.TwinsExist`, `TwinsNeedARun`); with runs switched off no clone is lost
  (`WithoutRunsNoCloneLost`).
- Removing includes never fails the gate, but breaking a cycle can lengthen the longest
  chain, so the advisory chain finding can fire on such an edit
  (`RegressionReport.CuttingARingIsReported`). It cannot exactly if no path through distinct
  files of the baseline is longer than its longest chain
  (`ChainLengths.RemovalsKeepChainIff`, `RegressionReport.RemovingIsClean`,
  `KeepingALongPathIsReported`). Removing files can raise nccd, as the removal of a file
  without any includes does beside a ring (`FileRemovals.RemovingALoneFileIsReported`): exactly
  if the cumulative dependency falls by a smaller factor than n log n (`NccdGrowsIff`).
- The baseline reader undoes only three of the escapes that the printer writes
  (`JsonText.RoundTripIff`). A message with a tab loads changed, and a violation in a file
  with a tab in its name is new against the baseline just saved
  (`ViolationBaseline.TabIsNew`); nothing saved is new exactly if every rule and file name is
  faithful text (`NothingSavedIsNewIff`).
- Escaped text is meant to be valid JSON always. Its escapes always are
  (`JsonValidity.EscapeIsStringBody`), but overlong forms and surrogates are copied, so it is
  UTF-8 exactly without them (`OverlongIsCopied`, `EscapeIsUtf8Iff`).
- A new dependency between two areas is meant to be reported. Areas are joined to a key by a
  line break, so that directory names with line breaks can make two pairs one
  (`AreaPaths.LineBreaksMerge`); without them exactly the new pairs are reported
  (`NewDependencyIff`).
- A focused scan reports the same pairs as the full scan over the focus files, but its
  counts of scored pairs and of whole-file clones are those of the smaller candidate list.

## Model

| member | source | states |
|---|---|---|
| `Tarjan.TarjanState.constructor` | src/graph/algorithms.cpp:147-153 | a fresh search: every node unvisited, both stacks empty |
| `Tarjan.TarjanState.OpenNode` | src/graph/algorithms.cpp:39-46 | the new node gets the next index as index and low link, goes on the component stack and is marked held; nothing else changes |
| `Tarjan.TarjanState.EmitComponent` | src/graph/algorithms.cpp:48-63 | exactly the part of the component stack from the node up leaves it, unmarked, and becomes one component |
| `Tarjan.TarjanState.CloseNode` | src/graph/algorithms.cpp:65-77 | closing a finished node keeps the search invariant (emitted components are whole reachability classes, low links are real and lower bounds) and drops one frame |
| `Tarjan.TarjanState.StepIntoSuccessor` | src/graph/algorithms.cpp:79-96 | scanning stops either at an unvisited successor, which is pushed, or with all successors covered by the low link; the invariant holds in between |
| `Tarjan.TarjanState.RunTarjanFrom` | src/graph/algorithms.cpp:98-112 | the loop over the explicit call stack terminates, keeps the invariant, visits the root and forgets no visited node |
| `Tarjan.ComputeScc` | src/graph/algorithms.cpp:147-163 | for every graph the result is the list of all mutual-reachability classes, each once, each sorted, ordered by least member |
| `TarjanEnter.EnterKeeps` | src/graph/algorithms.cpp:98-108 | entering an unvisited node keeps every part of the search invariant |
| `TarjanScan.PassKeeps` | src/graph/algorithms.cpp:84-94 | passing a visited successor, with or without lowering the low link, keeps the search invariant |
| `TarjanClose.MergeKeeps` | src/graph/algorithms.cpp:71-76 | closing a node that is no root hands its low link to the parent and keeps the invariant |
| `TarjanClose.SplitIsScc` | src/graph/algorithms.cpp:48-63 | what a closing root cuts off the component stack is a whole class of mutually reachable nodes |
| `TarjanClose.CutKeeps` | src/graph/algorithms.cpp:67-76 | closing a root keeps the invariant, with the cut-off class added to the components |
| `SccPartition.SccListUnique` | src/graph/algorithms.cpp:114-121 | two graphs with the same edges have the same component list: the result does not depend on adjacency order |
| `Condensation.PushPending` | src/graph/algorithms.cpp:194-200 | pushed are exactly the successors not yet done; ready iff there is none |
| `Condensation.ResolveDepthFrom` | src/graph/algorithms.cpp:182-208 | on every acyclic graph the loop terminates although the stack holds duplicates, settles the root and keeps all settled depths longest-path lengths |
| `Condensation.ComputeSccDepths` | src/graph/algorithms.cpp:210-222 | every component gets the length of the longest path that starts there |
| `IncludeDepths.BuildCondensation` | src/graph/algorithms.cpp:167-180 | edges between components exactly where an edge joins two of their nodes |
| `IncludeDepths.CondAcyclic` | src/graph/algorithms.cpp:167-180 | the condensation has no cycle, which is what the depth pass needs to terminate |
| `IncludeDepths.DepthTransfers` | src/graph/algorithms.cpp:224-238 | the longest path in the condensation is the longest strictly descending chain of files in the include graph |
| `IncludeDepths.IncludeDepthUnique` | src/graph/algorithms.cpp:224-238 | the depth of a file is determined by reachability alone |
| `IncludeDepths.ComputeIncludeDepths` | src/graph/algorithms.cpp:224-238 | every node gets the length of the longest strictly descending include chain from it |
| `GraphMetrics.ReachableFrom` | src/graph/algorithms.cpp:123-143 | the queue search visits exactly the nodes reachable from the start |
| `GraphMetrics.ComputeFanIn` | src/graph/algorithms.cpp:240-248 | every node gets the number of nodes with an edge to it |
| `GraphMetrics.CumulativeDependency` | src/graph/algorithms.cpp:263-265 | the cumulative dependency is the number of ordered pairs joined by a path |
| `GraphMetrics.ComputeGraphMetrics` | src/graph/algorithms.cpp:250-269 | chain length and fan-in are attained maxima, ccd counts reachable pairs, acd and nccd are its normalisations, and the empty graph scores zero |
| `IncludeGraph.NormalForms` | src/graph/dependency_graph.cpp:13-27 | normalising gives a path without backslashes and leading "./", leaves exactly such paths alone, and is idempotent |
| `IncludeGraph.NormalizePath` | src/graph/dependency_graph.cpp:13-27 | the two loops compute the normal form |
| `IncludeGraph.EdgeKeyInjective` | src/graph/dependency_graph.cpp:37 | the 64-bit key tells any two edges between 32-bit nodes apart |
| `IncludeGraph.DependencyGraph.constructor` | src/graph/dependency_graph.cpp:41-101 | an empty graph satisfies the class invariant |
| `IncludeGraph.DependencyGraph.AddNode` | src/graph/dependency_graph.cpp:41-53 | a path is added only if its normal form is new; the id names that path; mirrored lists, unique normal paths and conditional marks stay valid |
| `IncludeGraph.DependencyGraph.AddEdge` | src/graph/dependency_graph.cpp:55-68 | forward and reverse lists stay mirror images without duplicates, only this edge changes, and it is conditional iff every add of it was |
| `IncludeGraph.DependencyGraph.View` | src/graph/dependency_graph.cpp:70-99 | the value the algorithms read has the same paths, edges and conditional marks as the object |
| `GraphDiff.IndexByPath` | src/graph/diff.cpp:21-31 | looks up the node of every path and nothing else |
| `GraphDiff.AddedEdges` | src/graph/diff.cpp:96-116 | lists, once and in order, exactly the current edges with no counterpart by path in the baseline |
| `GraphDiff.RemovedEdges` | src/graph/diff.cpp:118-142 | lists, once and in order, the current node pairs whose paths were joined in the baseline and no longer are |
| `GraphDiff.RemovedIsAddedBackwards` | src/graph/diff.cpp:96-142 | by path, removed edges are the edges added in the opposite direction, short of those whose endpoint is gone |
| `EdgeOrder.RisingEdges` | src/graph/diff.cpp:96-116 | the order of both lists is by source, then by target |
| `GrownCycles.BestBaselineMatch` | src/graph/diff.cpp:70-92 | the first baseline set of largest overlap, or the size of the list when nothing overlaps |
| `GrownCycles.BestMatchUnique` | src/graph/diff.cpp:70-92 | that description determines the index |
| `GrownCycles.NontrivialPathSets` | src/graph/diff.cpp:49-68 | path sets of the components of two or more nodes, empty sets for the others, index by index |
| `GrownCycles.GrownSccs` | src/graph/diff.cpp:144-165 | reports, in component order, every current cycle larger than its best-matching baseline cycle, with both sizes |
| `GrownTheorems.AdditiveReport` | src/graph/diff.cpp:144-165 | when the current graph only adds to the baseline, a cycle is reported iff its path set was not already a cycle; the baseline size is that of a largest cycle it meets, or 0 |
| `GrownTheorems.ShrinkingNeverGrows` | src/graph/diff.cpp:144-165 | when the current graph only removes from the baseline, nothing is reported |
| `PathCorrespondence.LiftReaches` | src/graph/diff.cpp:144-165 | paths between files carry over to every graph that contains the edges by path |
| `PathCorrespondence.PathSetIsClass` | src/graph/diff.cpp:49-68 | the path set of a component is a whole class of mutually reachable paths |
| `ShrinkingEdits.FanInMonotone` | src/graph/algorithms.cpp:240-248 | removing includes never raises the fan-in of a file |
| `ShrinkingEdits.CcdMonotone` | src/graph/algorithms.cpp:263-265 | removing includes never raises the cumulative dependency |
| `ShrinkingEdits.NccdCannotGrow` | src/diff/regression_report.cpp:179-180 | over the same files, removing includes never raises nccd |
| `ChainLengths.EraseLoops` | src/graph/algorithms.cpp:224-238 | a walk can be cut down to a simple path that still passes the component of every link of a chain |
| `ChainLengths.ChainCannotGrow` | src/diff/regression_report.cpp:176-177 | if no path through distinct files of the baseline is longer than its longest chain, removing includes or files never lengthens the longest chain |
| `ChainLengths.KeepingOnePath` | src/diff/regression_report.cpp:176-177 | keeping only the edges of a path through distinct files makes it a chain, so the longest chain is then at least as long |
| `ChainLengths.RemovalsKeepChainIff` | src/diff/regression_report.cpp:176-177 | no removing edit lengthens the longest chain iff no path through distinct files of the baseline is longer than it; the same condition whether or not files may be removed |
| `ChainLengths.CycleFreeIsWithin` | src/diff/regression_report.cpp:176-177 | a baseline without cycles meets that condition |
| `ChainLengths.ChainIsShort` | src/graph/algorithms.cpp:210-238 | a descending chain never repeats a file |
| `ChainLengths.CuttingARingLengthensChains` | src/diff/regression_report.cpp:176-177 | a ring of n files has longest chain 0, and n - 1 after one of its includes is cut |
| `AreaEdges.BuildAreaClassifier` | src/diff/regression_report.cpp:49-65 | the second directory level is used iff both graphs together have exactly one top directory |
| `AreaEdges.CollectCrossAreaEdges` | src/diff/regression_report.cpp:77-104 | one entry for every ordered pair of different areas joined by an edge, with the count and the first such edge as sample |
| `AreaEdges.DetectNewCrossAreaDependencies` | src/diff/regression_report.cpp:106-123 | exactly the area pairs of the current graph that the baseline lacks, each once, in strictly rising order, with count and sample; which paths these are, `AreaPaths.NewDependencyIff` says |
| `AreaEdges.NoNewAreas` | src/diff/regression_report.cpp:106-123 | if every current edge was in the baseline, no area dependency is new |
| `AreaPaths.AreaOfRoot` | src/diff/regression_report.cpp:24-28 | a file name without a slash lies in the area `<root>` |
| `AreaPaths.AreaOfTop` | src/diff/regression_report.cpp:29-34 | a file right below a top directory lies in the area of that directory, single-rooted tree or not |
| `AreaPaths.AreaOfDeep` | src/diff/regression_report.cpp:24-35 | for names d and e without a slash a path d/e/rest lies in the area d, and in a single-rooted tree in d/e |
| `AreaPaths.StartsInIff` | src/diff/regression_report.cpp:49-64 | the top directory of a path is what stands before its first slash, and a path without one has none |
| `AreaPaths.NewDependencyIff` | src/diff/regression_report.cpp:106-123 | the report has an entry from area x to y iff these differ, some include of the current graph leads from x to y and none of the baseline does (paths without line breaks) |
| `AreaPaths.LineBreaksMerge` | src/diff/regression_report.cpp:67-75 | directory names with line breaks give one key for two pairs of areas |
| `AreaPaths.ReportInOrder` | src/diff/regression_report.cpp:120-121 | the entries rise by the area that depends, then by the other one |
| `AreaPaths.NewIncludeReported` | src/diff/regression_report.cpp:106-123 | in a single-rooted tree an include from d/e/r to d/f/s is reported as d/e to d/f if the baseline has none from below d/e to below d/f |
| `RegressionReport.DetectNewGodHeaders` | src/diff/regression_report.cpp:148-166 | exactly the paths whose fan-in exceeds the threshold now and did not in the baseline |
| `RegressionReport.GodHeaderMonotone` | src/diff/regression_report.cpp:148-166 | a god header of a smaller graph is one of every graph that contains it |
| `RegressionReport.BuildRegressionReport` | src/diff/regression_report.cpp:168-182 | every field of the report is what its detector says about the two graphs |
| `RegressionReport.RemovingNeverGates` | src/diff/regression_report.cpp:127-182 | an edit that only removes includes or files never fails the gate and shows no added edge and no new area dependency; a finding is a longer chain or a higher nccd, and over the same files only the chain |
| `FileRemovals.NccdGrowsIff` | src/diff/regression_report.cpp:179-180 | for any two graphs that are not empty the nccd delta is reported iff the cumulative dependency falls by a smaller factor than n log n |
| `FileRemovals.RemovingALoneFileIsReported` | src/diff/regression_report.cpp:179-180 | removing a file that includes nothing and is not included from beside a ring of n files raises nccd (ccd falls from n n + 1 to n n): reported, without failing the gate |
| `RegressionReport.RemovingIsClean` | src/diff/regression_report.cpp:127-182 | if no path through distinct files of the baseline is longer than its longest chain, such an edit reports no longer chain, and over the same files nothing at all |
| `RegressionReport.KeepingALongPathIsReported` | src/diff/regression_report.cpp:127-182 | otherwise the edit that keeps only the includes of such a path is reported, without failing the gate |
| `RegressionReport.CuttingARingIsReported` | src/diff/regression_report.cpp:176-177 | cutting one include of a ring of n files is reported as a chain grown from 0 to n - 1 |
| `RegressionReport.RemovingFromAcyclicIsClean` | src/diff/regression_report.cpp:127-182 | if the baseline has no cycle such an edit reports nothing at all |
| `RegressionReport.AddingGatesOnNewCycles` | src/diff/regression_report.cpp:136-145 | when files and edges are only added, grown cycles are reported iff some current cycle was not a cycle before |
| `RegressionReport.DropRenameArtifactCycles` | src/diff/regression_report.cpp:270-283 | keeps, in order, the grown cycles with a member that is not a renamed path, and returns how many were dropped |
| `RegressionGate.KeptIff` | src/diff/regression_report.cpp:270-283 | a grown cycle is kept iff it was there and is empty or has a member that is not a renamed path |
| `RegressionGate.GrownIff` | src/graph/diff.cpp:144-165 | a cycle of the current graph is reported iff it is larger than the closest baseline cycle: the one with most paths in common, on ties that with the least file |
| `RegressionGate.GatesIff` | include/archcheck/diff/regression_report.h:77-80 | the run fails iff a cycle outgrew the closest one of the baseline, or a file is included by more files than the threshold that was not in the baseline |
| `RegressionGate.HasRegressionIff` | include/archcheck/diff/regression_report.h:71-75 | there is a finding iff some include is new, the gate fails, the longest chain is longer or nccd is higher; a removed include is none, and no area dependency is new without a new include |
| `CycleWitness.CycleFinder.Dfs` | src/rules/sf9_no_cycles.cpp:25-43 | returns what the recursive search finds, appends its path on success, and restores both the path and the visited set on failure |
| `CycleWitness.FindIff` | src/rules/sf9_no_cycles.cpp:25-43 | the search from a node succeeds iff the target is reachable inside the members without visited nodes |
| `CycleWitness.FindIsSimple` | src/rules/sf9_no_cycles.cpp:25-43 | what it returns is a path through distinct unvisited members that ends next to the target |
| `CycleWitness.FirstCycleIsCycle` | src/rules/sf9_no_cycles.cpp:131-136 | the loop over the successors yields a real include cycle through the start |
| `CycleWitness.EverySccHasWitness` | src/rules/sf9_no_cycles.cpp:123-136 | every component of two or more files yields such a cycle, and an empty path only through a self-edge |
| `CycleWitness.AllEdgesConditional` | src/rules/sf9_no_cycles.cpp:46-58 | true iff the path is not empty and every edge of the closed cycle is conditional |
| `CycleWitness.BuildCycleMessage` | src/rules/sf9_no_cycles.cpp:102-115 | the paths of the cycle in order, joined by arrows, closed with the start |
| `CycleWitness.CheckScc` | src/rules/sf9_no_cycles.cpp:125-139 | the finding of one component |
| `CycleWitness.Check` | src/rules/sf9_no_cycles.cpp:119-142 | the findings of all components, in component order |
| `CycleWitness.UnconditionalFirstEdgeReported` | src/rules/sf9_no_cycles.cpp:131-139 | it is reported whenever the first edge from its least file into the component is unconditional |
| `CycleWitness.AllConditionalSilent` | src/rules/sf9_no_cycles.cpp:137-138 | a component whose inner edges are all conditional is never reported |
| `CycleOrder.FindIsFirst` | src/rules/sf9_no_cycles.cpp:25-43 | of all simple paths to the target the search returns the first in the order of the include lists |
| `CycleOrder.FirstCycleIsFirst` | src/rules/sf9_no_cycles.cpp:131-136 | the loop over the successors stops at the first simple cycle through the start, and finds none only if there is none |
| `CycleOrder.FirstCycleUnique` | src/rules/sf9_no_cycles.cpp:131-136 | there is only one such cycle |
| `CycleOrder.ReportedIff` | src/rules/sf9_no_cycles.cpp:125-139 | a component of two or more files that is no inline split is reported, by its first cycle, unless that cycle is not a self-include and all its edges are conditional |
| `CycleOrder.SplitIsSilent` | src/rules/sf9_no_cycles.cpp:125-130 | single files and two files that form an inline split are never reported |
| `CycleOrder.MessageOfTwo` | src/rules/sf9_no_cycles.cpp:102-115 | the message of a cycle of two files, spelled out |
| `CycleOrder.UnconditionalCycleCanHide` | src/rules/sf9_no_cycles.cpp:131-139 | three files that form one component with an unconditional cycle, and the check reports nothing; with the include list of one file in the other order it reports the component |
| `ScoreMachine.ScoreState.constructor` | src/scan/local_complexity_metrics.cpp:24-56 | the initial state of the scorer |
| `ScoreMachine.ScoreState.HandleFreeKeyword` | src/scan/local_complexity_metrics.cpp:65-82 | consumes exactly the free keywords, with their effect on the pending flags |
| `ScoreMachine.ScoreState.HandleKeyword` | src/scan/local_complexity_metrics.cpp:85-114 | consumes exactly the scoring keywords, with their increment and flags |
| `ScoreMachine.ScoreState.HandleLogicalOp` | src/scan/local_complexity_metrics.cpp:127-135 | one increment when the operator differs from the one the tracker holds at this depth |
| `ScoreMachine.ScoreState.HandleOpenBrace` | src/scan/local_complexity_metrics.cpp:137-154 | a control body or a lambda body deepens the nesting, any other brace does not |
| `ScoreMachine.ScoreState.HandleCloseBrace` | src/scan/local_complexity_metrics.cpp:156-166 | undoes the innermost brace, and nothing when none is open |
| `ScoreMachine.ScoreState.HandleParens` | src/scan/local_complexity_metrics.cpp:168-193 | a parenthesis opens or drops one tracker; the one that closes a header arms the body |
| `ScoreMachine.ScoreState.HandlePunct` | src/scan/local_complexity_metrics.cpp:195-224 | the effect of every punctuation symbol |
| `ScoreMachine.ScoreState.ResolvePendingControl` | src/scan/local_complexity_metrics.cpp:228-245 | decides else against else-if and opens braceless bodies |
| `ScoreMachine.ScoreState.ScoreToken` | src/scan/local_complexity_metrics.cpp:247-263 | one token is one step of the machine |
| `ScoreMachine.ScoreSpan` | src/scan/local_complexity_metrics.cpp:265-281 | scores the tokens strictly inside the body and counts the lines they begin |
| `ScoreMachine.LinesAreRuns` | src/scan/local_complexity_metrics.cpp:268-277 | the lines of a function are the tokens inside its body that are the first there or on another line than the token before |
| `Tokens.SpellingOfSymbol` | src/scan/local_complexity_metrics.cpp:116-120 | every text is the spelling of its own symbol, so symbols tell all texts apart |
| `ScoreMachine.SticksToText` | src/scan/local_complexity_metrics.cpp:118-125 | an `&&` sticks to the token before it iff it starts where that ends and that ends in a letter, a digit, `_` or `>` |
| `ScoreMachine.NothingSticksToSymbols` | src/scan/local_complexity_metrics.cpp:118-125 | nothing sticks to a token that ends in any other character |
| `ScoreMachine.StepBalanced` | src/scan/local_complexity_metrics.cpp:228-263 | any token in any context keeps nesting = control frames + braceless bodies, one tracker for every open parenthesis, and increments <= score <= increments * (1 + deepest nesting) |
| `ScoreMachine.RunBalanced` | src/scan/local_complexity_metrics.cpp:265-278 | so after every token stream whatsoever |
| `ScoreMachine.ClampsNeverAct` | src/scan/local_complexity_metrics.cpp:162-163 | in such states neither clamp of the nesting level at zero changes anything |
| `ScoreMachine.RunParens` | src/scan/local_complexity_metrics.cpp:168-191 | after every token stream the depth is the number of parentheses left open, a `)` without a partner being passed over |
| `ScoreMachine.RunBraces` | src/scan/local_complexity_metrics.cpp:156-166 | if no prefix closes more braces than it opens, the brace stack follows the brace depth exactly |
| `CognitiveRefinement.ItemRun` | src/scan/local_complexity_metrics.cpp:127-224 | running the machine over an expression, lambdas with their statements included, adds exactly what the recursion charges and leaves what the recursion says is remembered |
| `CognitiveRefinement.GroupRun` | src/scan/local_complexity_metrics.cpp:168-193 | parentheses have an operator tracker of their own, and behind them the one from before is back |
| `CognitiveRefinement.HeaderRun` | src/scan/local_complexity_metrics.cpp:168-193 | a header makes the machine await a body, unless a do-while is remembered or a header inside it has ended it |
| `CognitiveRefinement.SubscriptRun` | src/scan/local_complexity_metrics.cpp:201-206 | a `[` makes the machine take the next unclaimed brace for a lambda body |
| `CognitiveRefinement.LambdaRun` | src/scan/local_complexity_metrics.cpp:137-154 | the body of a lambda is scored one level deeper, exactly if the `[` is still remembered at its brace |
| `CognitiveRefinement.BlockRun` | src/scan/local_complexity_metrics.cpp:137-166 | an awaited braced body is scored one level deeper and leaves the machine at the level of its open braceless bodies |
| `CognitiveRefinement.BareRun` | src/scan/local_complexity_metrics.cpp:228-245 | an awaited braceless body, whatever statement it is, stays open until a `;` outside parentheses |
| `CognitiveRefinement.ScopeRun` | src/scan/local_complexity_metrics.cpp:137-166 | any other brace is a plain scope, or a lambda body after `[` |
| `CognitiveRefinement.BodyRun` | src/scan/local_complexity_metrics.cpp:137-166 | the body after a header is scored as an awaited one exactly if it is awaited |
| `CognitiveRefinement.TailRun` | src/scan/local_complexity_metrics.cpp:102-107 | else costs 1, else-if costs 1 and not its if, at any length of the chain |
| `CognitiveRefinement.DoWhileRun` | src/scan/local_complexity_metrics.cpp:65-82 | the tail of a do-while is swallowed after a braced body, and scored as a loop with an empty body after a braceless one |
| `CognitiveRefinement.SwallowedLoopRun` | src/scan/local_complexity_metrics.cpp:71-76 | a while loop that is taken for such a tail costs nothing, and its body is taken for a plain scope |
| `CognitiveRefinement.StmtRun` | src/scan/local_complexity_metrics.cpp:247-263 | running the machine over a printed statement adds exactly its recursive cost |
| `CognitiveRefinement.StmtsRun` | src/scan/local_complexity_metrics.cpp:247-263 | and so for statement sequences, from every nesting level, inside any parentheses, and whatever is remembered |
| `CognitiveTheorems.MachineComputesCost` | src/scan/local_complexity_metrics.cpp:265-281 | for every statement tree the machine ends with the recursive score, count and depth, with what the recursion remembers, and with all braces and parentheses closed |
| `CognitiveDeviations.RunsAreStarts` | src/scan/local_complexity_metrics.cpp:127-135 | counting operators that differ from the one before them counts the maximal runs of like operators |
| `CognitiveDeviations.ItemsDepart` | src/scan/local_complexity_metrics.cpp:127-224 | the charge for an expression is its runs and the metric of what it holds, but for the departures |
| `CognitiveDeviations.StmtsDepart` | src/scan/local_complexity_metrics.cpp:247-263 | so for whole statement sequences, from every nesting level and whatever is remembered |
| `CognitivePlain.PlainStmtsDepartNowhere` | src/scan/local_complexity_metrics.cpp:127-224 | plain code has no departure: operators in one operand sequence each and with no `!` among them, outside headers and parentheses only until the first; no structure in a conditional operand, no await, no do-while; braceless chains end in a simple statement; lambdas have braced bodies, no `=` before them, and stand in no header |
| `CognitiveTheorems.MachineScore` | include/archcheck/scan/local_complexity_metrics.h:21 | for every printed tree the score is the Cognitive Complexity plus split runs, awaits, levels ahead and phantom loops, less merged runs, levels short and unseen loops; equal iff these balance |
| `CognitiveTheorems.MachineIsCognitive` | include/archcheck/scan/local_complexity_metrics.h:21 | on plain code the score is the Cognitive Complexity |
| `CognitiveFamilies.NegationSplits` | src/scan/local_complexity_metrics.cpp:199-200 | `if (a && !b && !c ...)` with d negated operands has Cognitive Complexity 2 and scores 1 + d |
| `CognitiveFamilies.NestedConditionals` | src/scan/local_complexity_metrics.cpp:197-198 | d nested conditional expressions have Cognitive Complexity d(d+1)/2 and score d |
| `CognitiveFamilies.ArgumentsMerge` | src/scan/local_complexity_metrics.cpp:127-135 | `f(a && b, c && d, ...)` with d + 1 arguments has Cognitive Complexity d + 1 and scores 1 |
| `CognitiveFamilies.TrackerCarriesOver` | src/scan/local_complexity_metrics.cpp:213-223 | d statements `x && y;` have Cognitive Complexity d and score 1 |
| `CognitiveFamilies.UnspacedIgnored` | src/scan/local_complexity_metrics.cpp:116-125 | d statements `x&& y;` have Cognitive Complexity d and score 0 |
| `CognitiveFamilies.AwaitCharged` | src/scan/local_complexity_metrics.cpp:108-112 | a `co_await` has Cognitive Complexity 0 and scores 1 |
| `CognitiveFamilies.NestedIfsScore` | src/scan/local_complexity_metrics.cpp:45-49 | d nested ifs are plain and score d(d+1)/2 |
| `CognitiveNesting.ClosedEarly` | src/scan/local_complexity_metrics.cpp:213-223 | `if (a) for (b) { if (c) x; ... }` with d inner ifs has Cognitive Complexity 3 + 3d and scores 4 + 2d: the first `;` closes the outer body |
| `CognitiveNesting.ClosedLate` | src/scan/local_complexity_metrics.cpp:213-223 | `if (a) for (b) { }` and d ifs with empty blocks after it have Cognitive Complexity 3 + d and score 3 + 2d: no `;` closes the body |
| `CognitiveNesting.ScopeTakenForLambda` | src/scan/local_complexity_metrics.cpp:201-202 | `if (a[b]) { { ... } }` with d ifs in the inner scope has Cognitive Complexity 1 + 2d and scores 1 + 3d |
| `CognitiveNesting.LambdaPilesUp` | src/scan/local_complexity_metrics.cpp:213-223 | `f([] { if (a) x; ... });` with d ifs has Cognitive Complexity 2d and scores d(d+3)/2: in parentheses no `;` closes a body |
| `CognitiveNesting.CaptureForgetsLambda` | src/scan/local_complexity_metrics.cpp:203-204 | `f([=] { if (a) { } ... });` with d ifs has Cognitive Complexity 2d and scores d: the `=` clears the mark of `[` |
| `CognitiveNesting.HeaderLost` | src/scan/local_complexity_metrics.cpp:168-193 | `if (f([] { if (a) { } })) { ... }` with d ifs in its body has Cognitive Complexity 3 + 2d and scores 3 + d: the inner header ends the outer one |
| `CognitiveNesting.PlainLambdaScores` | src/scan/local_complexity_metrics.cpp:145-150 | `f([] { if (a) { } ... });` with d ifs is plain and scores 2d, its Cognitive Complexity |
| `CognitiveNesting.LoopsUnseen` | src/scan/local_complexity_metrics.cpp:71-76 | a do-while and d while loops after it have Cognitive Complexity 1 + d and score 1 |
| `CognitiveNesting.TailsCharged` | src/scan/local_complexity_metrics.cpp:71-76 | d loops `do x; while (a);` have Cognitive Complexity d and score 2d |
| `Directives.SkipDirectiveLine` | src/scan/local_complexity_metrics.cpp:333-347 | one logical line with its backslash continuations |
| `Directives.DirectiveState.OnDirective` | src/scan/local_complexity_metrics.cpp:312-320 | what each directive does to the chain stack |
| `Directives.DirectiveState.Close` | src/scan/local_complexity_metrics.cpp:322-329 | the longest branch of the innermost chain moves to the enclosing sink |
| `Directives.StripDirectiveTokens` | src/scan/local_complexity_metrics.cpp:351-373 | the stack loop computes the stripped token sequence; what that is of a source, `DirectiveSources.StripsSources` says |
| `Directives.StrippedIsEval` | src/scan/local_complexity_metrics.cpp:351-373 | on every input, unbalanced ones included, the stack machine equals recursive evaluation of the chains, open chains being closed at end of file |
| `Directives.LongestIsFirst` | src/scan/local_complexity_metrics.cpp:301-306 | the branch kept is the first of the longest ones |
| `Directives.StripsTrees` | src/scan/local_complexity_metrics.cpp:351-373 | on a properly nested source every chain is replaced by its first longest resolved branch |
| `DirectiveSources.StripsSources` | src/scan/local_complexity_metrics.cpp:312-373 | told on tokens: of lines of code, other directives, and chains `if`/`ifdef`/`ifndef`, `elif`/`else`, `endif` nested to any depth, with backslash continuations, stripping keeps the code outside and of every chain the first longest branch |
| `DirectiveOutput.StrippedIsSub` | src/scan/local_complexity_metrics.cpp:351-373 | stripping only deletes tokens |
| `DirectiveOutput.StrippedHasNoDirective` | include/archcheck/scan/local_complexity_metrics.h:26-29 | no `#` at the start of a line remains |
| `DirectiveOutput.StripIdempotent` | src/scan/local_complexity_metrics.cpp:351-373 | stripping twice is stripping once |
| `FunctionSpans.FindMatching` | src/scan/function_body_scan.cpp:17-28 | the first position that brings the bracket count back to zero, and none only if there is none |
| `FunctionSpans.MatchesIsCloses` | src/scan/function_body_scan.cpp:17-28 | for braces this is the pairing of the whole stream |
| `FunctionSpans.FindScopeBrace` | src/scan/function_body_scan.cpp:212-228 | the first token that ends the head of the scope if that is a brace, and nothing exactly when it is not |
| `FunctionSpans.FindBodyBrace` | src/scan/function_body_scan.cpp:156-201 | the body brace behind qualifiers, a `noexcept` argument, a return type or initialisers, as the recursion gives it |
| `FunctionSpans.ScanCandidate` | src/scan/function_body_scan.cpp:250-267 | appends the one span that the parenthesis opens, or nothing, and resumes where the recursion says |
| `FunctionSpans.ScanIsWellFormed` | src/scan/function_body_scan.cpp:250-267 | that is at most one span: a matched parameter list, then a matched body, and the scan goes on behind it |
| `FunctionSpans.DiscoverFunctions` | src/scan/function_body_scan.cpp:296-304 | the scan terminates and finds exactly the spans of the recursion; which tokens these are, `DefinitionShapes.DefinitionFound` and `NothingElseFound` say |
| `FunctionSpans.FunctionsInOrder` | src/scan/function_body_scan.cpp:296-304 | all spans are matched, disjoint and in source order |
| `FunctionSpans.PlainDefinitionFound` | src/scan/function_body_scan.cpp:250-267 | a named parameter list with only qualifiers before a braced body is found, and its body is left out of the search |
| `FunctionSpans.DeclarationPassed` | src/scan/function_body_scan.cpp:250-267 | one with a `;` in place of the body yields nothing |
| `DefinitionShapes.HeadIff` | src/scan/function_body_scan.cpp:156-179 | the body brace is at b iff the tokens up to it are qualifiers and `noexcept` or `throw` with their arguments, then nothing, `->` and a return type, or `:` and initialisers |
| `DefinitionShapes.ReturnsIff` | src/scan/function_body_scan.cpp:127-145 | behind `->`: no brace, `;` or `=` outside parentheses before the body brace |
| `DefinitionShapes.InitsIff` | src/scan/function_body_scan.cpp:105-124 | behind `:`: a parenthesis or brace right behind a name or `>` is skipped with its partner, and the body brace is the first behind neither |
| `DefinitionShapes.OpensIff` | src/scan/function_body_scan.cpp:238-246 | a parenthesis behind a name, or behind `operator` and one or two symbols, opens the parameters; after `operator()` the next one does |
| `DefinitionShapes.DefinitionFound` | src/scan/function_body_scan.cpp:248-267 | parameters, such a head and a matched body are found as exactly that span, and the search goes on behind the body |
| `DefinitionShapes.NothingElseFound` | src/scan/function_body_scan.cpp:250-260 | a parenthesis that starts no definition yields nothing, and the search goes on behind its parameter list or at the next token |
| `DefinitionShapes.ScopeHeadIff` | src/scan/function_body_scan.cpp:203-228 | the scope head from a keyword reaches the brace at b iff no `;`, parenthesis, `=` or brace stands between, and angle brackets and commas only behind a colon |
| `DefinitionShapes.ResumesIff` | src/scan/function_body_scan.cpp:269-292 | the scan jumps behind such a brace after `namespace`, `class`, `struct` and `union` only, and goes to the next token otherwise |
| `DefinitionShapes.ScopesHideNothing` | src/scan/function_body_scan.cpp:269-292 | leaving the heads of namespaces and classes out of the search changes nothing that is found |
| `DefinitionShapes.InitialiserIsNoBody` | src/scan/function_body_scan.cpp:103-124 | in `id ( ... ) : id { ... } { ... }` the body is the second braced group |
| `FunctionSpans.BodyKeepsBraceStack` | src/scan/function_body_scan.cpp:257-265 | over the body of every discovered function the scorer never pops an empty brace stack and ends with it empty |
| `Similarity.LcsLength` | src/scan/duplication/similarity.cpp:119-134 | the two rolling rows compute the full table entry |
| `Similarity.LcsIsLongest` | src/scan/duplication/similarity.cpp:119-134 | that entry is attained by a common subsequence and bounds all of them |
| `Similarity.LcsSymmetric` | src/scan/duplication/similarity.cpp:119-134 | it does not depend on the order of the arguments |
| `Similarity.LcsRatio` | src/scan/duplication/similarity.cpp:136-141 | the ratio is twice the longest common subsequence over both lengths |
| `Similarity.RatioIsOneIffEqual` | src/scan/duplication/similarity.cpp:136-141 | it lies in [0, 1], is symmetric, and is 1 iff the sequences are equal and not empty |
| `Jaccard.PlainJaccard` | src/scan/duplication/similarity.cpp:42-65 | counting in integers gives the unweighted similarity, whatever the order of the keys |
| `Jaccard.WeightedJaccard` | src/scan/duplication/similarity.cpp:11-40 | shared weight over total weight, whatever the order of the keys |
| `Jaccard.SimilaritySymmetric` | src/scan/duplication/similarity.cpp:11-65 | the similarity is symmetric |
| `Jaccard.SimilarityIsOneIffSame` | src/scan/duplication/similarity.cpp:11-65 | with weights of at least 0 it lies in [0, 1] and is 1 iff the bags agree on every token of positive weight and hold some such token |
| `Jaccard.OneMoreToken` | src/scan/duplication/similarity.cpp:24-38 | a further token adds its weight, 1 without an entry, times the smaller count to what is shared and times the larger to the total |
| `Winnowing.KGramHashes` | src/scan/duplication/clone_index.cpp:151-169 | one hash for every run of k tokens, in order, none when the sequence is shorter |
| `Winnowing.FingerprintsOf` | src/scan/duplication/clone_index.cpp:174-197 | in spite of emitting only when the place of the minimum changes, the set is exactly the minima of all full windows |
| `Winnowing.FingerprintOfRun` | src/scan/duplication/clone_index.cpp:174-197 | a fingerprint of a run is a fingerprint of every sequence that holds the run |
| `Winnowing.SharedRunIsDetected` | src/scan/duplication/clone_index.cpp:199-201 | two sequences with a common run of k + w - 1 tokens share a fingerprint |
| `CloneIndex.ComputeDocumentFrequency` | src/scan/duplication/clone_index.cpp:19-35 | counts the whole bodies, and for every token the whole bodies that contain it |
| `CloneIndex.BuildRareTokenIndex` | src/scan/duplication/clone_index.cpp:57-76 | every rare token lists, in order, exactly the fragments that contain it |
| `CloneIndex.FindCandidatePairs` | src/scan/duplication/clone_index.cpp:94-113 | every pair of apart fragments is counted once for each rare token both contain, in any order of the tokens |
| `CloneIndex.PostFingerprints` | src/scan/duplication/clone_index.cpp:225-232 | every fingerprint lists, in order, exactly the fragments that carry it |
| `CloneIndex.CountBodies` | src/scan/duplication/clone_index.cpp:240-241 | counts the whole bodies among the carriers |
| `CloneIndex.AddFingerprintCandidates` | src/scan/duplication/clone_index.cpp:222-248 | raises to the floor exactly the apart pairs that share a fingerprint within the cap |
| `CloneIndex.FilterCandidatePairs` | src/scan/duplication/clone_index.cpp:133-148 | keeps exactly the pairs that pass, with their counts |
| `CloneIndex.BuildIndex` | src/scan/duplication/clone_index.cpp:251-269 | the candidate map is the one determined by naive pairwise counting |
| `CloneIndex.CandidateIff` | src/scan/duplication/clone_index.cpp:115-131 | a pair is a candidate iff apart, diverse enough, and sharing enough rare tokens or a usable fingerprint |
| `CandidateVerdicts.RareIff` | src/scan/duplication/clone_index.cpp:46-55 | a token is rare iff it stands in no more whole bodies than the cap, or than the percentage of all of them |
| `CandidateVerdicts.TouchingIsNear` | src/scan/duplication/clone_index.cpp:83-92 | two spans of one file are too close iff a line of one is at most one away from a line of the other |
| `CandidateVerdicts.VerdictIff` | src/scan/duplication/clone_index.cpp:115-131 | by the fields, with any floor: a pair is a candidate iff its spans do not touch, both are diverse enough, and they share enough rare tokens or a fingerprint within the cap; and the count kept for it |
| `CloneIndex.PairMapUnique` | src/scan/duplication/clone_index.cpp:251-269 | that description determines the map: hash-map order leaves no trace |
| `CloneIndex.LongRunHasFingerprint` | src/scan/duplication/clone_index.cpp:174-197 | a run of k + w - 1 tokens has a fingerprint of its own |
| `CloneIndex.SharedRunIsCandidate` | src/scan/duplication/clone_index.cpp:199-248 | two apart and diverse fragments with a common run are a candidate pair as soon as one fingerprint of the run is within the document cap |
| `BraceMatching.MatchBraces` | src/scan/duplication/fragmenter.cpp:30-49 | a brace names its partner iff everything between them is balanced; all other tokens name none |
| `BraceMatching.PartnerUnique` | src/scan/duplication/fragmenter.cpp:30-49 | a brace has one partner |
| `BraceMatching.PairsNest` | src/scan/duplication/fragmenter.cpp:30-49 | what opens inside a pair closes inside it |
| `StatementRuns.StatementStarts` | src/scan/duplication/fragmenter.cpp:242-268 | the scan with its jump over whole blocks gives the statement starts of the recursion |
| `StatementRuns.StartsBetweenBlocks` | src/scan/duplication/fragmenter.cpp:236-241 | no statement start falls inside a block |
| `StatementRuns.SnapEnd` | src/scan/duplication/fragmenter.cpp:271-282 | the first later start at least a tier away, or the end of the body |
| `StatementRuns.EmitStatementRuns` | src/scan/duplication/fragmenter.cpp:289-311 | for every start one run for each tier, equal consecutive ends once |
| `StatementRuns.RunsAreWholeStatements` | src/scan/duplication/fragmenter.cpp:236-241 | every run has the minimal length, stays in the body and cuts no block of it in two |
| `StatementRuns.EmitBoundaryRuns` | src/scan/duplication/fragmenter.cpp:207-224 | prefix and suffix runs of the three sizes that fit |
| `FragmentWalk.OpensCallableBody` | src/scan/duplication/fragmenter.cpp:347-363 | true iff only qualifiers stand between the brace and the last `)` before it |
| `FragmentWalk.IsControlBody` | src/scan/duplication/fragmenter.cpp:319-339 | true iff the `(` that pairs with the `)` before the brace follows a control keyword |
| `FragmentWalk.Collector.EmitBodyAndDescend` | src/scan/duplication/fragmenter.cpp:372-380 | one whole-body fragment and its boundary runs; queues the rest of the range below the inside of the body |
| `FragmentWalk.Collector.ScanRange` | src/scan/duplication/fragmenter.cpp:384-423 | emitted plus still owed fragments equal what the recursion owes for the range, and the queued effort shrinks |
| `FragmentWalk.Collector.Collect` | src/scan/duplication/fragmenter.cpp:430-440 | the explicit work stack terminates and emits exactly the recursive pre-order list |
| `FragmentWalk.ExtractFragments` | src/scan/duplication/fragmenter.cpp:444-459 | the fragments of a file are those of its whole token stream |
| `FragmentTheorems.WalkEmitsBodies` | src/scan/duplication/fragmenter.cpp:384-423 | in every range the whole bodies emitted are those read off brace by brace |
| `FragmentTheorems.BodiesOnceInOrder` | src/scan/duplication/fragmenter.cpp:410-416 | each callable body within the limits is emitted exactly once, in rising order, and is nested iff an emitted body strictly encloses it |
| `FragmentTheorems.RunsLieInBodies` | src/scan/duplication/fragmenter.cpp:199-224 | every synthetic run is nested and lies in one callable body |
| `FragmentShapes.CallableIff` | src/scan/duplication/fragmenter.cpp:347-363 | a brace opens a callable body iff only these eight qualifiers stand between it and the last `)` before it |
| `FragmentShapes.ControlIff` | src/scan/duplication/fragmenter.cpp:319-339 | it is a control body iff the matched parenthesis that ends right before it stands behind `if`, `for`, `while`, `switch` or `catch` |
| `FragmentShapes.BodiesIff` | src/scan/duplication/fragmenter.cpp:384-415 | the whole-body fragments are exactly the matched callable bodies within the limits, each nested iff another of them lies around it |
| `FragmentShapes.StartsIff` | src/scan/duplication/fragmenter.cpp:242-268 | the statement starts are exactly the positions behind a block of the body or a `;` outside its blocks and parentheses, unless a `;` follows |
| `FragmentShapes.SnapEnds` | src/scan/duplication/fragmenter.cpp:271-282 | a run ends at the first start that is at least a tier away, or at the end of the body |
| `FragmentShapes.StatementRunsIff` | src/scan/duplication/fragmenter.cpp:289-311 | the statement runs of a body are exactly, for each start and each of the three tiers, the run up to that end, if it has the minimal size |
| `FragmentShapes.RunsIff` | src/scan/duplication/fragmenter.cpp:384-420 | the synthetic runs of a file are exactly the prefixes and suffixes of the three sizes of callable bodies within the limits, and the statement runs of larger ones that are no control bodies |
| `PairPhases.ScoreCandidates` | src/scan/duplication/duplication_scanner.cpp:67-88 | keeps, in key order, the pairs in focus that clear the similarity gate |
| `PairPhases.SymmetricPairCanon` | src/scan/duplication/duplication_scanner.cpp:99-113 | keeps the first pair of every unordered key |
| `PairPhases.CountWholeBodyPairs` | src/scan/duplication/duplication_scanner.cpp:367-389 | for every two files the number of matched pairs of whole bodies |
| `PairPhases.WholeFileSuppress` | src/scan/duplication/duplication_scanner.cpp:391-435 | drops exactly the pairs over file pairs of which four fifths of both match, and counts those file pairs |
| `PairPhases.FileLocalDownweight` | src/scan/duplication/duplication_scanner.cpp:307-345 | multiplies the weight by 0.80 exactly for same-file pairs of which more than half the tokens are frequent in the file |
| `PairPhases.NestedContainment` | src/scan/duplication/duplication_scanner.cpp:516-531 | keeps exactly the pairs that no other pair drops |
| `PairPhases.OverlapDedup` | src/scan/duplication/duplication_scanner.cpp:533-546 | keeps each pair unless it overlaps one kept before it |
| `PairPhases.ApplyCandidateFilters` | src/scan/duplication/duplication_scanner.cpp:555-584 | all phases in their order, and the number of file pairs that are whole-file clones after the site filters; what becomes of one and of two pairs, `PairVerdicts` says by their fields |
| `PairVerdicts.RankedDescends` | src/scan/duplication/duplication_scanner.cpp:90-96 | the ranking permutes the candidates, and the measure that the options select never rises |
| `PairVerdicts.RankedIsStable` | src/scan/duplication/duplication_scanner.cpp:90-96 | pairs of equal measure keep their order |
| `PairVerdicts.ScoredIff` | src/scan/duplication/duplication_scanner.cpp:67-88 | a pair is scored iff it touches the focus and its selected measure reaches the threshold |
| `PairVerdicts.CanonicalIsUnordered` | src/scan/duplication/duplication_scanner.cpp:99-113 | of two pairs the second goes iff it joins the same two fragments, either way round |
| `PairVerdicts.PairAlone` | src/scan/duplication/duplication_scanner.cpp:117-305 | a pair alone is reported iff its ranges are real, apart and alike in size, it is jointly strong, hand-written, no table of literals and not too small, with each threshold as a number |
| `PairVerdicts.TwoPairs` | src/scan/duplication/duplication_scanner.cpp:457-546 | of two admitted pairs over the same two files: the one that falls to the other is dropped; of two that meet on both sides the better is reported; else both, the better first |
| `PairVerdicts.BetterComesFirst` | src/scan/duplication/duplication_scanner.cpp:90-96 | the order in which two pairs of different measure come does not matter |
| `PairVerdicts.IdiomOfTwo` | src/scan/duplication/duplication_scanner.cpp:307-345 | a pair within a file of two fragments of one token loses a fifth of its weight iff the token occurs more than ten times there and makes up more than half of the first |
| `PairVerdicts.OtherwiseFullWeight` | src/scan/duplication/duplication_scanner.cpp:307-345 | a pair over two files keeps its weight |
| `PairVerdicts.WholeFilesIff` | src/scan/duplication/duplication_scanner.cpp:354-435 | a pair over two files is dropped iff each has two whole bodies or more and at least four fifths as many pairs of whole bodies join them as either has |
| `FocusTheorem.DropsOverSameFiles` | src/scan/duplication/duplication_scanner.cpp:457-510 | a pair drops only pairs over its own two files |
| `FocusTheorem.CanonicalFocused` | src/scan/duplication/duplication_scanner.cpp:99-113 | canonicalisation commutes with restricting to the focus |
| `FocusTheorem.WholeFilesFocused` | src/scan/duplication/duplication_scanner.cpp:391-435 | whole-file suppression commutes with restricting to the focus |
| `FocusTheorem.UncontainedFocused` | src/scan/duplication/duplication_scanner.cpp:516-531 | so does containment |
| `FocusTheorem.DisjointedFocused` | src/scan/duplication/duplication_scanner.cpp:533-546 | and overlap removal |
| `FocusTheorem.FocusIsPureSpeedUp` | include/archcheck/scan/duplication/duplication_scanner.h:63-67 | the focused scan reports exactly the pairs of the full scan that touch a focus file, in the same order |
| `Containment.DropsReal` | src/scan/duplication/duplication_scanner.cpp:490-510 | a pair drops a real pair iff it is a real pair around it with more lines, or its crosswise twin |
| `Containment.SurvivorIff` | src/scan/duplication/duplication_scanner.cpp:516-531 | a real pair survives iff no real pair around it has more lines and it has no crosswise twin |
| `Containment.RepresentedIff` | src/scan/duplication/duplication_scanner.cpp:512-531 | a real pair stays inside a surviving real pair iff some maximal pair around it has no crosswise twin |
| `Containment.NoRealCloneLost` | src/scan/duplication/duplication_scanner.cpp:512-515 | without crosswise twins every dropped real pair lies inside a surviving real pair |
| `Containment.TwinsDropEachOther` | src/scan/duplication/duplication_scanner.cpp:516-531 | two crosswise twins drop each other and nothing of the clone remains |
| `TwinOrder.FragmenterNumbers` | src/scan/duplication/fragmenter.cpp:384-423 | the fragments of a file are numbered so that whole bodies come in line order, whatever runs stand between them |
| `TwinOrder.TwinsNeedARun` | src/scan/duplication/duplication_scanner.cpp:467-510 | of two crosswise twins exactly one goes against the lines of its file, and that one joins a synthetic run to a whole body |
| `TwinOrder.BodyPairsHaveNoTwins` | src/scan/duplication/duplication_scanner.cpp:467-510 | so pairs of whole bodies are never twins |
| `TwinOrder.WithoutRunsNoCloneLost` | src/scan/duplication/duplication_scanner.cpp:512-515 | with synthetic runs switched off every dropped pair lies inside a surviving pair |
| `TwinOrder.FiltersKeepBoth` | src/scan/duplication/duplication_scanner.cpp:467-510 | two pairs of one file that pass every filter on single pairs, joint floor, hand-written, data-table and boilerplate checks included, come to the containment pass as they are |
| `TwinOrder.TwinsLeaveNothing` | src/scan/duplication/duplication_scanner.cpp:516-546 | two twins alone, after all filters on single pairs, leave no survivor |
| `TwinOrder.TwinsExist` | src/scan/duplication/duplication_scanner.cpp:467-510 | with them, a suffix run on the lines of a nested body makes twins that pass every filter on single pairs, and the scan of just these two reports nothing |
| `Containment.DisjointedIsMaximal` | src/scan/duplication/duplication_scanner.cpp:533-546 | after overlap removal no two pairs overlap, and every pair dropped overlaps a survivor ranked before it |
| `Containment.RealClonesAreAccountedFor` | src/scan/duplication/duplication_scanner.cpp:516-546 | through both passes a real pair lies inside a pair that is reported or overlaps a reported one |
| `JsonText.AppendUtf8` | include/archcheck/report/json_escape.h:56-85 | copies a well-formed sequence and passes it, or writes U+FFFD and passes one byte |
| `JsonText.JsonEscape` | include/archcheck/report/json_escape.h:93-110 | the byte loop computes the escaped text |
| `JsonText.EscapeSealed` | include/archcheck/report/json_escape.h:89-92 | in escaped text every quote follows a backslash and no control character remains |
| `JsonValidity.EscapeIsStringBody` | include/archcheck/report/json_escape.h:89-92 | escaped text is the body of a JSON string: no bare quote or control character, and every backslash starts one of the escapes of RFC 8259 |
| `JsonValidity.EscapeIsUtf8Iff` | include/archcheck/report/json_escape.h:41-54 | it is UTF-8 iff no overlong form, surrogate or code point out of range is among the sequences the escaper accepts |
| `JsonValidity.Utf8IsWellShaped` | include/archcheck/report/json_escape.h:89-92 | so it is UTF-8 whenever the input is |
| `JsonValidity.OverlongIsCopied` | include/archcheck/report/json_escape.h:41-54 | E0 80 AF is copied as it stands and is no UTF-8 |
| `JsonReading.ReaderGets` | include/archcheck/report/json_escape.h:16-38 | a reader that follows RFC 8259 gets the text back, with U+FFFD for every stray byte |
| `JsonReading.ReaderGetsUtf8` | include/archcheck/report/json_escape.h:16-38 | so UTF-8 text comes back as it was, control characters included |
| `JsonReading.ShortWhereNamed` | include/archcheck/report/json_escape.h:16-38 | a character gets a two-character escape iff the standard names it |
| `JsonText.JsonUnescape` | src/report/violation_baseline.cpp:20-44 | the index loop computes the unescaped text |
| `JsonText.RoundTripIff` | src/report/violation_baseline.cpp:20-44 | unescaping undoes escaping iff every control character is a newline and every byte from 0x80 on belongs to an accepted sequence |
| `JsonText.PlainTextIsFaithful` | include/archcheck/report/json_escape.h:89-92 | so printable ASCII and newlines always survive |
| `JsonFields.ExtractString` | src/report/violation_baseline.cpp:48-65 | the text between the first occurrence of the key and the next unescaped quote, unescaped; nothing when either is missing |
| `JsonFields.ExtractInt` | src/report/violation_baseline.cpp:67-88 | the number after the first occurrence of the key; nothing without a digit |
| `JsonFields.PrefixValueSmaller` | src/report/violation_baseline.cpp:79-84 | while digits are read the value never exceeds the number read in the end |
| `JsonFields.NumberRoundTrip` | src/report/violation_baseline.cpp:67-88 | a printed number reads back, whatever follows that is not a digit |
| `JsonFields.EscapedClosesAfter` | src/report/violation_baseline.cpp:56-63 | the quote after an escaped text is the one that closes it |
| `BaselineLine.OnlyKeys` | src/report/violation_baseline.cpp:118-120 | in a saved line only the four keys close with a quote and a colon: no content can forge one |
| `BaselineLine.ParseViolationLine` | src/report/violation_baseline.cpp:95-104 | all four fields, or nothing |
| `BaselineLine.LineRoundTrip` | src/report/violation_baseline.cpp:95-120 | whatever its fields hold, a saved line yields each field's own value |
| `ViolationBaseline.SaveBaseline` | src/report/violation_baseline.cpp:108-126 | the document: head, one line for each violation with commas between, foot; `JsonDocuments.SavedIsJson` says what it means |
| `ViolationBaseline.LoadBaseline` | src/report/violation_baseline.cpp:128-150 | the violations of the violation lines in order, or the first malformed line, or not a baseline |
| `ViolationBaseline.LoadAfterSave` | include/archcheck/report/violation_baseline.h:21-26 | every saved list loads, in order, each text as the escaper lets it through |
| `ViolationBaseline.RoundTripExactly` | include/archcheck/report/violation_baseline.h:21-26 | loading gives back what was saved iff every text is faithful |
| `ViolationBaseline.ViolationLineIff` | src/report/violation_baseline.cpp:90-93 | only lines that start with four spaces and a brace are read as violations |
| `JsonDocuments.SavedIsJson` | src/report/violation_baseline.cpp:108-126 | what is saved is one JSON object by the grammar of RFC 8259: `version` 1 and the list `violations`, each with its own rule, file, line and message in order, for every list and every text |
| `ViolationBaseline.FilterNew` | src/report/violation_baseline.cpp:152-165 | keeps, in order, exactly the violations with no baseline entry of the same rule, the same file and the same line |
| `ViolationBaseline.OnlySameSiteHides` | src/report/violation_baseline.cpp:152-165 | one known violation hides another iff rule, file and line are the same, whatever the messages |
| `JsonText.LaunderedIsFaithful` | src/report/violation_baseline.cpp:20-44 | what comes back from writing and reading always survives the next time |
| `ViolationBaseline.SavedIsKnownIff` | include/archcheck/report/violation_baseline.h:28-29 | a saved violation is known afterwards iff its rule and file are faithful text, whatever else was saved |
| `ViolationBaseline.NothingSavedIsNewIff` | include/archcheck/report/violation_baseline.h:28-29 | new against the list just saved are exactly the violations whose rule or file is no faithful text; none is new iff all are faithful |
| `ViolationBaseline.TabIsNew` | include/archcheck/report/violation_baseline.h:28-29 | a violation in a file with a tab in its name is new against the baseline just saved from it |
| `GraphBaseline.SortedNodePaths` | src/graph/baseline.cpp:28-38 | all paths, strictly rising |
| `StringOrder.FirstDifferenceDecides` | src/graph/baseline.cpp:28-37 | the order of strings: the first difference decides, and a proper prefix comes first |
| `GraphBaseline.Remap` | src/graph/baseline.cpp:42-54 | every node gets the position of its path |
| `GraphBaseline.RemapIsPermutation` | src/graph/baseline.cpp:42-54 | no two nodes share a position and every position is taken |
| `GraphBaseline.RemappedSortedEdges` | src/graph/baseline.cpp:40-65 | strictly rising, and exactly the pairs of positions whose paths are joined |
| `GraphBaseline.SaveBaseline` | src/graph/baseline.cpp:97-104 | the sorted paths and edges of the graph |
| `GraphBaseline.SameDocumentIff` | include/archcheck/graph/baseline.h:27-30 | two graphs have the same document iff they have the same paths and path edges |
| `GraphReload.AssembleGraph` | src/graph/baseline.cpp:222-236 | the normalised paths of the document and its edges between them, all unconditional |
| `GraphReload.LoadBaseline` | src/graph/baseline.cpp:263-291 | the first problem in the order of the checks and an empty graph, or the graph of the document |
| `GraphReload.LoadsIff` | src/graph/baseline.cpp:263-291 | exactly the documents of version 1 with both lists load whose edges join listed nodes; the version is judged before the lists |
| `GraphReload.SavedLoads` | include/archcheck/graph/baseline.h:32-35 | a saved document always loads |
| `GraphReload.ReloadKeepsGraph` | src/graph/baseline.cpp:222-236 | what loads has the paths and path edges of the graph that was saved |
| `GraphReload.SaveLoadSave` | src/graph/baseline.cpp:97-104 | saving what was loaded gives the identical document |
| `GraphReload.SaveAndReload` | src/graph/baseline.cpp:97-104 | the cycle on a live graph keeps paths and path edges and meets no problem |

## Left out

- ScoreMachine.ScoreState.ScoreToken: does not model 32-bit wrap-around; on a body nested tens of thousands deep the source's `int` score overflows.
- CognitiveTheorems.MachineComputesCost: the trees have no word between a keyword and its header (`if constexpr`), which the scorer passes over, and no unbalanced brackets; `RunBalanced` covers every token stream.
- CognitiveMetric.Cognitive: the increment for recursion is not modelled; the scorer has none either, so every recursive function scores 1 less than the full definition gives.
- FunctionSpans.ScanCandidate: names, arity, parameter fingerprints and the scope prefix of a function are not modelled, only where its parameter list and its body are.
- DefinitionShapes.DefinitionFound: says by the tokens what the search takes for a definition; that C++ calls the same a definition is not shown, since the grammar of C++ is not part of this model.
- GraphMetrics.ComputeGraphMetrics: the logarithm is a parameter, positive on positive counts; sums and quotients are real numbers, not doubles.
- Winnowing.FingerprintsOf: the k-gram hash is a fold of an arbitrary function of the tokens; a window of 0 is excluded because the source would then read past the hashes.
- CloneIndex.BuildIndex: the effective rarity cap from a percentage is computed in real numbers, not in floating point, and the IDF logarithms are not computed; weights enter `Jaccard` as a map.
- PairPhases.ApplyCandidateFilters: similarity measures are real numbers attached to each pair; which paths are generated files and the clone type of two fragments are parameters. `std::sort` is modelled as stable, which the order part of `FocusIsPureSpeedUp` needs.
- PairPhases.WholeFileSuppress: keys file pairs by two names where the source joins them with a newline; names that contain a newline are not covered.
- AreaEdges.CollectCrossAreaEdges: the order in which hash maps list areas is not modelled; the report is sorted.
- FragmentWalk.ExtractFragments: a fragment is its token span with its flags; lines, bags, diversity and statement counts of a span are taken as given in `Fragments`.
- PairVerdicts.TwoPairs: gives the verdict on two pairs over two files with the whole-file guard off; over one file `TwinOrder` has the crosswise case, and longer lists are covered by `Containment`.
- CycleWitness.CheckScc: which file names form an inline split is a parameter.
- CycleWitness.CycleFinder.Dfs: the depth of the native recursion is not bounded.
- GraphReload.LoadBaseline: the YAML text level is a library that is not part of this model; the document is its decoded fields. Conditional marks are not saved, as in the source.
- JsonFields.ExtractInt: no overflow occurs while reading (`PrefixValueSmaller`), except for the one line number -2147483648, whose magnitude an `int` cannot hold.
- ViolationBaseline.LoadBaseline: file access is left out; a document is a string of bytes.
- Tarjan.ComputeScc: runs on the value of a graph (`DependencyGraph.View`) with at most 4294967295 nodes, the largest 32-bit index being the unvisited mark.
- `lineOverlap`, `sharedLineCount`, `sharedRareCount`, `normalizeLine` and `collectNormLines`: single loops over sets, easy members.
- Git access, command line, report writers, configuration files, regex scans, file classification, the lexer, and the remaining rules.
