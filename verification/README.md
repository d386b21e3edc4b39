# Pedant, modelled in Dafny

Pedant decides dependency quantified Boolean formulas: universal variables, existential variables each with a set of
universals it may depend on, and a matrix of clauses. A formula is true if there is a *Skolem family*, a function for
every existential that is unchanged when universals outside its dependency set change, such that the matrix holds for
all values of the universals. The repository brings along the SAT engine it uses, the AIGER library, and tools that
check certificates. This project models the parts whose correctness takes an argument over whole runs or over all
families.

| part | files | main results |
|---|---|---|
| CDCL engine | `Sat`, `CdclState`, `CdclWatches`, `CdclPropagate`, `CdclAnalyze`, `CdclUip`, `CdclMinimize`, `CdclRedundant`, `CdclFinal`, `CdclSearch`, `CdclRank`, `CdclInput`, `Luby`, `Cdcl` | one invariant over trail, levels, reasons and watches, kept by every operation; answers of `Solve` are correct under assumptions, the learnt clause and the final clause are exactly what the implication graph says, and a large enough budget always brings an answer |
| vertex separator | `FlowNetwork`, `SeparatorTheory`, `SeparatorCost`, `GraphSeparator` | the result is a separator without forbidden vertices that is best in size and in unpreferred vertices |
| AIGER library | `Aig`, `AigCycles`, `AigReencode`, `AigRenumber`, `AigRebuild`, `Aiger`, `AigBinary`, `AigToCnf` | exact cycle check; renumbering keeps the value of every root and exactly the cones; the shortest binary code and its round trip; polarity-aware clauses with the right models |
| solver loop | `Sizes`, `Dqbf`, `Arbiters`, `SkolemFamily`, `ValidityCheck`, `SolverProgress`, `ValidityChecker`, `PedantSolver`, `SolverStart` | 20 means false, 10 means true and the functions that the learnt clauses define are a model, and with forcing clauses one of them comes after a bounded number of conflicts |
| preprocessing | `ForallReduction`, `Unates`, `UnateChecker` | the set of winning families, or winning itself, is kept |
| dependencies | `DependencyTables`, `DependencyContainer`, `QuantifierPrefix`, `ExtendedOrder`, `DependencyExtractor`, `ResolutionPaths`, `DependencyScheme` | every run keeps the uses acyclic; two constructions of extended dependencies agree; the scheme keeps exactly the connected universals |
| certificates | `Certificate`, `CertificateChecker`, `SkolemRules`, `SkolemCircuit`, `SkolemClauses`, `SkolemAgreement` | an accepted circuit proves the formula true, and is accepted if it is a model; circuit and clauses of a variable define the same function |
| clause exchange | `ClauseExchange`, `ClauseRing`, `ClausesBuffer` | over every interleaving, each thread gets the others' clauses in order, each once, and nothing leaves early |

Objects that the repository updates in place are classes here, with the same fields. Each of their methods is proved
against a function or predicate over the abstract state, usually a value `Snap()` of all fields, and the lemmas are
about that value. SAT solvers that the repository calls but does not contain are parameters with a contract: a model
where they report one, a refutation where they report none. So is the maximum-flow routine. Where the repository walks
over a hash table, the order is a parameter and the result holds for every order.

Two notes on reading the contracts. `SolverInv(s, k)` is the invariant of the engine in which the literals of the
levels below k have been propagated; `SolverInv(Snap(), |trailLim| + 1)` thus covers all levels. And a ghost parameter
such as `rank` in `Reencode` is a witness that the graph has no cycle; `CheckForCycles` shows that one exists exactly
if no error is reported.

## Model

| member | source | states |
|---|---|---|
| Cdcl.Solver.Solve | glucose/glucose/glucose_core/Solver.cc:1736-1839 | For every clause set and every list of assumptions: on true the returned assignment satisfies every clause ever added and every assumption; on false the clauses entail `conflict`, which holds only negated assumptions, so no model of the clauses meets the assumptions, and a clause that is not empty blames exactly the assumptions that reasons lead back to. Undecided only after restarts + 1 searches, each with at least its budget of conflicts; and if one budget reaches a bound known from the numbers of variables and assumptions there is always an answer. The clause set is unchanged and the solver is ready for the next call, whatever was learnt. |
| Cdcl.Solver.Search | glucose/glucose/glucose_core/Solver.cc:1463-1661 | The loop terminates between restarts (a strictly falling rank), and ends with a model, with a refutation whose clause `conflict` is implied and blames exactly the assumptions behind it, or undecided, which takes at least `budget` conflicts and fewer than the bound on conflicts; then the invariant is intact. |
| Cdcl.Solver.SearchStep | glucose/glucose/glucose_core/Solver.cc:1473-1660 | One turn of the loop keeps the search invariant and gives a correct answer, or learns from a conflict that propagation ends in, or opens a level without learning anything; either way the rank falls. Conflicts are counted exactly when something is learnt, and a restart comes only after the budget of conflicts. |
| Cdcl.Solver.SearchAgain | glucose/glucose/glucose_core/Solver.cc:1788-1796 | Search after search: undecided only when every search has used up its budget, so after at least the sum of the budgets. |
| CdclSearch.RankBelow | glucose/glucose/glucose_core/Solver.cc:1463-1661 | The rank is below a bound computed from the numbers of variables and assumptions alone, so a search has fewer conflicts than that. |
| Luby.Luby | glucose/glucose/glucose_core/Solver.cc:1717-1732 | The x-th number is y to the power of the x-th exponent of the sequence, defined independently: each block is the previous one twice and then the next exponent. |
| Luby.LubyReaches | glucose/glucose/glucose_core/Solver.cc:1788-1796 | The budgets of the Luby restarts exceed every number, and it is known when; so with enough restarts `Solve` gives an answer. |
| Cdcl.Solver.Propagate | glucose/glucose/glucose_core/Solver.cc:1030-1137 | Without a conflict the queue is used up and the whole invariant holds, watches included: every clause has its watches true, unassigned, or excused by a true literal of no higher level. With a conflict the returned clause is false on the trail and the invariant of all lower levels still holds. Clauses are only permuted, the trail only grows. |
| Cdcl.Solver.PropagateLong | glucose/glucose/glucose_core/Solver.cc:1058-1137 | The in-place two-pointer compaction of a watcher list sweeps the whole list or finds a false clause and drops the queue. |
| Cdcl.Solver.PropagateBinary | glucose/glucose/glucose_core/Solver.cc:1043-1056 | Every blocker of the binary list ends up true, or a clause false on the trail is returned, possibly with a non-empty queue. |
| Cdcl.Solver.FinishConflict | glucose/glucose/glucose_core/Solver.cc:1124-1137 | After a conflict the rest of the list is copied down: exactly the watchers kept so far, the visited one and those to come remain, in order. |
| CdclPropagate.VisitSweep | glucose/glucose/glucose_core/Solver.cc:1059-1135 | Each visit of a watcher advances the sweep (the watcher is kept, moved, or its clause becomes a reason) or finds a false clause, with all other lists undisturbed. |
| CdclPropagate.CompactionStep | glucose/glucose/glucose_core/Solver.cc:1059-1137 | The step inside the compacted list is the step on the list itself: reading at i and writing at j never lose or repeat a watcher. |
| CdclPropagate.VisitCommutes | glucose/glucose/glucose_core/Solver.cc:1059-1118 | The list that is being compacted is never written by a visit: a moved watch goes to another list. |
| CdclPropagate.MoveWatchDone | glucose/glucose/glucose_core/Solver.cc:1110-1117 | Moving a watch to a literal that is not false breaks no list that has been swept before. |
| CdclPropagate.UnitSweep | glucose/glucose/glucose_core/Solver.cc:1122-1134 | If all literals but the first are false the first one follows, with the clause as its reason, and the sweep goes on. |
| CdclPropagate.ConflictInv | glucose/glucose/glucose_core/Solver.cc:1049-1051 | A conflict may leave literals in the queue: the invariant below the current level holds for any queue head. |
| CdclWatches.CancelKeepsInvariant | glucose/glucose/glucose_core/Solver.cc:658-672 | Backtracking needs no watch repair: after any `cancelUntil` the full invariant holds at the new level. |
| CdclWatches.CancelKeepsModels | glucose/glucose/glucose_core/Solver.cc:658-672 | Backtracking forgets no level-0 fact: the models of clauses and facts are the same. |
| Cdcl.Solver.CancelUntil | glucose/glucose/glucose_core/Solver.cc:658-672 | Exactly the assignments above the level are undone and exactly their variables return to the order heap; a level not below the current one changes nothing. |
| CdclState.LevelsMonotone | glucose/glucose/glucose_core/Solver.cc:1005-1010 | Decision levels never decrease along the trail. |
| CdclState.EnqueueKeepsTrail | glucose/glucose/glucose_core/Solver.cc:1005-1010 | Enqueuing keeps the trail invariant, given a unit reason or a level that the literal opens. |
| CdclState.EnqueueKeepsModels | glucose/glucose/glucose_core/Solver.cc:1005-1010 | A literal enqueued with a reason, or as a decision, changes no model of clauses and level-0 facts. |
| Cdcl.Solver.UncheckedEnqueue | glucose/glucose/glucose_core/Solver.cc:1005-1010 | The new state is the old one with value, reason, level and trail entry of the literal. |
| Cdcl.Solver.Analyze | glucose/glucose/glucose_core/Solver.cc:735-920 | From a false clause above level 0, analysis terminates with exactly this clause, whatever the order of the steps: the negated first unique implication point, and of the earlier literals that reach the conflict behind it those that are not superfluous in the configured mode and, for small clauses of few levels, not resolved away by binary clauses. It is implied, false on the trail, without repeated variables, and its first literal is the only one of the current level; the return level is the highest among the others and its literal stands at index 1. All marks are cleared. |
| Cdcl.Solver.FirstUip | glucose/glucose/glucose_core/Solver.cc:744-826 | The resolution loop terminates, never meets a decision while other marked literals of the level are left, and ends at the first unique implication point: what the current level holds before it reaches the conflict through it only, and this is true of no later literal of the trail. The other literals are exactly those of earlier levels above 0 that reach the conflict through what lies behind it. The marks are an implied clause. |
| CdclUip.FirstReached | glucose/glucose/glucose_core/Solver.cc:817-825 | With no mark of the level left, the popped literal is the first unique implication point of the implication graph. |
| CdclUip.BelowReached | glucose/glucose/glucose_core/Solver.cc:792-812 | The literals collected on the way are exactly the variables of earlier levels that reach the conflict through positions behind the unique implication point. |
| CdclUip.PopTraced | glucose/glucose/glucose_core/Solver.cc:817-823 | Every literal that the backward scan passes over is bypassed: an earlier one of the level reaches the conflict without it. |
| CdclUip.FeedsNext | glucose/glucose/glucose_core/Solver.cc:787-815 | Expanding a literal adds exactly the literals of its reason to what reaches the conflict. |
| CdclAnalyze.CutFromReason | glucose/glucose/glucose_core/Solver.cc:787-825 | Resolving with the reason of a marked literal keeps the marks an implied clause. |
| CdclAnalyze.JustifiedMarksHold | glucose/glucose/glucose_core/Solver.cc:926-960 | In every model in which the kept literals hold, so do all marked ones: the meaning behind recursive minimisation. |
| CdclAnalyze.MinimizedCut | glucose/glucose/glucose_core/Solver.cc:841-865 | The literals kept by minimisation alone are still an implied clause. |
| Cdcl.Solver.LitRedundant | glucose/glucose/glucose_core/Solver.cc:926-960 | The search ends and answers yes exactly if the literal is removable: all reasons below it lead to level 0, to literals of the clause, or to further removable literals on the levels of the clause. On success all literals marked on the way are justified without the tested one, on failure the marks are as before. |
| CdclRedundant.JustifiedRemovable | glucose/glucose/glucose_core/Solver.cc:926-960 | A search that finds no obstacle shows everything that it has marked to be removable, by induction along the trail. |
| CdclRedundant.RemovableNeeds | glucose/glucose/glucose_core/Solver.cc:939-955 | The literals in the reason of a removable one are facts, in the clause, or removable and on its levels: one obstacle is enough to answer no. |
| Cdcl.Solver.FilterLearnt | glucose/glucose/glucose_core/Solver.cc:841-865 | The two-pointer filter keeps the first literal and a subsequence of the others, in order: exactly those that are not superfluous with respect to the clause before, although the marks grow from one test to the next. What it drops is justified by what is left. |
| Cdcl.Solver.Minimize | glucose/glucose/glucose_core/Solver.cc:835-865 | In each of the three modes exactly the superfluous literals are dropped: by the search in mode 2, by one reason in mode 1, none in mode 0. The shortened clause is still implied, false and asserting. |
| Cdcl.Solver.MinimizeBinary | glucose/glucose/glucose_core/Solver.cc:614-653 | If the clause has few enough levels, exactly those literals but the first are dropped whose negation is true and in a binary clause with the asserting literal; otherwise none. What is left is an implied asserting clause with the same first literal. |
| Cdcl.Solver.FindResolvable | glucose/glucose/glucose_core/Solver.cc:621-635 | Walking over the binary watcher list finds every variable that can be resolved away, each counted once. |
| CdclRedundant.BlockersResolve | glucose/glucose/glucose_core/Solver.cc:625-634 | The watcher list of the asserting literal shows exactly the binary clauses that contain it. |
| Cdcl.Solver.ComputeLbd | glucose/glucose/glucose_core/Solver.cc:577-607 | The number of different levels in the clause. |
| Cdcl.Solver.SortOut | glucose/glucose/glucose_core/Solver.cc:636-651 | The swap-and-shrink loop removes exactly the literals of resolved variables, none of them the first literal. |
| Cdcl.Solver.BacktrackLevel | glucose/glucose/glucose_core/Solver.cc:880-893 | The literal of the highest remaining level is brought to index 1 and its level is returned, 0 for a unit clause; the first literal stays and so does the set of the others. |
| CdclSearch.LearnKeepsInvariant | glucose/glucose/glucose_core/Solver.cc:1567-1581 | Attaching the learnt clause after backjumping and asserting its first literal keeps the invariant. |
| CdclSearch.UnitKeepsInvariant | glucose/glucose/glucose_core/Solver.cc:1556-1557 | A learnt unit becomes a fact of level 0; the models are those that satisfy it. |
| Cdcl.Solver.LearnFrom | glucose/glucose/glucose_core/Solver.cc:1530-1583 | Analysis, backjump and assertion give exactly the state after the return to the computed level with the learnt clause attached and its first literal asserted, up to the order of literals within clauses; they restore the search invariant and strictly lower the rank behind termination. |
| CdclRank.RankDrops | glucose/glucose/glucose_core/Solver.cc:1463-1661 | Read as a number, the ends of the levels fall whenever a level grows or a new one is added after an unchanged prefix. |
| Cdcl.Solver.AttachClause | glucose/glucose/glucose_core/Solver.cc:463-476 | A clause is put into the arena and watched at its first two literals, in the binary or the long lists. |
| Cdcl.Solver.AnalyzeFinal | glucose/glucose/glucose_core/Solver.cc:972-1002 | The final clause is implied and holds only negations of assumptions: the given literal, and exactly the negated decisions that reasons lead back to from it, each once, from the last to the first. The marks are cleared. |
| CdclFinal.FinalBlames | glucose/glucose/glucose_core/Solver.cc:972-1002 | A literal behind the first is in the final clause if and only if it is the negation of a decision that a path of reasons leads back to. |
| CdclFinal.LedDecisionsIn | glucose/glucose/glucose_core/Solver.cc:984-997 | Collecting decisions from the end of the trail gives each of them once, and none that no path leads to. |
| CdclFinal.ThroughExpand | glucose/glucose/glucose_core/Solver.cc:991-995 | Expanding a position adds exactly what its reason holds to what lies behind the literal. |
| CdclSearch.FinalReason | glucose/glucose/glucose_core/Solver.cc:987-997 | Replacing a marked propagated literal by the rest of its reason keeps the final clause together with the marks implied. |
| CdclSearch.CompleteTrailIsModel | glucose/glucose/glucose_core/Solver.cc:1646-1651 | When nothing is left to decide, the trail satisfies every clause ever added and every assumption. |
| CdclSearch.ConflictAtRoot | glucose/glucose/glucose_core/Solver.cc:1507-1510 | A false clause at level 0 refutes the formula without any assumption. |
| Cdcl.Solver.PlaceAssumptions | glucose/glucose/glucose_core/Solver.cc:1628-1641 | Assumptions that already hold get dummy levels; a false one ends the search with the final clause for it, which blames exactly the assumptions behind it; otherwise the first open one is returned. |
| Cdcl.Solver.PickBranchLit | glucose/glucose/glucose_core/Solver.cc:678-715 | Whatever the heuristics prefer, the chosen literal is unassigned, and none is returned only if every variable is assigned. |
| Cdcl.Solver.Simplify | glucose/glucose/glucose_core/Solver.cc:1323-1351 | The propagation at level 0 keeps the search invariant or refutes the formula. |
| CdclInput.CleanedMeansSame | glucose/glucose/glucose_core/Solver.cc:416-421 | Under the facts of level 0 the cleaned clause holds exactly when the given one does. |
| CdclInput.SatisfiedAddsNothing | glucose/glucose/glucose_core/Solver.cc:416-418 | A clause with a true literal or a complementary pair holds in every model, so it may be dropped. |
| CdclInput.Clean | glucose/glucose/glucose_core/Solver.cc:416-421 | The clean-up loop over the sorted clause drops false and repeated literals and reports true and complementary ones. |
| Cdcl.Solver.AddClause | glucose/glucose/glucose_core/Solver.cc:395-460 | The formula gains exactly the given clause and the solver stays ready; the answer false means that the formula has been refuted. |
| Cdcl.Solver.NewVar | glucose/glucose/glucose_core/Solver.cc:373-392 | The invariant survives a further variable, also after a refutation. |
| Cdcl.Solver.constructor | glucose/glucose/glucose_core/Solver.cc:123-207 | A new solver is ready, with the empty formula. |
| GraphSeparator.SeparatorOf | src/graphSeparator.cc:17-128 | Given a maximum-flow routine, for every graph and both sides: the result x has no repeated vertex, no forbidden vertex and meets every path between the sides; and for every separator y without forbidden vertices 2 times the size of x plus the number of its unpreferred vertices is at most the same sum for y. |
| GraphSeparator.BestSpares | src/graphSeparator.cc:107-116 | Among separators of the same size none has fewer unpreferred vertices, and none without unpreferred vertices is smaller. |
| SeparatorCost.WeightInNumbers | src/graphSeparator.cc:88-116 | The capacities of the network say this: a set without forbidden vertices weighs 2 for each vertex and 1 more for each unpreferred one. |
| SeparatorTheory.CheapestSeparator | src/graphSeparator.cc:83-128 | The same for every maximum flow and the vertices reachable in its residual graph. |
| SeparatorTheory.CutIsInternal | src/graphSeparator.cc:168-183 | No graph edge, source edge or sink edge crosses the cut, although graph edges have the same default weight as vertices: the assertion on adjacent indices cannot fail. |
| SeparatorTheory.PenaltyNeverPaid | src/graphSeparator.cc:88-101 | The flow stays below the penalty (twice the size of the first side, plus one, plus the number of unpreferred vertices), so no forbidden vertex is cut. |
| SeparatorTheory.CutSeparates | src/graphSeparator.cc:218-244 | The cut vertices meet every path from one side to the other. |
| SeparatorTheory.CutWeighsFlow | src/graphSeparator.cc:119-126 | The cut vertices weigh exactly the value of the flow. |
| SeparatorTheory.FlowBelowSeparator | src/graphSeparator.cc:88-97 | No separator weighs less than the flow. |
| FlowNetwork.CutCarriesValue | src/graphSeparator.cc:119-120 | Conservation: the value of the flow crosses every cut. |
| FlowNetwork.NetIsCapacity | src/graphSeparator.cc:218-244 | A set closed under residual edges is filled exactly by the flow (maximum flow is minimum cut). |
| FlowNetwork.LeaveOut | src/graphSeparator.cc:168-183 | A vertex whose only incoming arc is full and whose flow leaves through one arc can be left out of a residual-closed set: the step that moves a cut from external to internal edges. |
| GraphSeparator.Separator.constructor | src/graphSeparator.cc:17-41 | The network holds exactly the internal and graph edges with their reverses and default capacities. |
| GraphSeparator.Separator.ApplyPenalty | src/graphSeparator.cc:140-153 | Exactly the internal edge and the outgoing forward edges of the vertex get the penalty. |
| GraphSeparator.FinalCaps | src/graphSeparator.cc:101-116 | Connecting both sides and penalising forbidden, then unpreferred vertices gives exactly the capacities of the problem. |
| GraphSeparator.Separator.ReachableInResidualGraph | src/graphSeparator.cc:185-210 | The search with a queue marks exactly the vertices reachable along edges with residual capacity. |
| GraphSeparator.Separator.GetSeparatingEdges | src/graphSeparator.cc:218-244 | Looking at reverse edges of unreachable vertices finds exactly the forward edges that leave the reachable part, each once. |
| GraphSeparator.CrossingIsInternal | src/graphSeparator.cc:172-181 | Every separating edge joins the two halves of a vertex. |
| GraphSeparator.Separator.GetVertexSeparator | src/graphSeparator.cc:83-128 | On the built network the whole computation returns a best separator. |
| Aiger.AigerGraph.CheckForCycles | aiger-1.9.9/aiger.c:809-885 | From cleared marks the walk terminates and reports an error exactly if some gate reaches itself, equivalently if the gates cannot be ranked. |
| AigCycles.FinishedIsRanked | aiger-1.9.9/aiger.c:809-885 | When no error is reported, the order in which gates are finished ranks every gate above its operands. |
| Aig.RankedIsAcyclic | aiger-1.9.9/aiger.c:809-885 | A graph whose gates can be ranked has no cycle. |
| Aiger.AigerGraph.Reencode | aiger-1.9.9/aiger.c:1476-1668 | For every acyclic, fully defined graph: the result passes the re-encoding check, is legal and acyclic, and every next-state, reset, output, bad, constraint, justice and fairness literal has the same value for all inputs and latches; a graph that is already re-encoded is not changed. |
| AigRenumber.RenumberedSameMeaning | aiger-1.9.9/aiger.c:1476-1668 | The code table renames every root to a literal of the same value, under all values of inputs and latches. |
| AigRenumber.ConeKept | aiger-1.9.9/aiger.c:1576-1603 | When a graph is renumbered, a gate is kept exactly if it lies in the cone of a root. (A graph that already passes the re-encoding check is not renumbered and keeps all its gates.) |
| Aiger.AigerGraph.ReencodeLit | aiger-1.9.9/aiger.c:1362-1466 | Everything below the literal gets consecutive codes, operands before gates; older codes stay. |
| Aiger.AigerGraph.Descend | aiger-1.9.9/aiger.c:1383-1453 | The search with an explicit stack and sentinel entries terminates, leaves no gate on the stack, and gives the gate its code after its operands. |
| Aiger.AigerGraph.FirstCodeTable | aiger-1.9.9/aiger.c:1492-1520 | Inputs and then latches get the codes 2, 4, 6 and so on. |
| Aiger.AigerGraph.ReencodeRoots | aiger-1.9.9/aiger.c:1522-1572 | All roots are translated by the final code table, although the table grows between them. |
| Aiger.AigerGraph.CompactAnds | aiger-1.9.9/aiger.c:1576-1605 | In-place compaction and sorting leave exactly the coded gates, in the order of their codes, larger operand first. |
| AigRebuild.VariablesShrink | aiger-1.9.9/aiger.c:1607-1609 | The new number of variables is at most the old one, as the assertion says. |
| Aiger.AigerGraph.FixKinds | aiger-1.9.9/aiger.c:1611-1653 | The type flags of all variables describe the new graph. |
| Aiger.AigerGraph.IsReencoded | aiger-1.9.9/aiger.c:1305-1349 | True exactly for consecutive inputs, latches and gates whose operands descend. |
| Aiger.AigerGraph.MaxInputOrLatch | aiger-1.9.9/aiger.c:1280-1303 | The largest literal of an input or latch, 0 if there is none. |
| AigBinary.ReencodedRoundTrip | aiger-1.9.9/aiger.c:1693-1710 | The gate section written for any re-encoded graph is read back as the same gates, and reading stops where writing stopped, whatever surrounds it. |
| AigBinary.AndsRoundTrip | aiger-1.9.9/aiger.c:2331-2370 | The same for any gates with consecutive left-hand sides. |
| AigBinary.DeltaRoundTrip | aiger-1.9.9/aiger.c:948-967 | Every 32-bit difference is read back, and exactly its bytes are consumed. |
| AigBinary.DeltaIsCode | aiger-1.9.9/aiger.c:948-967 | What is written are bytes that spell the value, all but the last with the high bit set. |
| AigBinary.DeltaShortest | aiger-1.9.9/aiger.c:948-967 | No code of the value has fewer bytes, and none but the one written has as many. |
| AigBinary.ReadExact | aiger-1.9.9/aiger.c:2286-2329 | On arbitrary bytes: the reader returns the number that the code spells exactly if at most four bytes come before the last and a fifth is below 16; it shifts by more than a word exactly if five come before a last below 8. |
| AigBinary.ReadMisleads | aiger-1.9.9/aiger.c:2304-2324 | Concrete codes for both failures. |
| AigBinary.WriteDelta | aiger-1.9.9/aiger.c:948-967 | Appends exactly the seven-bit groups of the value. |
| AigBinary.ReadDelta | aiger-1.9.9/aiger.c:2286-2329 | Loop with all five ways out, against the recursive reader. |
| AigBinary.WriteAnds | aiger-1.9.9/aiger.c:1693-1710 | Appends both differences of every gate. |
| AigBinary.ReadAnds | aiger-1.9.9/aiger.c:2331-2370 | Both differences per gate, with the two checks for differences that are too large. |
| AigToCnf.Convert | aiger-1.9.9/aigtocnf.c:120-231 | With one output, no latches, bad states or constraints, clauses are written; otherwise the graph is unchanged and the refusal is that of the first failing test: latches, then bad states, then constraints, then no output or more than one. The models of the clauses, seen on the inputs, are exactly the input values for which the output of the original graph is true. The clauses are those of the literals that signed paths of operands lead to from the output, in gate order, and no others; the header counts match the clauses and all variables in it occur. |
| AigToCnf.CountedIsCarried | aiger-1.9.9/aigtocnf.c:150-169 | A literal has references if and only if a path of operands leads to it from the output, with signs as each gate is used. |
| AigToCnf.ClausesEncode | aiger-1.9.9/aigtocnf.c:200-227 | For a re-encoded graph: every model makes the output true and every input assignment that does so extends to a model, although gates are only described in the polarities in which they are used. |
| AigToCnf.TrueIsTrue | aiger-1.9.9/aigtocnf.c:203-225 | In a model, a literal that is referenced and true has the value true; nothing is said of a literal that is not referenced. |
| AigToCnf.HeaderHolds | aiger-1.9.9/aigtocnf.c:178-198 | Header and clauses agree in number, and the variables are exactly 1 to the announced maximum. |
| AigToCnf.EncodesBefore | aiger-1.9.9/aigtocnf.c:140 | Re-encoding first does not change what the clauses say about the given graph. |
| AigToCnf.CountRefs | aiger-1.9.9/aigtocnf.c:150-169 | The reverse loop counts for each literal the uses by referenced gates, in their polarity. |
| AigToCnf.NumberVariables | aiger-1.9.9/aigtocnf.c:177-196 | Referenced variables are numbered without gaps, opposite literals with opposite signs, and the number of clauses is counted in advance. |
| AigToCnf.EmitClauses | aiger-1.9.9/aigtocnf.c:200-227 | The clauses of referenced literals, gate by gate, then the output. |
| PedantSolver.Solver.Solve | src/solver.cc:86-128 | For every formula: answer 20 means that it is false, no family of Skolem functions is a model. Answer 10 means that it is true, and the functions that the learnt forcing clauses, the arbiter values and the defaults define are a model. Answer 0 only when interrupted, after as many conflicts, each with its core, as the interruption leaves time for; and with forcing clauses in use there is a number of conflicts, computed from the formula alone, beyond which the answer is 10 or 20. All that is assumed are SAT solvers that answer correctly and defaults that are constants or complete decision trees. |
| SolverProgress.ConflictsBounded | src/solver.cc:87-124 | Every conflict is counted by a forcing clause learnt or by arbiter values excluded; both are among finitely many, whose number is computed from the formula. |
| SolverProgress.ForcingIsNew | src/solver.cc:176-186 | The forcing clause of a conflict has not been known: it would have excluded the failing assignment. |
| SolverProgress.TrialIsNew | src/solver.cc:353-366 | Without a new arbiter, the arbiter clause of a conflict rules out the arbiter values that failed, and those had not been ruled out before. |
| SolverProgress.LinkedValue | src/skolemcontainer.cc:209-227 | In the failing assignment an arbiter tied to an existential has the value of that existential, so that the arbiter clause is false there. |
| SolverProgress.ArbitersBounded | src/solver.cc:276-290 | There is at most one arbiter for each existential and each assignment of its dependencies. |
| PedantSolver.Solver.Refine | src/solver.cc:113-124 | One conflict: if the formula is not refuted, either a forcing clause is new or the failed arbiter values are excluded from now on. |
| SolverStart.StartExists | src/solver.cc:58-128 | For every well-formed formula, true or false, there are solvers and defaults as `Solve` asks for. |
| SolverStart.ExtractedFits | src/dependencyextractor.cc:343-350 | Extended dependencies as the extractor finds them are what the solver asks for: each on smaller existentials only, and transitive. |
| ValidityCheck.PassedWins | src/simplevaliditychecker.cc:50-70 | If no valuation follows the forcing clauses and defaults and fails the matrix, and no assignment makes forcing clauses contradict each other, then the functions so defined are a model of the formula. |
| SkolemFamily.FamilyRespects | src/dependencycontainer.cc:186-204 | The functions defined by forcing clauses and defaults over extended dependencies, which mention other existentials, are unchanged when universals outside the dependency set change. |
| SkolemFamily.FamilyFollows | src/skolemcontainer.cc:66-101 | In the valuation that the functions induce, every existential has the value that its own clauses and default give there. |
| SkolemFamily.UnreducedEntailed | src/skolemcontainer.cc:66-72 | A forcing clause from which nothing was dropped already follows from the extraction clauses, so leaving it out of them loses nothing. |
| SkolemFamily.RulesGood | src/modellogger.cc:36-47 | What a candidate says about an existential is a set of rules as the writers of circuits and clauses expect them. |
| ValidityCheck.SignsAreValues | src/consistencychecker.cc:63-95 | If no existential gets both signs, the signs in the consistency encoding are the values of the functions, and no two forcing clauses contradict each other. |
| ValidityCheck.SignsDrive | src/consistencychecker.cc:63-95 | For every assignment of the universals the signs computed in the order of the existentials are a model of the encoding, whether or not clauses contradict each other. |
| ValidityCheck.ClashConflict | src/consistencychecker.cc:111-142 | If an existential gets both signs and none that it sees does, then what it sees, the universals and the arbiters cannot hold together with the extraction clauses: two defaults never clash. |
| ValidityCheck.WholeConflict | src/simplevaliditychecker.cc:102-110 | A valuation that fails the matrix is a conflict of the extraction clauses. |
| ValidityCheckers.SimpleValidityChecker.CheckArbiterAssignment | src/simplevaliditychecker.cc:50-70 | Passed exactly if no valuation that follows the candidate fails the matrix and no assignment gives an existential both signs; then the candidate is a model of the formula. Otherwise the failing assignments cannot hold together with any clauses that contain the matrix and entail the forcing clauses, and a valuation that follows the candidate agrees with them. |
| ValidityCheckers.SimpleValidityChecker.SetFailingAssignments | src/simplevaliditychecker.cc:102-110 | All variables as in the model of the validity query: an unsatisfiable assignment. |
| ValidityCheckers.SimpleValidityChecker.GetConflict | src/simplevaliditychecker.cc:86-99 | The solver does find a conflict, as the assertion says, and its core is one for `analyzeConflict`: existentials without complementary literals, universals taken from the complete assignment, all met by the witness of the failure. |
| ValidityCheckers.ConsistencyChecker.CheckConsistency | src/consistencychecker.cc:103-167 | Consistent exactly if no assignment gives an existential both signs; otherwise an unsatisfiable assignment that a valuation with the values of the candidate meets. |
| ValidityCheckers.ConsistencyChecker.GetInconsistentExistentialVariable | src/consistencychecker.cc:282-303 | Going from a conflicted existential to those that it sees ends, at one that sees no conflicted one. |
| PedantSolver.Solver.CheckCandidate | src/solver.cc:98-111 | Either the candidate is a model, or there is a core of its failure over the clauses learnt so far. |
| PedantSolver.Solver.AddForcingClause | src/skolemcontainer.cc:66-101 | The clause is kept for the checks, and for conflicts exactly if something was dropped from it; either way every forcing clause still follows from the extraction clauses. |
| PedantSolver.Solver.AddArbiterClause | src/skolemcontainer.cc:240-267 | The clause is kept for both, and speaks about what its existential sees and about arbiters. |
| Arbiters.RefutedIsFalse | src/solver.cc:164-174 | If no valuation satisfies the arbiter clauses, no Skolem family is a model of the formula. |
| Arbiters.ArbiterClauseHolds | src/solver.cc:353-365 | The arbiter clause of a conflict holds under the arbiter values that any winning family induces. |
| Arbiters.ForcingClauseHolds | src/solver.cc:176-186 | Every winning family satisfies the forcing clause everywhere, although universals and existentials that the forced variable cannot see are dropped. |
| Arbiters.AddArbiter | src/skolemcontainer.cc:196-207 | A new arbiter changes no value that an older clause speaks about. |
| PedantSolver.Solver.AnalyzeConflict | src/solver.cc:332-368 | A forcing clause is found exactly if arbiters are allowed in it or absent, and some conflict existential sees the others. In use, it is that clause, it is new, and winning families agree with it. Otherwise, or always if so configured, exactly one arbiter clause is added, over the arbiters of the conflict and those of its existentials; without a forcing clause it rules out the current arbiter values unless a new arbiter was introduced. |
| PedantSolver.Solver.AnalyzeForcingConflict | src/solver.cc:293-330 | Exactly the forcing clause is learnt, for the checks and, if reduced, for conflicts, when forcing clauses are in use; every winning family satisfies it. |
| PedantSolver.Solver.HasForcingClause | src/solver.cc:390-409 | The chosen literal has the most extended dependencies among the conflict literals; the answer is yes exactly if its variable sees all the others, and this is so exactly if any of them does. |
| PedantSolver.Solver.GetForcingClause | src/solver.cc:176-186 | Negations of what the variable sees, of the arbiters, and the literal; reduced exactly if something was dropped. |
| PedantSolver.Solver.GetArbiter | src/solver.cc:276-290 | Returns the arbiter of the existential for the restricted assignment, new only if there is none, and realized when clauses are to be introduced. |
| PedantSolver.Solver.RealizeArbiter | src/skolemcontainer.cc:209-227 | Exactly the two clauses that tie an arbiter to its existential are added to the extraction clauses and to the checks; every winning family satisfies them under its own arbiter values. |
| PedantSolver.Solver.LearnFromArbiters | src/solver.cc:353-366 | Exactly the arbiter clause over the arbiters of the conflict and those of its existentials is added; it holds for every winning family, and rules out the current arbiter values unless an arbiter is new or newly realized. |
| PedantSolver.Solver.BlameArbiters | src/solver.cc:353-363 | One arbiter for each conflict existential, in order, with the sign of its literal; without a new arbiter all of them have their current values. |
| PedantSolver.Solver.FindArbiterAssignment | src/solver.cc:164-174 | Values that satisfy every arbiter clause, or none, and then the formula is false; nothing else changes. |
| PedantSolver.Solver.ForcingClausesFromMatrix | src/solver.cc:130-158 | If forcing clauses are in use, every clause of the matrix in which an existential sees the others is taken over. Under the condition of `MatrixForcingExact`, every clause learnt agrees with every winning family. |
| Arbiters.MatrixForcingExact | src/solver.cc:130-158 | When the matrix is a single clause, the forcing clause taken from it is entailed if and only if the clause has no complementary literals or the forced variable sees a complementary pair. |
| Arbiters.MatrixForcingMisleads | src/solver.cc:130-158 | From the clauses [1, -1, 2] and [-2], with universal 1 and existential 2 that depends on nothing, [2] is learnt: the formula is true and the learnt clause refutes it. |
| Arbiters.PairSeen | src/solver.cc:176-186 | The forcing clause keeps a complementary pair exactly if the forced variable sees one in the clause. |
| ForallReduction.ReductionExact | src/preprocessor.cc:12-39 | Every family that respects the dependencies satisfies a clause everywhere exactly when it satisfies the reduced clause everywhere, if and only if the clause has no complementary literals or a complementary pair is kept. |
| ForallReduction.MatrixReductionKeepsModels | src/preprocessor.cc:75-89 | Under that condition on each clause, the models of the formula before and after the reduction are the same families. |
| ForallReduction.ReductionKeepsMeaning | src/preprocessor.cc:12-39 | For clauses without complementary literals, clause by clause. |
| ForallReduction.ReductionMisleads | src/preprocessor.cc:12-39 | [1, -1, 2], with universal 1 and existential 2 that depends on nothing, is reduced to [2]: a model of the first is none of the second. |
| ForallReduction.PairKept | src/preprocessor.cc:21-36 | A complementary pair survives exactly if the stated condition on the clause holds. |
| ForallReduction.ReducedIn | src/preprocessor.cc:17-36 | A literal is dropped exactly if it is universal and no existential of the clause depends on it. |
| ForallReduction.ApplyForallReduction | src/preprocessor.cc:12-39 | The nested loops, with the early exit for innermost existentials and the number of dropped literals. |
| ForallReduction.ReduceMatrix | src/preprocessor.cc:86-88 | Each clause is replaced by its reduction. |
| UnateCheckers.UnateChecker.FindUnates | src/unatechecker.cc:39-121 | The rounds end; in every Skolem family that is a model, replacing all found variables by their constants leaves a model; the returned unit clauses are exactly the found literals. With a solver without conflict limit nothing is missed: every variable has its literal, or neither of its literals is unate under those found. |
| UnateCheckers.UnateChecker.Round | src/unatechecker.cc:66-115 | One pass finds literals that can be fixed one after the other; every variable has its literal or stays open. If an unlimited pass finds nothing, no open variable is unate. |
| UnateCheckers.UnateChecker.TryVariable | src/unatechecker.cc:68-112 | Swap, pop and restore leave the assumptions as they were. Each of the two queries assumes exactly the switches of the other variables, the earlier literals and its two test literals, and their answers decide the result; an unlimited solver finds no literal only if none is unate. |
| Unates.RefutedIsUnate | src/unatechecker.cc:79-87 | A refuted query means: whenever the matrix and the earlier literals hold, they still hold with the variable set to the constant. |
| Unates.UnateIsRefuted | src/unatechecker.cc:79-87 | Conversely the query of a unate literal has no model. |
| UnateCheckers.SwitchedOff | src/unatechecker.cc:73-76 | Moving the last assumption into the place of a switch takes out exactly that switch, also if it was the last. |
| Unates.WitnessModel | src/unatechecker.cc:79-87 | A valuation for which the constant would break the matrix extends to a model of the query. |
| Unates.FixedWins | src/unatechecker.cc:39-121 | Fixing a chain of unate literals turns a model into a model. |
| Unates.SearchMeans | src/unatechecker.cc:9-37 | The models of the search formula are the valuations that satisfy the matrix and whose copy, equal where a switch is on, fails some clause. |
| Unates.NegationMeans | include/utils.h:171-187 | With indicators set as implied, the negated formula holds exactly if some clause fails. |
| UnateCheckers.NegateFormula | include/utils.h:171-187 | The nested loops, with new variables behind the given maximum or, if that is 0, behind the largest variable of the formula. |
| UnateCheckers.MaxVarIndex | include/utils.h:86-94 | An upper bound on all variables that one of them reaches, 0 without variables. |
| UnateCheckers.UnateChecker.constructor | src/unatechecker.cc:9-37 | The search formula is built over fresh copies and switches for every existential. |
| CertificateChecker.CheckModelAig | certification/certifyModel.py:363-391 | Accepted if and only if there are as many outputs as existentials, no output reaches through gates an input that its variable may not depend on, and the functions that the circuit computes satisfy the matrix for all universals; an accepted circuit is a model, so the formula is true. |
| Certificate.EntailedIffSatisfied | certification/certifyModel.py:202-229 | The clauses of the circuit entail every clause of the matrix if and only if the family that the circuit computes satisfies the matrix. |
| Certificate.AcceptedRespects | certification/AIG_Dependency_Checker/AIGERDependencyChecker.cc:44-78 | The functions of an accepted circuit are unchanged when universals outside the dependency set change. |
| Certificate.ModelComputes | certification/AIG2CNF/AigerCnfConverter.cc:31-58 | In a model of the clauses each circuit variable has the value that the circuit computes from the inputs. |
| Certificate.RunHolds | certification/AIG2CNF/AigerCnfConverter.cc:72-92 | Running the circuit on any inputs gives a model of the clauses: they restrict nothing else. |
| Certificate.ModelIsInduced | certification/AIG2CNF/AigerCnfConverter.cc:72-92 | On the variables of the formula every model of the clauses is the valuation that the circuit induces. |
| CertificateChecker.DependencyChecker.Check | certification/AIG_Dependency_Checker/AIGERDependencyChecker.cc:44-78 | True exactly if the numbers agree and the inputs that each output can reach through gates are allowed for its variable. |
| CertificateChecker.DependencyChecker.ComputeDependencies | certification/AIG_Dependency_Checker/AIGERDependencyChecker.cc:27-42 | The map holds, for every gate, exactly the inputs below it. |
| CertificateChecker.CnfConverter.WriteCnfModel | certification/AIG2CNF/AigerCnfConverter.cc:72-97 | The clauses say exactly that every gate and output has its value; the header counts them, and no variable exceeds its maximum. |
| CertificateChecker.CnfConverter.HandleAnd | certification/AIG2CNF/AigerCnfConverter.cc:31-58 | All cases of constant operands add exactly the meaning of the gate. |
| CertificateChecker.CnfConverter.HandleTrueGate | certification/AIG2CNF/AigerCnfConverter.cc:36-44 | A gate with two true operands also names the constant; the extra clauses make that name false and leave the meaning as it was. |
| CertificateChecker.CnfConverter.GetRenaming | certification/AIG2CNF/AigerCnfConverter.cc:60-70 | One variable per circuit variable, fresh at first use, with the sign of the literal. |
| CertificateChecker.CnfConverter.constructor | certification/AIG2CNF/AigerCnfConverter.cc:8-18 | Inputs keep their names; fresh variables start behind all names of inputs and outputs. |
| CertificateChecker.CheckMatrix | certification/certifyModel.py:202-229 | True exactly if no clause of the matrix can fail in a model of the clauses. |
| ClauseExchange.DeliveredInOrder | glucose/glucose/glucose_parallel/ClausesBuffer.cc:184-231 | In every run with two or more threads, what a thread has received is a prefix of the clauses accepted from the other threads, in push order, each once, none of its own. |
| ClauseExchange.RemovedWereDelivered | glucose/glucose/glucose_parallel/ClausesBuffer.cc:124-147 | A clause that has left the ring has been received by every other thread, at its place in the order. |
| ClauseExchange.NothingWithheld | glucose/glucose/glucose_parallel/ClausesBuffer.cc:184-212 | A thread that is told there is nothing has received everything accepted from the others so far; and the clause at the front always waits for some thread. |
| ClausesBuffers.ClausesBuffer.PushClause | glucose/glucose/glucose_parallel/ClausesBuffer.cc:166-182 | Accepted exactly if size, header and clause stay below the capacity; then one queue step, otherwise none, and the ring still stores the queue. |
| ClausesBuffers.ClausesBuffer.GetClause | glucose/glucose/glucose_parallel/ClausesBuffer.cc:184-231 | Exactly one step of the queue: the next clause of another thread with its origin, its counter lowered, removed with its fully read successors if this was the last reader of the front. |
| ClausesBuffers.ClausesBuffer.RemoveLastClause | glucose/glucose/glucose_parallel/ClausesBuffer.cc:124-147 | Removes the front clause and all further ones with counter 0; every cursor on the front moves along. |
| ClauseRing.NotOvertaken | glucose/glucose/glucose_parallel/ClausesBuffer.cc:192-197 | Without forced removal no cursor is ever behind the front, so the repair of a cursor is never needed. |
| ClauseRing.PushStores | glucose/glucose/glucose_parallel/ClausesBuffer.cc:174-180 | Pushing the words of a record with wrap-around stores the longer queue. |
| ClauseRing.ReadIsGet | glucose/glucose/glucose_parallel/ClausesBuffer.cc:213-230 | Reading, counting down and moving the cursor is the queue step, also when the read makes the front removable. |
| ClausesBuffers.ClausesBuffer.SkipOwn | glucose/glucose/glucose_parallel/ClausesBuffer.cc:199-207 | Moves to the place of the first clause from the cursor on that is not of the thread itself. |
| ClausesBuffers.ClausesBuffer.constructor | glucose/glucose/glucose_parallel/ClausesBuffer.cc:80-92 | An empty ring whose cursors stand before the first word, for any number of threads and any size; with two threads and a place the invariant holds. |
| DependencyTables.RunSound | src/dependencycontainer.cc:104-123 | Every run of scheduled definitions and merges, each with a support that its variable may use at that time, keeps the table sound: no variable may use itself through others, and no universal beyond the original dependencies is reached. |
| DependencyTables.NoCycle | src/solver.cc:225-258 | In a sound table no path of uses returns to its start. |
| DependencyTables.ReachesOnlyDependencies | src/solver.cc:225-258 | The universals that a variable can reach are among its original dependencies. |
| DependencyTables.ScheduledSound | src/dependencycontainer.cc:104-117 | One definition keeps the table sound. |
| DependencyTables.PerformedSound | src/dependencycontainer.cc:118-123 | Merging the pending additions keeps the table sound. |
| DependencyTables.DynamicIsReach | src/dependencycontainer.cc:226-241 | The dynamic dependencies of a defined variable are exactly what paths through supports of defined variables reach. |
| DependencyTables.DynamicWithin | src/dependencycontainer.cc:226-241 | They never hold the variable itself nor a universal outside its dependency set. |
| DependencyContainers.DependencyContainer.ComputeDynamicDependencies | src/dependencycontainer.cc:226-241 | The recursion terminates on a sound table and returns the dynamic dependencies. |
| DependencyContainers.DependencyContainer.IncludedInDependencies | src/dependencycontainer.cc:269-306 | The walk over both sorted lists answers yes exactly if every element of the support is in the stored or in the pending list. |
| DependencyContainers.DependencyContainer.ScheduleUpdate | src/dependencycontainer.cc:104-117 | The support is stored, the pending lists of exactly the undefined variables that may use the variable grow by it, and exactly those are reported. |
| DependencyContainers.DependencyContainer.PerformUpdate | src/dependencycontainer.cc:118-123 | In whatever order the hash table is walked, all pending lists are merged and nothing is pending afterwards. |
| DependencyContainers.DependencyContainer.UpdateVectorMap | src/dependencycontainer.cc:243-267 | The two-pointer loop merges two sorted lists without repetitions. |
| DependencyExtractors.DependencyExtractor.ComputeExtendedDependencies | src/dependencyextractor.cc:55-108 | For every prefix with alternating blocks and explicit dependencies: each existential gets its dependencies and exactly the existentials with fewer dependencies, or the same and a smaller name, each once. |
| DependencyExtractors.ComputeExtendedDependencies | include/utils.h:216-244 | The simple pairwise form gives the same sets. |
| DependencyExtractors.ConstructionsAgree | src/dependencyextractor.cc:55-108 | Both constructions give every variable the same set. |
| ExtendedOrder.BeforeIsStrict | include/utils.h:211-215 | The relation behind both is irreflexive and transitive. |
| ExtendedOrder.ExtendedIsSoundStart | src/dependencyextractor.cc:343-350 | Extended dependencies are a sound table to start finding definitions from. |
| ExtendedOrder.MaximalSubSetFound | src/dependencyextractor.cc:145-160 | The first binary search finds the last block whose dependencies are a subset, -1 if there is none. |
| ExtendedOrder.MinimalSuperSetFound | src/dependencyextractor.cc:162-177 | The second finds the first block whose dependencies are a superset, one past the last if there is none. |
| DependencyExtractors.DependencyExtractor.CheckImplicitDependencies | src/dependencyextractor.cc:110-143 | By the two searches x is placed before and after exactly the right existentials of the blocks. |
| DependencyExtractors.DependencyExtractor.PlaceInBlock | src/dependencyextractor.cc:119-138 | Within the block of equal dependencies the names decide. |
| DependencyExtractors.DependencyExtractor.ImplicitDependencies | src/dependencyextractor.cc:76-94 | Walking over the blocks, sorting universals and existentials on the way, gives the extended dependencies among block variables. |
| DependencyExtractors.DependencyExtractor.NoUniversals | src/dependencyextractor.cc:57-70 | Without universals the names decide alone. |
| DependencyExtractors.LowerNoScopes | src/dependencyextractor.cc:57-70 | Then the existentials before one are those with smaller names. |
| DependencyExtractors.CheckExplicitDependencies | src/dependencyextractor.cc:193-211 | Comparing x with every earlier variable adds exactly the pairs in order. |
| DependencyExtractors.BlocksLadder | src/dependencyextractor.cc:76-94 | The dependencies of consecutive blocks strictly grow, which the binary searches rely on. |
| QuantifierPrefixes.QuantifierPrefix.AddUniversalBlock | src/dqdimacs.cc:23-43 | Blocks alternate and no recorded dependency changes: an existential depends on the universals read before it only. |
| QuantifierPrefixes.QuantifierPrefix.AddExistentialBlock | src/dqdimacs.cc:45-64 | New existentials depend on exactly the universals read so far. |
| DependencySchemes.ApplyDependencyScheme | src/dependencyextractor.cc:297-332 | Every existential keeps exactly the universals u of its list for which it is met with one sign on a resolution path from u and with the other on one from the negation of u; the mark vectors, reused for all universals, never mix up two searches. |
| ResolutionPaths.SearchPaths | src/dependencyextractor.cc:236-251 | The recursion terminates and marks the literals of a search that stops at marked literals and at variables not to consider. |
| ResolutionPaths.SearchedIsReach | src/dependencyextractor.cc:236-251 | Exactly the literals connected by a path that avoids earlier marks are marked. |
| DependencySchemes.SetUpSearchVectors | src/dependencyextractor.cc:253-277 | The vectors are ready for one universal: its dependents unmarked, the opposite literals blocked, everything else as before. |
| DependencySchemes.RevertSearchVectors | src/dependencyextractor.cc:281-294 | The variables to consider are taken back. |
| DependencySchemes.PruneFor | src/dependencyextractor.cc:313-329 | One universal: exactly its kept dependents gain it, and the marks stay usable for the universals to come. |
| DependencySchemes.GetContainingClauses | src/dependencyextractor.cc:225-234 | The index of clauses by literal. |
| DependencySchemes.ComputeInverseDependencies | src/dependencyextractor.cc:215-223 | The existentials that depend on each universal. |
| SkolemAgreement.CircuitAndClausesAgree | src/buildAIGER.cc:171-213 | For a variable whose positive and negative forcing clauses never fire together and whose default is a constant or a deciding tree: the clauses have a model around every valuation, and in each model the variable has the value that the circuit computes. |
| SkolemCircuits.AigerBuilder.AddForcingClauses | src/buildAIGER.cc:171-213 | The gates added define the variable: forced to true or false if such a clause fires under the arbiter values, else the default; earlier gates are untouched. |
| SkolemCircuits.AigerBuilder.TreeGate | src/buildAIGER.cc:197-211 | Both forms of the default tree compute the same value. |
| SkolemCircuits.TreeDefines | src/buildAIGER.cc:199-211 | The formula in front of either form: forced values win over the default, whichever sign has fewer clauses. |
| SkolemCircuits.AigerBuilder.ClausesAreActive | src/buildAIGER.cc:257-289 | The literal is true exactly if one of the clauses fires after the arbiters are removed, with constants where that is decided. |
| SkolemCircuits.AigerBuilder.ClauseIsActive | src/buildAIGER.cc:291-306 | The literal is true exactly if all literals of the clause are false, with one gate less than literals. |
| SkolemCircuits.AigerBuilder.Combine | src/buildAIGER.cc:66-79 | The conjunction of both, with one gate, or none if one is constant. |
| SkolemCircuits.AigerBuilder.FilterClauses | src/buildAIGER.cc:25-37 | Bodies by the sign of the last literal. |
| SkolemCircuits.AigerBuilder.RemoveArbiters | src/buildAIGER.cc:48-60 | Inactive exactly if an arbiter satisfies the clause, otherwise the clause without arbiters. |
| SkolemRules.RemovedFires | src/buildAIGER.cc:48-60 | Removing arbiters does not change when a clause fires. |
| SkolemClauses.ModelLogger.ProcessForcingClauses | src/modellogger.cc:155-210 | With a default, the clauses written have exactly one value for the variable in every surrounding valuation, the forced value or the default, and some values of the new variables go with it. Without one, exactly the open bodies are written. |
| SkolemClauses.ModelLogger.WriteForcingClauses | src/modellogger.cc:122-133 | One new variable for each clause that the arbiters leave open, true exactly if it fires. |
| SkolemClauses.ModelLogger.WriteClauseActive | src/modellogger.cc:212-227 | A new variable that is true exactly if no literal of the clause is. |
| SkolemClauses.ModelLogger.ApplyAssignment | src/modellogger.h:156-168 | Satisfied exactly if an arbiter literal of the clause is true; otherwise the false ones are erased in place. |
| SkolemClauses.ConstantEncodes | src/modellogger.cc:163-182 | With a constant default only the clauses against it matter. |
| SkolemClauses.TreeEncodes | src/modellogger.cc:183-209 | With a tree, clauses that say what each case says in every model are exact. |
| SkolemClauses.BareExact | src/modellogger.cc:158-162 | Without default clauses the clauses written encode the function of the variable if and only if its forcing clauses contradict each other under every valuation: they never mention the variable. |
| SkolemClauses.BareExample | src/modellogger.cc:158-162 | If universal 1 forces existential 2 and there is no default, the single clause [-1] is written, which does not define 2. |
| SkolemClauses.ModelLogger.WriteAssigned | src/modellogger.cc:260-277 | Nothing if an arbiter satisfies the clause, otherwise the clause without arbiters. |
| SkolemRules.DefaultsMean | src/modellogger.cc:135-144 | The default clauses of a deciding tree hold exactly if the variable has the default value. |

## Findings

Where the code does not meet a promise, the lemma with the concrete input and the exact condition are:

| what | input | condition |
|---|---|---|
| Universal reduction (`src/preprocessor.cc:12-39`) changes the meaning of a clause with both signs of a universal that no existential of the clause depends on. The parser (`src/dqdimacsparser.cc`) accepts such clauses. | `ForallReduction.ReductionMisleads`: universal 1, existential 2 without dependencies, clause [1, -1, 2] | `ForallReduction.ReductionExact`: meaning is kept if and only if the clause has no complementary literals, or contains an innermost existential, or a pair of complementary literals is over an existential or over a universal that an existential of the clause depends on |
| Forcing clauses from the matrix (`src/solver.cc:130-158`) are not entailed for such clauses, so a true formula can be reported false. | `Arbiters.MatrixForcingMisleads`: clauses [1, -1, 2] and [-2] | `Arbiters.MatrixForcingExact`: entailed by the clause alone if and only if the clause has no complementary literals or the forced variable sees a complementary pair |
| The reader of binary differences (`aiger-1.9.9/aiger.c:2286-2329`) tests the size of the sixth byte instead of the fifth: a code of a larger number is accepted as another number, and a sixth byte below 8 is shifted by 35 bits, which C leaves undefined for 32-bit words. | `AigBinary.ReadMisleads`: bytes 128, 128, 128, 128, 16 are read as 0; five bytes 128, then 0 | `AigBinary.ReadExact`: read correctly if and only if at most four bytes precede the last, and a fifth byte is below 16 |
| Without default clauses the clauses written for an existential (`src/modellogger.cc:158-162`) are the bodies of its forcing clauses, without its own literal. The solver always passes a default (`src/defaultvaluecontainer.cc:127-151`). | `SkolemClauses.BareExample`: if 1 forces 2, the clause [-1] alone is written | `SkolemClauses.BareExact`: right if and only if they contradict each other under every valuation |

Two oddities do no harm, as the proofs show. For a gate with two true operands the certificate translation goes on
after the unit clause and gives the constant a variable (`certification/AIG2CNF/AigerCnfConverter.cc:36-44`); the added
clauses fix that variable to false, and `HandleTrueGate` proves the meaning unchanged. The block-wise construction of
extended dependencies compares a block number with the number of existentials instead of the number of blocks
(`src/dependencyextractor.cc:110-143`); the test is only skipped when no block follows.

## Left out

- PedantSolver.Solver.Solve: the bound on conflicts is for `use_forcing_clauses`, the default; without it a conflict that has a forcing clause teaches nothing unless arbiter clauses are always added (`AnalyzeConflict` says so), and the same conflict may come again. Definitions and unates are off, and with forcing clauses from the matrix the condition of `MatrixForcingExact` is required, because without it the answer can be wrong (see Findings).
- PedantSolver.Solver.GetArbiter: the names of new arbiters come from one counter; other auxiliary variables are not part of the model.
- PedantSolver.Solver.AnalyzeForcingConflict: without conditional definitions; default values, which steer the search only, may be different in every iteration.
- ValidityCheckers.SimpleValidityChecker.CheckArbiterAssignment: the validity and the consistency query are stated by what their models are, not clause by clause (selectors, growable disjunctions).
- ValidityCheckers.SimpleValidityChecker.SetFailingAssignments: the strategy that assumes all variables; the one that first looks for a minimum separator in the implication graph of the falsified clause (`src/supporttracker.cc`) is left out.
- Cdcl.Solver.Solve: the default mode, without selectors and incremental heuristics; `restarts` and `budget` stand for the budgets of the original, and whether a restart comes as soon as the budget allows is left to the heuristics.
- Cdcl.Solver.Restart: always returns to level 0; the incremental mode may keep the assumption levels.
- Cdcl.Solver.PickBranchLit: every variable is a decision variable, the order heap is a set, and the choice and its sign are left open.
- Cdcl.Solver.Simplify: removing satisfied clauses is left out, as are `reduceDB`, clause relocation and everything that only chooses which clauses to keep.
- Glucose heuristics (activities, dynamic restarts, strategy adaptation, randomised branching), unary watches, proof output, and import of clauses inside the search.
- Fixed-width integers, except in the binary reader and the ring, where they matter: variable and clause counters are unbounded.
- GraphSeparator.SeparatorOf: the maximum-flow routine is a parameter that returns the residual capacities of a maximum flow; vertex lists are as its caller promises (first side and forbidden vertices disjoint, forbidden and unpreferred disjoint).
- ClausesBuffers.ClausesBuffer.PushClause: without forced removal of old clauses; each call is one atomic step; runs of a single thread, `growTo`, `clear` and `fastclear` are not modelled.
- Aiger.AigerGraph.CompactAnds: the library sort is the abstract sort by left-hand sides; type flags of variables beyond the new maximum are left as they are and not described.
- Aiger.AigerGraph.Reencode: symbols, comments, and files of the AIGER library are not part of the model.
- AigToCnf.Convert: the default polarity mode; `--no-pg`, the printed variable map and warnings about ignored justice and fairness properties are left out.
- CertificateChecker.CheckModelAig: simplification with ABC, conversion to binary form, file parsing and certificates given as clauses are left out; names of inputs and outputs are the variables of the formula and gates are in topological order.
- UnateCheckers.UnateChecker.FindUnates: with the empty arbiter assignment, as its caller passes; the position of a variable is found by linear search instead of binary search.
- UnateCheckers.UnateChecker.constructor: takes the existentials sorted, as the solver keeps them.
- DependencyContainers.DependencyContainer.ScheduleUpdate: given definitions and innermost existentials, whose lists are not sorted, are left out.
- DependencyExtractors.DependencyExtractor.ComputeExtendedDependencies: the mode that ignores the innermost block is left out, as are two reads before or behind a list whose values are not used (`src/dependencyextractor.cc:114`, `src/dependencycontainer.cc:298-303`).
- DependencySchemes.ApplyDependencyScheme: what is kept is characterised by paths; that dropping the other universals keeps the truth of a formula is not shown.
- SkolemClauses.ModelLogger.ProcessForcingClauses: the clause count of the header, which the two-sided case raises by one too many (`src/modellogger.cc:207`), is left out.
- SkolemCircuits.AigerBuilder.AddForcingClauses: definitions and conditional definitions of variables, and the renaming of their auxiliary variables, are left out.
- The growable disjunctions (`src/disjunction.h`) and the indexed heap behind branching (`glucose/glucose/glucose_mtl/Heap.h`).
- Default values learnt from samples, interpolation, command lines, signals, logging, statistics and the parsers: input and output, or choices without effect on the answer.
