# Deterministic bookkeeping of the static audit

The audit agent keeps a lot of derived state around a static analysis: a call graph and the
searches over it, an index of entry-to-sink flows, a lineage of evidence records, an agenda of
what to look at next, a wall-clock budget with a shell guard, a coverage ledger, receipts of
parallel workers. None of it decides whether something is a vulnerability, but all of it decides
what the agent looks at and when it may stop, so it has to be exact. This project models that
bookkeeping and proves what it promises, for all inputs, all interleavings and all runs.

| file | models |
|---|---|
| `CallGraph.dfy`, `ShortLex.dfy`, `GraphSearch.dfy` | the adjacency tables and the breadth-first searches over them |
| `OwnerTable.dfy` | which symbol owns a line |
| `FlowIndex.dfy` | binding, forward and backward pass, flows and reachability verdicts |
| `Lineage.dfy` | content-addressed evidence records and candidate closures |
| `Agenda.dfy` | the three-pass agenda allocator |
| `AuditBudget.dfy`, `AuditGuard.dfy`, `RoundProtocol.dfy` | round deadlines, the guard registry, the tool-use policy, and any number of processes racing over them, any of which may be killed and called again at any point |
| `Coverage.dfy` | ledger verdicts, residual gaps and the stop condition |
| `Receipt.dfy` | the challenge-bound receipt of one candidate |
| `PatchSiblings.dfy` | the sibling comparison and the merge of patch-driven findings |
| `CapabilityPaths.dfy`, `CapabilityExact.dfy` | the bounded search for capability chains, and what exactly it finds |
| `AsarHeader.dfy` | the string-aware brace scanner, against the JSON grammar of RFC 8259 |
| `Pipeline.dfy` | the edge list feeding the flow index, and the flow index feeding coverage |

Code that works by updating state is a class or a method with loops, proved against a
specification function; the promises are lemmas about that specification. The searches share one
ghost view (`GraphSearch.Search`): the chain by which each symbol was discovered and the discovery
order, which is strictly increasing in shortlex order.

The header theorems speak of any printed JSON object. That the printed form is JSON text is pinned by
`AsarHeader.PlainTextIsPrinted`, `AsarHeader.NamesAndNumbersAreAtoms` and the `Sample` lemmas.

Symbols, ids and file paths are `int` where only equality and order are used. A content digest is an
injective constructor. Clocks are `real` inputs that never run backwards; persisted times are whole
seconds. A path is the sequence of its components after resolution.

## Where the code does less than it says

Each point below is proved: a concrete input on which the promise fails, and exactly when it holds.
The code is modelled as it is.

- A path mismatch between the two passes is explained in the code as a sign that a name resolved to
  more than one symbol (`scripts/agent/analysis/dataflow.py:408-410`). It is not: the forward pass
  picks the least shortest chain read from the entry, the backward pass the least read from the sink,
  and two plain disjoint routes are enough to make them differ (`FlowIndex.MismatchFromTwoRoutes`).
  `FlowIndex.GapIsDisagreement` says exactly when it happens.
- Coverage is documented as derived from the ledgers and therefore always in line with them
  (`scripts/agent/analysis/coverage.py:749-751`). A refresh folds verdicts into persisted states and
  so keeps what a superseded verdict did: an exclusion corrected to a plain review stays an exclusion
  (`Coverage.CorrectedExclusionLingers`). `Coverage.SupersededVerdictsLinger` gives the exact
  condition, over the two ledgers and the stored state, under which nothing lingers.
- When a later carrier is merged into a patch finding, its agreement moves but its risk does not
  (`PatchSiblings.StaleRisk`); `PatchSiblings.RiskIgnoresMergedCarriers` says exactly when the two no
  longer fit together.
- A completed matrix whose artifact is there can still be refused, because a call looks at eight
  declared paths and a receipt keeps eight rows, older ones first (`Receipt.NinthPathIsCutOff`,
  `Receipt.CrowdedReceiptCannotComplete`). `Receipt.CompletionGoesThrough` says exactly when a
  completion is taken, for any receipt and any declared paths.
- `--verify` trusts a receipt that carries the current token, so a challenge issued under the token of
  the receipt that lies there brings it back (`Receipt.ReusedTokenRevivesReceipt`,
  `Receipt.PrepareRevives`). `Receipt.RenewalIsNeeded` shows that avoiding just that is exactly what
  keeps receipts current over a run.
- Which primitives the capability search observes (their id, kind and ranks) does not depend on the
  order of the records as long as ids are distinct; with duplicated ids it can
  (`CapabilityPaths.SharedSinkIdChangesCandidates`), and
  `CapabilityPaths.OrderFreeExactlyWhenConsistent` says exactly what duplicates have to agree on. For
  the candidates, compared by template, observed ids and missing kinds, that condition is sufficient
  only: duplicates may disagree on something no template asks for
  (`CapabilityPaths.SharedSinkIdMayNotMatter`). It says nothing about the locations a node shows, for
  which the first entry with an id answers.

## Model

| member | source | states |
|---|---|---|
| `CallGraph.DeriveAdjacency` | scripts/agent/analysis/callgraph.py:322-325 | from the sorted edge list, both tables hold exactly the edges, every list is strictly sorted, and one table is the transpose of the other |
| `CallGraph.ChainReversed` | scripts/agent/analysis/callgraph.py:373-395 | a call chain read backwards is a chain of the transposed graph |
| `CallGraph.ConnectedBothWays` | scripts/agent/analysis/callgraph.py:373-395 | forward and backward reachability within a hop bound are the same relation |
| `GraphSearch.BfsTree` | scripts/agent/analysis/callgraph.py:412-427 | the tree holds a symbol iff a chain of at most `max_depth` hops leads to it, and its parent links spell the lexicographically least of all shortest chains |
| `GraphSearch.BfsTreeIsUnique` | scripts/agent/analysis/callgraph.py:412-427 | that specification determines depth, parent and key set of the tree completely |
| `GraphSearch.BestIsShortestThenLeast` | scripts/agent/analysis/callgraph.py:383-390 | "best" means no chain is shorter, and the first symbol where an equally short chain differs is larger there |
| `GraphSearch.PathFromTree` | scripts/agent/analysis/callgraph.py:398-409 | walking the parent links and reversing gives the tree's chain to the node, or nothing for a node outside the tree |
| `GraphSearch.SearchBeatsChain` | scripts/agent/analysis/callgraph.py:412-427 | once the queue is empty, every chain within the bound ends in a discovered symbol whose recorded chain is at most it in shortlex order |
| `GraphSearch.SearchIsComplete` | scripts/agent/analysis/callgraph.py:412-427 | a finished search has discovered exactly the connected symbols, each by its best chain |
| `GraphSearch.Closure` | scripts/agent/analysis/differential.py:456-469 | the closure of a root is exactly the set of symbols within `depth` hops |
| `GraphSearch.ClosureIsTreeDomain` | scripts/agent/analysis/differential.py:456-469 | the closure equals the key set of the depth-bounded tree on the same edges |
| `GraphSearch.WalkDepth` | scripts/agent/analysis/callgraph.py:460-464 | the depth recomputed over parent links is the length of the recorded chain |
| `GraphSearch.WalkBack` | scripts/agent/analysis/callgraph.py:471-478 | the path spelled backwards and reversed is the recorded chain plus the goal |
| `GraphSearch.EarlyExitIsBest` | scripts/agent/analysis/callgraph.py:467-478 | stopping at the first sight of the goal, mid-expansion, already yields the best chain within the bound |
| `GraphSearch.ShortestPath` | scripts/agent/analysis/callgraph.py:451-480 | `None` iff no chain within the bound reaches the goal, else the best chain |
| `GraphSearch.ShortestPathRefinesTree` | scripts/agent/analysis/callgraph.py:451-480 | the early-exit search answers iff the goal is in the tree, with exactly the tree's chain |
| `OwnerTable.InnermostByLine` | scripts/agent/analysis/callgraph.py:167-189 | each line is owned by the covering symbol least in (span, is-file), the earliest of equals; unowned iff uncovered |
| `OwnerTable.InnermostAt` | scripts/agent/analysis/symbols.py:531-547 | the single-line lookup meets the same specification |
| `OwnerTable.InnermostIsUnique` | scripts/agent/analysis/symbols.py:531-547 | that specification has one answer, so table and lookup agree on every line |
| `FlowIndex.BindBySymbol` | scripts/agent/analysis/dataflow.py:208-228 | a record lands in the group of the symbol it names if that is a known one, else of the symbol its line lies in, and in no other, in input order; what belongs nowhere is counted unbound |
| `FlowIndex.BoundWhereItBelongs` | scripts/agent/analysis/dataflow.py:208-228 | the same of any grouping the flow index works on |
| `FlowIndex.PassesAgree` | scripts/agent/analysis/dataflow.py:345-351 | a sink is in an entry's forward tree iff the entry is in the sink's backward tree, at the same depth |
| `FlowIndex.MismatchMeansTwoShortestChains` | scripts/agent/analysis/dataflow.py:398-413 | `forward-only` never arises; a path mismatch exhibits two different shortest chains |
| `FlowIndex.GapIsDisagreement` | scripts/agent/analysis/dataflow.py:398-413 | a pair is a path mismatch iff its least shortest chain forwards is not its least one backwards |
| `FlowIndex.MismatchFromTwoRoutes` | scripts/agent/analysis/dataflow.py:400-413 | for a concrete sorted edge list and its two tables, two disjoint routes make the verdict a path mismatch |
| `FlowIndex.ForwardEntriesAreConnected` | scripts/agent/analysis/dataflow.py:391-396 | the entries collected by the forward trees are those connected to the sink symbol |
| `FlowIndex.BackwardEntriesAreConnected` | scripts/agent/analysis/dataflow.py:353-367 | the entries collected from the backward tree are the same ones |
| `FlowIndex.EmitEntries` | scripts/agent/analysis/dataflow.py:423-443 | through the `max_flows` valve go the first flows of the full list; emitted plus dropped is conserved |
| `FlowIndex.EmitSink` | scripts/agent/analysis/dataflow.py:389-443 | the flows of one sink, the ids of the entries that reach it, and a worst gap that is clean iff every pair is |
| `FlowIndex.FlowsPerSink` | scripts/agent/analysis/dataflow.py:391-443 | a bound sink accounts for exactly one flow per entry connected to its symbol |
| `FlowIndex.SinkFlowsAreReal` | scripts/agent/analysis/dataflow.py:397-443 | every flow is the best call chain from the symbol of its entry to that of its sink within `max_hops`, with the shape and the gap that chain calls for; high iff not in module scope and a mismatch or a severe sink within four symbols, low iff clean, not severe and over six symbols |
| `FlowIndex.ReachingEntriesAreShown` | scripts/agent/analysis/dataflow.py:391-443 | every entry that reaches a bound sink has a flow of its own in the full list |
| `FlowIndex.JudgeSink` | scripts/agent/analysis/dataflow.py:378-455 | the verdict of one sink in terms of the graph alone: unbound, isolated iff no entry reaches it, path mismatch iff some reaching entry disagrees, forward and backward entries equal |
| `FlowIndex.BuildFlowIndex` | scripts/agent/analysis/dataflow.py:299-471 | the flows are the first `max_flows` of the full list by sink, entry symbol and entry; emitted plus dropped is the number of connected (bound sink, entry) pairs, every flow is real, nothing is missing unless something was dropped, each `flow_count` is the number of that sink's flows and they add up to the number emitted, every sink has its verdict. In terms of the records: each flow is a best chain between the symbols its entry and its sink belong to, with nothing dropped every entry and sink that belong to connected symbols have a flow, and a sink is unbound iff it belongs to no symbol |
| `FlowIndex.FlowIsGraded` | scripts/agent/analysis/dataflow.py:263-291 | a flow is high iff it is not in module scope and is a mismatch or severe within three hops, low iff it is clean, not severe and longer than five hops; its shape follows hops and source |
| `FlowIndex.FlowCountsAddUp` | scripts/agent/analysis/dataflow.py:442-443 | counts that are right per sink add up to the number of flows emitted |
| `FlowIndex.LastOfDistinct` | scripts/agent/analysis/dataflow.py:353-374 | with distinct sink ids, each record is its own representative in the id-keyed tables |
| `Pipeline.IndexFromEdges` | scripts/agent/analysis/dataflow.py:299-471 | all of that holds of the index built straight from a sorted edge list |
| `Pipeline.NoPassMismatchGap` | scripts/agent/analysis/coverage.py:377-388 | a sink judged by the flow index never yields coverage's forward/backward mismatch gap |
| `Lineage.EmitKeepsValid` | scripts/agent/analysis/evidence_provenance.py:172-192 | emitting keeps every record built on records emitted earlier and inheriting exactly their facts |
| `Lineage.NoCycles` | scripts/agent/analysis/evidence_provenance.py:172-192 | parent and source links form no cycle |
| `Lineage.SourcesAreExact` | scripts/agent/analysis/evidence_provenance.py:172-192 | a record's source facts are exactly those its ancestors were emitted with |
| `Lineage.GapsAreExact` | scripts/agent/analysis/evidence_provenance.py:172-192 | a record's gaps are exactly the own gaps of everything upstream of it |
| `Lineage.EvidenceClosure` | scripts/agent/analysis/evidence_provenance.py:344-349 | the worklist ends with exactly the reflexive-transitive parent closure |
| `Lineage.CompleteIffNoUpstreamGap` | scripts/agent/analysis/evidence_provenance.py:357-358 | a candidate counts as complete iff nothing upstream of it was emitted with a gap |
| `Lineage.Builder.Emit` | scripts/agent/analysis/evidence_provenance.py:172-192 | adds one record, keeps the store valid and changes no earlier record |
| `Lineage.Builder.Candidate` | scripts/agent/analysis/evidence_provenance.py:341-358 | evidence ids, source facts and completeness of a candidate, each stated over ancestry |
| `Agenda.SelectionSize` | scripts/agent/analysis/research_agenda.py:649-697 | the selection has exactly min(slots, sum over surfaces of min(cap, eligible)) items |
| `Agenda.SelectionSizeInArguments` | scripts/agent/analysis/research_agenda.py:587-589 | for slots in 0..16 and a cap in 1..8 that size is min(slots, sum over surfaces of min(cap, eligible)) of the arguments themselves; arguments outside count as the nearest value inside |
| `Agenda.HintBindsPassTwo` | scripts/agent/analysis/research_agenda.py:649-690 | with a hint of 1..8, pass two leaves on its surface exactly min(hint, cap, eligible) items, or fewer when the slots ran out |
| `Agenda.HintIsClamped` | scripts/agent/analysis/research_agenda.py:656-658 | a hint outside 1..8 counts as the nearest value inside |
| `Agenda.SoundIsWithinCapacity` | scripts/agent/analysis/research_agenda.py:649-697 | no allocation that respects slots and caps can select more |
| `Agenda.PassIsGreedy` | scripts/agent/analysis/research_agenda.py:649-697 | a pass only adds, keeps limits, never takes a held item, and whatever it leaves out is blocked at its end |
| `Agenda.PassesAreSound` | scripts/agent/analysis/research_agenda.py:684-697 | each pass extends the one before; all respect slots, caps and holds; the selection has no priority inversion |
| `Agenda.PassKeepsRankPrefix` | scripts/agent/analysis/research_agenda.py:649-697 | inside one (surface, attack class) bucket the selected items are a rank prefix of the eligible ones |
| `Agenda.BudgetCapIsLastToYield` | scripts/agent/analysis/research_agenda.py:691-697 | a budget cap is exceeded only if every surface had already taken all its budget allows after pass two |
| `Agenda.PassOneIsDiverse` | scripts/agent/analysis/research_agenda.py:661-664 | after pass one every selected item has a bucket of its own |
| `Agenda.DiversityFirst` | scripts/agent/analysis/research_agenda.py:681-687 | a bucket goes unrepresented only if distinct buckets alone used up its surface's budget or all slots |
| `Agenda.Allocator.Choose` | scripts/agent/analysis/research_agenda.py:649-676 | takes the item iff no slot, cap or diversity rule blocks it, keeping counters and statuses in step |
| `Agenda.Allocator.RunPass` | scripts/agent/analysis/research_agenda.py:684-690 | one loop over the eligible items, early exit included, is one pass of the specification |
| `Agenda.Allocator.Allocate` | scripts/agent/analysis/research_agenda.py:681-697 | the three loops compute the specified selection |
| `Agenda.SelectionSurvivesTruncation` | scripts/agent/analysis/research_agenda.py:713-718 | every selected item is among the first of the emitted list, whatever the truncation to 64 drops |
| `Agenda.FinalOrderIsSorted` | scripts/agent/analysis/research_agenda.py:713-718 | the emitted list is strictly sorted by status class and rank, has min(candidates, 64) items, and whatever it drops sorts after everything it keeps |
| `Agenda.BuildAgenda` | scripts/agent/analysis/research_agenda.py:643-719 | emitted order and statuses: selected, deferred, held, by rank; with slots in 0..16 and a cap in 1..8, exactly min(slots, sum over surfaces of min(cap, eligible)) candidates are selected |
| `AuditBudget.EffectiveDeadline` | scripts/agent/analysis/audit_budget.py:122-130 | the deadline granted is after the start, the configured one whenever that is legal, and 5400 s after the start for longer records of old |
| `AuditBudget.LoadableExactlyWhen` | scripts/agent/analysis/audit_budget.py:61-68 | a stored record is accepted iff its deadline is its start plus its length, one second to a day |
| `AuditGuard.RegisterOutcome` | scripts/agent/analysis/audit_guard.py:181-230 | registration succeeds iff the deadline is ahead and the round already holds this root or the root is free and there is room; the registry stays well formed with only that round's record replaced |
| `AuditGuard.Registry.RegisterActiveAudit` | scripts/agent/analysis/audit_guard.py:181-230 | the scan over the locked records computes that outcome, and a refusal changes nothing |
| `AuditGuard.ReleaseOutcome` | scripts/agent/analysis/audit_guard.py:233-260 | release removes exactly the records of that round and root |
| `AuditGuard.Registry.ReleaseActiveAudit` | scripts/agent/analysis/audit_guard.py:233-260 | the retained records are those, and the answer says whether anything was removed |
| `AuditGuard.ReleaseUndoesRegister` | scripts/agent/analysis/audit_guard.py:181-260 | releasing a freshly registered round restores the registered rounds |
| `AuditGuard.AtMostOneRoot` | scripts/agent/analysis/audit_guard.py:165-178 | a path lies under at most one registered root |
| `AuditGuard.ExecStaysInItsRound` | scripts/agent/analysis/audit_guard.py:473-510 | an allowed `audit-exec` that touches a registered root touches that one alone: its own, unexpired |
| `AuditGuard.ExpiredRootIsSealed` | scripts/agent/analysis/audit_guard.py:481-493 | an expired root admits a command iff it is status or release of that very round and touches no other root |
| `AuditGuard.RawAccessIsRefused` | scripts/agent/analysis/audit_guard.py:532-596 | a shell command other than the bundled CLI is refused on every registered root |
| `AuditGuard.AllowsExactlyWhen` | scripts/agent/analysis/audit_guard.py:473-596 | the whole policy: a call is let through iff it is no shell call, no audit is registered, or it is readable and on every root it touches it is a bundled CLI call that before the deadline is unscoped or of that root's round, and after it status or release of that round |
| `AuditGuard.UntouchedRootsHaveNoSay` | scripts/agent/analysis/audit_guard.py:570-578 | a readable command that touches no registered root is let through, however many audits are active |
| `RoundProtocol.StepKeepsInv` | scripts/agent_cli.py:1417-1457 | every atomic step of every process keeps files, reports, registry and process states consistent |
| `RoundProtocol.RunInvariant` | scripts/agent_cli.py:1417-1457 | so does every run, over any interleaving |
| `RoundProtocol.RunIsMonotone` | scripts/agent/analysis/audit_budget.py:72-119 | a persisted budget never changes once it has appeared |
| `RoundProtocol.StartersAgree` | scripts/agent/analysis/audit_budget.py:72-119 | all starters of a round report the same start and deadline, and at most one reports `started` |
| `RoundProtocol.FileHasOneStarter` | scripts/agent/analysis/audit_budget.py:72-119 | a budget that was not there at first was started by exactly one process, whose draft it still is |
| `RoundProtocol.DeadlineNeverChanges` | scripts/agent_cli.py:1435-1451 | every guard of a round, at any two times of a run, carries that round's effective deadline |
| `RoundProtocol.ExpiredStaysOut` | scripts/agent_cli.py:1444-1451 | a round past its deadline that is not registered is never registered again |
| `RoundProtocol.GuardSurvives` | scripts/agent/analysis/audit_guard.py:204-230 | a guard disappears only by its own release, not by expiry |
| `RoundProtocol.ExecWithinTheRound` | scripts/agent/analysis/audit_guard.py:473-510 | over any run, an allowed `audit-exec` on a registered root happens within 5400 s of the persisted start of its round |
| `RoundProtocol.StartWritesBudget` | scripts/agent/analysis/audit_budget.py:72-119 | an undisturbed start of a new round, of any legal length, writes its budget and answers `started` |
| `RoundProtocol.StartOpensRound` | scripts/agent_cli.py:1432-1451 | and goes on to register its root until the deadline just written, leaving every other round as it was |
| `RoundProtocol.IllegalLengthStartsNothing` | scripts/agent/analysis/audit_budget.py:84-85 | a new round with a length outside 1..5400 changes nothing |
| `RoundProtocol.StartAdoptsRound` | scripts/agent/analysis/audit_budget.py:79-82 | a starter that finds the round's budget, at first sight or when linking its own draft, answers `already-started` and registers until the stored deadline |
| `RoundProtocol.StatusRegistersLiveRound` | scripts/agent_cli.py:1437-1451 | status with a root registers it while at least a second of the round is left |
| `RoundProtocol.StatusOnlyReports` | scripts/agent_cli.py:1444-1453 | once less than a second is left, or without a root, status changes nothing |
| `RoundProtocol.ReleaseLiftsGuard` | scripts/agent_cli.py:1416-1431 | a release removes the guard of its round and root and nothing else |
| `Coverage.MergeIsJoin` | scripts/agent/analysis/models.py:57-86 | merging states is commutative, associative, idempotent, takes the stronger of its two arguments, and never leaves the reviewed states |
| `Coverage.RankOrdersStates` | scripts/agent/analysis/models.py:24-39 | the six states are ordered from `unseen` to `excluded`, and the reviewed ones are those from `reviewed` on |
| `Coverage.UnstatedIsIndexed` | scripts/agent/analysis/models.py:57-61 | a missing or unknown state counts as `indexed` |
| `Coverage.Inventory.ApplyCandidateCoverage` | scripts/agent/analysis/coverage.py:522-558 | the in-place marking computes the specified fold over verdicts and touched ids, and counts the marks per collection |
| `Coverage.AccumulationIsJoin` | scripts/agent/analysis/coverage.py:540-558 | a region ends up with its own state joined with the strongest verdict that decides it |
| `Coverage.OrderIsIrrelevant` | scripts/agent/analysis/coverage.py:540-558 | ledgers with the same verdicts in any order and multiplicity give the same review states |
| `Coverage.ReapplyingIsIdle` | scripts/agent/analysis/coverage.py:540-558 | applying a ledger again changes no review state |
| `Coverage.RuntimeVerifiedIsNotInferred` | scripts/agent/analysis/coverage.py:528-531 | a region is `runtime-verified` afterwards iff it was before and nothing excluded it |
| `Coverage.StateNeverWeakens` | scripts/agent/analysis/coverage.py:553-555 | the reported state of a record that carries a review state, as every producer writes it, never gets weaker |
| `Coverage.StateIsLoweredExactlyWhen` | scripts/agent/analysis/coverage.py:95-97 | for any stored record: the reported state gets weaker exactly where `audit_state` alone carried it and the deciding verdicts are weaker than that |
| `Coverage.SupersededVerdictsLinger` | scripts/agent/analysis/coverage.py:742-843 | an earlier ledger leaves no trace under a later one iff it decides nothing here, or is no stronger than the stored state or than the later ledger |
| `Coverage.CorrectedExclusionLingers` | scripts/agent/analysis/coverage.py:742-843 | an exclusion superseded by a plain review stays an exclusion |
| `Coverage.AddGaps` | scripts/agent/analysis/coverage.py:295-388 | one gap kind's loop adds the gaps of that kind in index order, up to the limit per kind |
| `Coverage.DifferentialRegions` | scripts/agent/analysis/differential.py:998-1072 | the open sibling findings, sorted by risk and finding |
| `Coverage.SortGapsIsSorted` | scripts/agent/analysis/differential.py:1070-1071 | sorting puts high before medium before low, by finding within each, loses none and invents none |
| `Coverage.BuildUncoveredRegions` | scripts/agent/analysis/coverage.py:261-416 | the residual is the seven sections in order, each up to the limit per kind, findings judged against the reviewed controls and entries; without a limit a gap is in it iff some record leaves it, kind by kind |
| `Coverage.ResidualMembers` | scripts/agent/analysis/coverage.py:295-416 | exactly which gaps, of which risk, an unlimited residual holds: for each kind, which records leave one |
| `Coverage.ClosedExactlyWhen` | scripts/agent/analysis/coverage.py:120-144 | `coverage-closed` iff the scope is not invalid, every severe entry, sink and flow has been looked at, no sink is seen by the backward pass alone, and every high-risk sibling finding names a control or an entry somebody has looked at |
| `Coverage.FindingGapsShrink` | scripts/agent/analysis/differential.py:998-1024 | reviewing more controls or entries never raises the high-risk sibling findings |
| `Coverage.VerdictsNeverRaiseRisk` | scripts/agent/analysis/coverage.py:261-416 | further verdicts on the state reached so far never raise the high-risk residual of a fixed inventory |
| `Coverage.MoreVerdictsLessRisk` | scripts/agent/analysis/coverage.py:261-416 | of two ledgers on one inventory, the one that contains the other leaves no more high-risk residual |
| `Coverage.NamedExactlyWhen` | scripts/agent/analysis/coverage.py:553-556 | a region names a candidate afterwards iff it did before or a verdict that decides it is about that candidate; none is named twice |
| `Coverage.ClosureIsStable` | scripts/agent/analysis/coverage.py:120-144 | over any run of refreshes with any ledgers, `coverage-closed` once reached is kept |
| `Receipt.ReceiptStore.PrepareReceipt` | scripts/agent_cli.py:3243-3262 | issues the challenge iff the token is long enough |
| `Receipt.ReceiptStore.RecordReceipt` | scripts/agent_cli.py:3336-3407 | the recording command is one step of the protocol, refusals included |
| `Receipt.ReceiptStore.VerifyReceipt` | scripts/agent_cli.py:3304-3334 | the answer is the verification predicate of the stored state |
| `Receipt.ChallengeIsIssued` | scripts/agent_cli.py:3243-3262 | a token of twelve characters or more becomes the challenge, a shorter one changes nothing; the stored receipt stays |
| `Receipt.ArtifactsAreCurrent` | scripts/agent_cli.py:3199-3220 | every row a record stores describes its file as it is at that moment, at most eight of them |
| `Receipt.MatchingSlipIsCurrent` | scripts/agent_cli.py:3273-3278 | in a run whose challenges never reuse the token of the stored receipt, a receipt matches the challenge iff its record came after the challenge |
| `Receipt.RenewalIsNeeded` | scripts/agent_cli.py:3243-3278 | that condition holds of a run iff matching means recorded after the challenge at every moment of it |
| `Receipt.FreshTokensAreRenewed` | scripts/agent_cli.py:3244-3248 | tokens never issued twice meet it |
| `Receipt.ProgressIsCounted` | scripts/agent_cli.py:3387-3389 | `progress_count` is the number of progress records made under the current token |
| `Receipt.EventsAreLatest` | scripts/agent_cli.py:3379-3405 | the event list is the latest sixteen records made under the current token, with the artifacts each declared |
| `Receipt.AcceptanceIsSound` | scripts/agent_cli.py:3304-3334 | acceptance implies that after the latest challenge the last record completed under that token, and the expected artifact is what it was then |
| `Receipt.CompletionIsAccepted` | scripts/agent_cli.py:3304-3334 | conversely, such a completion is accepted for as long as it is the last record and the artifact is unchanged |
| `Receipt.OnlyCompletionIsAccepted` | scripts/agent_cli.py:3304-3334 | over any run, nothing is accepted unless the last record was a completion |
| `Receipt.OtherRecordsGoThrough` | scripts/agent_cli.py:3346-3407 | a received, progress or partial record goes through iff the token is current and a progress report names its step; it leaves a receipt that is running or partial and not accepted |
| `Receipt.CompletionListsArtifact` | scripts/agent_cli.py:3375-3378 | a completed receipt always lists the expected artifact |
| `Receipt.CompletionGoesThrough` | scripts/agent_cli.py:3340-3378 | a completion is taken iff the token is current and the expected artifact is carried over, or is present and among the first eight declared paths with fewer than eight rows held when its turn comes |
| `Receipt.NinthPathIsCutOff` | scripts/agent_cli.py:3341-3345 | without any receipt, declared ninth: refused although the file is there |
| `Receipt.CrowdedReceiptCannotComplete` | scripts/agent_cli.py:3350-3378 | a run of two commands after which no completion goes through under that token although the file is there |
| `Receipt.PrepareRevives` | scripts/agent_cli.py:3243-3262 | after a challenge the stored receipt is accepted at once iff it completed under that very token and its artifact is unchanged |
| `Receipt.ReusedTokenRevivesReceipt` | scripts/agent_cli.py:3243-3262 | a run of three commands in which that happens |
| `PatchSiblings.MergeCarrier` | scripts/agent/analysis/differential.py:689-728 | folding one patched carrier advances exactly its category's finding and leaves all others alone |
| `PatchSiblings.PatchSiblingFindings` | scripts/agent/analysis/differential.py:655-729 | every group ends fully recorded, nothing else is recorded, numbers are consecutive and distinct |
| `PatchSiblings.OneFindingPerPair` | scripts/agent/analysis/differential.py:655-729 | a (group, category) pair has a finding iff some patched member carries it and some member does not, exactly one, listing every patched carrier and every non-carrier |
| `PatchSiblings.CarriersListedOnce` | scripts/agent/analysis/differential.py:697-700 | each patched carrier is listed once |
| `PatchSiblings.RiskIgnoresMergedCarriers` | scripts/agent/analysis/differential.py:697-728 | agreement always fits the two lists; the risk fits them iff the group is smaller than three, the control is no authorization control, or fewer than two carriers are patched |
| `PatchSiblings.StaleRisk` | scripts/agent/analysis/differential.py:697-728 | a group of three with two patched carriers whose finding says `medium` where its lists call for `high` |
| `PatchSiblings.CollectCategories` | scripts/agent/analysis/differential.py:627-635 | the categories any member carries, each once, by name |
| `PatchSiblings.DiffGroup` | scripts/agent/analysis/differential.py:610-652 | one finding for exactly the reported categories, by name, with all carriers and non-carriers, numbered on |
| `PatchSiblings.RoundingKeepsTheThreshold` | scripts/agent/analysis/differential.py:571-580 | comparing the agreement rounded to four decimals gives the same verdict in any group of fewer than ten thousand |
| `PatchSiblings.HighNeedsAConvention` | scripts/agent/analysis/differential.py:583-598 | a `high` comparison finding has a group of at least three, half of which carries the control |
| `PatchSiblings.ReportedExactlyWhen` | scripts/agent/analysis/differential.py:601-643 | with the default thresholds a category is reported iff at least half of the group carries it and not all; the floors for group size and carriers never decide |
| `PatchSiblings.ComparisonLists` | scripts/agent/analysis/differential.py:630-652 | a comparison finding lists exactly the members that carry the control and exactly those that do not |
| `PatchSiblings.ComparisonGrade` | scripts/agent/analysis/differential.py:571-598 | its agreement is the share of the group that carries the control, and it is high iff about authorization in a group of three or more, else medium for authorization and validation, low for the rest |
| `PatchSiblings.PatchRisk` | scripts/agent/analysis/differential.py:712-720 | a patch finding is never high: medium for authorization and validation, low for the rest |
| `PatchSiblings.BuildDifferential` | scripts/agent/analysis/differential.py:732-752 | every group is compared, every reported (group, category) has exactly one comparison finding, the patch findings are those of the merge, and no two findings of either producer share a number |
| `CapabilityPaths.CollectNodes` | scripts/agent/analysis/capability_graph.py:404-424 | the kept nodes are the first with each id, up to the node limit |
| `CapabilityPaths.RankedIsUnique` | scripts/agent/analysis/capability_graph.py:275-280 | a set of nodes has one ranked listing |
| `CapabilityPaths.ChoicesIgnoreOrder` | scripts/agent/analysis/capability_graph.py:432-438 | the nodes kept per kind depend on what was observed, not on the order |
| `CapabilityPaths.ChoicesAreTheBest` | scripts/agent/analysis/capability_graph.py:432-439 | the kept nodes of a kind are three or all there are, ranked, and whatever is left out ranks behind each of them |
| `CapabilityPaths.UrgentFlowsAreKept` | scripts/agent/analysis/capability_graph.py:275-280 | of two flows into one capability the more urgent one (high, medium, low, anything else) is kept first |
| `CapabilityPaths.CertainEntriesAreKept` | scripts/agent/analysis/capability_graph.py:275-280 | of two entries the one found with more certainty is kept first |
| `CapabilityPaths.FindCandidates` | scripts/agent/analysis/capability_graph.py:440-468 | the nested loops with their early exits compute the specified search within the path limit |
| `CapabilityPaths.SearchIgnoresOrder` | scripts/agent/analysis/capability_graph.py:432-468 | node lists with the same nodes give the same candidate list |
| `CapabilityPaths.OrderFreeExactlyWhenConsistent` | scripts/agent/analysis/capability_graph.py:398-424 | which primitives are observed (id, kind, ranks) is independent of the order of entries, sinks and flows iff entries sharing an id are equally trusted, sinks sharing an id some live flow names give the same capability, and live flows sharing flow and sink id have the same priority |
| `CapabilityPaths.DistinctRecordsAreConsistent` | scripts/agent/analysis/capability_graph.py:398-401 | records with distinct entry, sink and flow ids meet that |
| `CapabilityPaths.PermutedRecordsSameCandidates` | scripts/agent/analysis/capability_graph.py:398-468 | that condition suffices for the candidates too: permuting the three lists separately leaves the number of nodes and the candidate list (template, observed ids, missing kinds) unchanged |
| `CapabilityPaths.SharedSinkIdChangesCandidates` | scripts/agent/analysis/capability_graph.py:400-401 | two sinks with one id: the two orders observe different primitives, and one yields a candidate, the other none |
| `CapabilityPaths.SharedSinkIdMayNotMatter` | scripts/agent/analysis/capability_graph.py:400-401 | two sinks with one id where the two orders observe different primitives and still yield the same candidates |
| `CapabilityExact.WhatIsObserved` | scripts/agent/analysis/capability_graph.py:140-250 | the kinds observed are exactly: input if there is an entry, the surfaces of administration-shaped and configuration entries, and the capability of the sink that answers for each flow both of whose ends are known |
| `CapabilityExact.UnlistedSinks` | scripts/agent/analysis/capability_graph.py:222-228 | categories outside the table show kinds of their own, except that none and `unknown` share one |
| `CapabilityExact.ReachableExactlyWhen` | scripts/agent/analysis/capability_graph.py:283-287 | a template is tried iff two of its required primitives are observed, or one that may seed a chain alone |
| `CapabilityExact.CombosAreAllPicks` | scripts/agent/analysis/capability_graph.py:448-456 | the combinations gone through are all the ways of picking a kept node for each required kind some node gives |
| `CapabilityExact.CombosBestFirst` | scripts/agent/analysis/capability_graph.py:448-456 | in the order gone through, the earlier of two combinations picks the better-ranked node where they first differ |
| `CapabilityExact.SearchIsExact` | scripts/agent/analysis/capability_graph.py:440-468 | below the path limit, a candidate is returned iff it is composed of such a combination for a template that is tried: none is missing and none is invented |
| `CapabilityExact.ObservedIdsConcat` | scripts/agent/analysis/capability_graph.py:290-300 | a candidate lists the ids of its picked nodes place by place |
| `CapabilityExact.LackingConcat` | scripts/agent/analysis/capability_graph.py:290-296 | it lists what is missing place by place |
| `CapabilityPaths.ReachableYieldsCandidate` | scripts/agent/analysis/capability_graph.py:283-287 | a template yields a candidate iff enough of it is observed |
| `CapabilityPaths.MissingIsExact` | scripts/agent/analysis/capability_graph.py:290-296 | a composed candidate lacks exactly the required kinds no node gives |
| `CapabilityPaths.CandidateLacksExactly` | scripts/agent/analysis/capability_graph.py:440-468 | so does every candidate the search returns |
| `CapabilityPaths.BuildCandidates` | scripts/agent/analysis/capability_graph.py:388-468 | from records to candidates: the nodes are those kept of the records, candidates lack exactly what no node gives, and below the node limit they are those of the records in any order |
| `AsarHeader.FindObjectEnd` | macos/bin/asar_stats.py:25-45 | the loop computes the specified scan |
| `AsarHeader.StringIsNeutral` | macos/bin/asar_stats.py:31-39 | braces, quotes and escapes inside a printed string never move the depth |
| `AsarHeader.ValueIsNeutral` | macos/bin/asar_stats.py:28-45 | any printed value inside an object leaves the scanner where it was |
| `AsarHeader.ScannerFindsTheObject` | macos/bin/asar_stats.py:25-45 | started at the opening brace of any printed JSON object, the scanner stops exactly at its matching brace, whatever follows |
| `AsarHeader.TruncatedObjectIsRejected` | macos/bin/asar_stats.py:25-45 | an object cut off anywhere yields nothing |

## Left out

- File I/O, locking, temporary files, JSON and YAML text, hashing and clocks as such: they are atomic steps, injective constructors and parameters.
- `_bfs`, `forward_depths` and `backward_depths`: the multi-start search without parents adds nothing the tree does not show.
- Building the edge list: name resolution, call-site patterns and confidence labels; the model starts from the sorted edges.
- FlowIndex.BuildFlowIndex: takes symbol ids as non-empty, `sorted` sinks as any permutation of the sinks, and leaves out control buckets and unbound samples, which only label the flows. A flow id is its place in the list.
- FlowIndex.EmitSink: reads chains with the function `TreePath`, which `GraphSearch.PathFromTree` is proved to compute.
- FlowIndex.BindBySymbol: takes the answer of the line lookup as part of the record; the lookup itself is proved in `OwnerTable`.
- Evidence layers, correlation groups and `enrich_candidates`: they group records that the lineage theorems already cover.
- Lineage.EvidenceClosure: sorting of the resulting ids is not followed; evidence is a set.
- Agenda.BuildAgenda: starts from the ranked candidates; scoring, cost, reason codes and the summary are not followed.
- Agenda.FinalOrderIsSorted: the emitted ranks are read clamped to 64, so with more than 64 candidates the order past that rank would fall back to agenda ids; the strategy hands over at most 48 (`scripts/agent/analysis/research_strategy.py:1757`).
- Agenda.Allocator.Choose: does not model the reason codes it writes beside the status.
- Shell tokenising and the patterns that decide whether a command names a root: what a command addresses is given as the set `mentions`.
- AuditGuard.RegisterOutcome: paths are taken as already resolved; Windows case folding is left out.
- Recovery from a corrupt registry or budget file: runs start from an empty registry and well-formed budget files.
- RoundProtocol.ExpiredStaysOut: assumes, as all runs here do, a clock that never runs backwards.
- The `audit-exec` command itself, its log and its duplicate check.
- Coverage.BuildUncoveredRegions: regions carry no region id, reason text, location or detail.
- Coverage metrics and ratios (`compute_coverage` beyond the high-risk count), and how ledger rows become the regions a verdict touched.
- Receipt.ReceiptStore.RecordReceipt: does not model time stamps and step texts; the persisted records are taken as well formed.
- `--inspect` of a receipt, which only prints.
- PatchSiblings.DiffGroup: with the default thresholds, and with the agreement unrounded; `PatchSiblings.RoundingKeepsTheThreshold` covers the rounding for groups below ten thousand.
- PatchSiblings.HighNeedsAConvention: of the unrounded agreement, as above.
- PatchSiblings.MergeCarrier: does not model the commit and subject a finding collects.
- PatchSiblings.PatchSiblingFindings: does not model commit subjects or the final order by key, and agreement is the exact fraction, not rounded to four decimals.
- PatchSiblings.BuildDifferential: does not follow the final sort of the findings; without any fix history nothing is touched, which is the case `touched == {}`.
- How members and sibling groups are built.
- CapabilityPaths.FindCandidates: templates are a parameter; edges, labels and equations of a candidate and the final sort of the list are not followed.
- CapabilityPaths.OrderFreeExactlyWhenConsistent: about observed primitives; a condition that is exact for the candidates themselves is not stated, because it would have to name the templates.
- CapabilityPaths.PermutedRecordsSameCandidates: candidates without their locations.
- CapabilityPaths.BuildCandidates: nodes carry what the search reads of them (kind, priority, confidence, id); locations and constraints are left out. Text is taken as already trimmed and lower-cased, and whether an entry is administration-shaped is given.
- AsarHeader.FindObjectEnd: decoding of the header bytes and the search for the first brace are not part of the model.
- Everything else in `scripts/agent_cli.py`, the renderers, `languages.py`, `controls.py`, `research_agenda_outcomes.py` and the external-tool wrappers.
