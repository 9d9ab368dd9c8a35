# Verified model of the GFlow approval engine

GFlow runs approval workflows: a definition is a graph of nodes, an instance walks it, and approval nodes make it
wait for people. This project models the parts where the engine has to think, and proves what they are meant to
guarantee.

- `Text`, `Definitions`, `Walks`: identifiers and their order, node and task vocabulary, directed graphs with walks,
  breadth-first search and hop distance.
- `ForkResume`, `ForkDecision`, `ForkRuns`: what the engine decides after an approval inside a fork — drive one
  node, wait, or restart all branches — first as methods over queues, then in terms of reachability, then over whole
  runs of a flat fork. Go's ranging over maps is left open: the methods pick members in any order.
- `ExecGate`, `GateRuns`, `KeyedMutex`, `MutexRuns`: two locks per key whose table entry is dropped while other
  goroutines may still hold a pointer to it, as transition systems with one program counter per goroutine, over every
  interleaving. The classes in these files hold the shared state; each method is one step.
- `ChainGraphs`, `CycleCheck`, `Rollback`, `Normalise`: deployment checks, the rollback of a rejection at run time,
  the agreement of both, and the normalisation of definitions.
- `Lifecycle`, `LifecycleRows`, `SubProcess`: the live and the history tables under start, suspend, activate, complete, terminate and
  delete, and the nesting of sub-processes.
- `Statistics`: cutting a time window into chunks, reading them page by page, dropping repeated ids.
- `JsonExtract`, `OutputMerge`: finding a JSON object in free text (grammar of RFC 8259, sections 4 and 7) and
  merging it into the process data.
- `SequentialApproval`: approvers who sign one after the other.
- `LikeEscape`: keywords in LIKE patterns.

`dafny verify dfyconfig.toml` checks everything.

## Where code and expectation part

Each of these is stated as a lemma with the exact condition or a concrete case.

- A node behind the join can restart the branches of the fork: if a nearest branch above it has no waiting
  nodes, nothing rules the fork out (`ForkDecision.StrayAnswers`, `ForkDecision.StrayStartRestarts`).
- Restarting is not limited to one decision: every decision for the end of a branch taken after the last settle
  restarts (`ForkRuns.RestoreWindow`); one restart needs decisions that directly follow their settles.
- Deployment leaves the start empty when `FirstNodeIndex` is out of range and skips the restart check; run time
  restarts the first node (`Rollback.AcceptedToStarter`, `Rollback.UncheckedRestart`).
- The region of a `toNode` rollback is checked for the trimmed target, the jump goes to the untrimmed one
  (`Rollback.AcceptedToNode`, `Rollback.UntrimmedFallsBack`). An unnamed predecessor can hide the previous node from deployment only
  (`Rollback.PreviousAgree`, `Rollback.UnnamedHidesGateway`).
- Adding the node "node_end" closes a loop exactly when a connection already starts at that name
  (`Normalise.LoopFreeExactly`, `Normalise.DanglingEdgeClosesLoop`). In a definition that has an end node, a Default
  edge closes a loop exactly when the last end node leads on to a switch without one
  (`Normalise.DefaultsLoopFreeExactly`, `Normalise.EndWithExit`).
- The comment on the output merge says that the full output is always found under the reserved key. That holds
  exactly for nodes that neither flatten nor map anything to that key (`OutputMerge.AlwaysKeptExactly`,
  `OutputMerge.MappingReplacesOutput`).
- A row created exactly at a cut of the time window is counted on both sides, so a later hint comes out too small and
  a window that still holds rows can be pruned. Which rows are lost is exact in `Statistics.LostExactly` and
  `Statistics.Aggregate`; `Statistics.HiddenRowExists` gives a table that loses one.
- Termination and deletion void active, pending and suspended tasks only; created, assigned, waiting and delegated
  ones go to history unfinished (`Lifecycle.ArchivedAsEnded`). Completion voids all of them.
- The depth check of sub-processes stops at an archived ancestor. It sees every live ancestor exactly as long as no
  instance between a live child and a live parent is completed or deleted (`SubProcess.CoveredExactly`,
  `SubProcess.AllAncestorsBounded`); such a step hides the parent from the check (`SubProcess.GapHides`,
  `SubProcess.GapHidesAncestor`).
- A completed task without a verdict passes as approved (`SequentialApproval.ApprovedExactly`,
  `SequentialApproval.UnmarkedPasses`).
- The second look of a sequential step under its lock counts tasks but does not look for rejections, so only
  serialised calls stop at one. With overlapping calls a task follows a rejection exactly when a call that read the
  tasks before the rejected one was created goes on behind it (`SequentialApproval.FollowsRejectionExactly`,
  `SequentialApproval.PassingCallIsStale`); that no place in the list gets two tasks holds for them too
  (`SequentialApproval.OrderSurvivesOverlap`).
- The comment on LIKE escaping says that SQLite, which has no default escape character, can match too little for
  keywords with a backslash and never too much. Both parts are off: every keyword with a special character matches
  too little (`LikeEscape.UndermatchesExactly`), and those with '%' or '_', and some with a backslash inside, match
  too much (`LikeEscape.OvermatchesExactly`).
- `docs/parallel-limitations.md` says that a branch without waiting nodes makes the resume fail; the code skips such
  branches, and so does the model.

## Assumptions

- Node ids are opaque and compared byte by byte; the empty id means "none". Self ids of approval nodes are not empty.
- Goroutine ids are not 0, and instance and task ids are never issued twice.
- A run over a flat fork starts when the gateway has opened the branches it takes: under an inclusive gateway each of
  them has its first task row. Waiting nodes of a branch settle from the top down, and settled rows stay.
- Tasks are created only for instances that were driven, so drafts have none.
- Calls of `OnMsg` for one node of one instance are serialised except where overlapping calls are spoken of; the
  node's tasks are active or completed, and its list of approvers is not empty. All drives of an instance take the
  gate of `ExecGate`, but hold it only until the engine's `OnMsg` returns. The drive that starts an instance returns
  while nodes still run in goroutines of their own (`examples/leave_approval/leave_approval_workflow.go:303-307`), so
  one of their calls can overlap with a call of the next drive. In overlapping runs the two locked sections of a call
  are atomic, as in one process.
- LIKE compares characters as they stand where a backslash escapes; on SQLite it takes ASCII letters in either case
  for the same. Other collations are not modelled.
- A child instance is started below a live parent and never as a draft (`service/runtime_subprocess.go:50`).
- `CompleteInstance` takes the status that was read before the row lock as a parameter, as any earlier read may
  have returned it.

## Model

| member | source | states |
|---|---|---|
| Text.LessIs | service/fork_aware_resume.go:711-719 | identifiers are ordered by the first place where they differ, a prefix first: the order in which branches are listed |
| Walks.BfsOrderMeaning | service/fork_aware_resume.go:602-630 | a breadth-first traversal visits exactly the nodes some walk leads to, each once, starting with its root |
| Walks.BfsOrderByHops | service/fork_aware_resume.go:602-630 | the traversal visits nodes by non-decreasing length of a shortest walk |
| Walks.HopsIsShortest | service/fork_aware_resume.go:570-597 | the hop distance used by the other statements is the length of a shortest walk |
| Walks.ConverseReach | service/config_validate.go:50-71 | searching the backward edges finds exactly the nodes from which forward edges lead here |
| ForkResume.AllRowsSettled | service/fork_aware_resume.go:387-402 | rows count as settled exactly when all are completed, terminated, returned or withdrawn and one is completed |
| ForkResume.FindForkAncestor | service/fork_aware_resume.go:502-523 | the first branching gateway above the node in search order, never the node itself |
| ForkResume.HasNestedFork | service/fork_aware_resume.go:528-563 | whether the search below the fork, stopped at joins, meets a branching gateway |
| ForkResume.FindFirstSuspendNode | service/fork_aware_resume.go:570-597 | the first waiting node of the branch in search order, none when the branch has none |
| ForkResume.FindAllSuspendNodes | service/fork_aware_resume.go:602-630 | all waiting nodes of the branch in search order |
| ForkResume.BranchHasAnyTask | service/fork_aware_resume.go:648-672 | true exactly when some node reachable without entering a join has a task row, whatever the order the children are ranged over |
| ForkResume.FindBranchRoot | service/fork_aware_resume.go:677-709 | a child of the fork nearest to the node on the way up, whatever the iteration order; none only when no child of the fork lies above |
| ForkResume.GroupRows | service/fork_aware_resume.go:192-198 | the task rows grouped by key in their order, rows without a key left out |
| ForkResume.RowsOfMeaning | service/fork_aware_resume.go:192-198 | a node has exactly the statuses of the rows that carry its key, and a listed node has at least one |
| ForkResume.FindLiveRoots | service/fork_aware_resume.go:229-244 | the branches that count, in ascending order: all of a fork, those with task rows of an inclusive gateway |
| ForkResume.CollectExits | service/fork_aware_resume.go:246-262 | the first waiting node of each branch that has one, in branch order |
| ForkResume.CollectPending | service/fork_aware_resume.go:284-299 | the unsettled waiting nodes of the branches, in order |
| ForkResume.AnalyzeForkResume | service/fork_aware_resume.go:146-318 | the answer is one the decision rule allows; a missing graph or unreadable tasks give the single path, a nested fork an error |
| ForkResume.ParseForkGraph | service/fork_aware_resume.go:419-457 | the parsed graph holds exactly the named connections in both directions, the last type listed for a node, and the asynchronous agents |
| ForkResume.ParsedWaits | service/fork_aware_resume.go:419-457 | of a parsed definition the process waits exactly at approvals, delays and agents not listed as asynchronous |
| ForkDecision.AllSuspendsMeaning | service/fork_aware_resume.go:602-630 | the list holds exactly the waiting nodes reachable without entering a join, without repeats, nearest first |
| ForkDecision.FirstSuspendMeaning | service/fork_aware_resume.go:570-597 | the first waiting node is the head of that list, at minimal distance, and there is none exactly when the list is empty |
| ForkDecision.ForkAncestorMeaning | service/fork_aware_resume.go:502-523 | the answer is a nearest branching gateway strictly above the node, and empty exactly when there is none |
| ForkDecision.NestedMeaning | service/fork_aware_resume.go:528-563 | a fork is refused exactly when another branching gateway, or the fork as its own child, is reached before a join |
| ForkDecision.LiveRootsMeaning | service/fork_aware_resume.go:229-244 | the branches kept are exactly the activated children of the fork, without repeats |
| ForkDecision.ExitsMeaning | service/fork_aware_resume.go:246-262 | one entry per kept branch that waits anywhere: its nearest waiting node |
| ForkDecision.MultiExact | service/fork_aware_resume.go:217-317 | the restore path is taken if and only if the node ends its branch, something waits, and every waiting node of every activated branch is settled |
| ForkDecision.MultiRequests | service/fork_aware_resume.go:246-317 | the restore path has one request per activated waiting branch, aimed at its nearest waiting node; a branch not taken gets none |
| ForkDecision.SkipExact | service/fork_aware_resume.go:284-302 | waiting is answered if and only if the node ends its branch and something is unsettled; the list names exactly the unsettled waiting nodes |
| ForkDecision.SingleExact | service/fork_aware_resume.go:205-282 | the node is driven alone if and only if it does not end its branch or nothing waits on any activated branch |
| ForkDecision.NoGatewayAbove | service/fork_aware_resume.go:165-168 | without a branching gateway above the node it is driven alone |
| ForkDecision.BelowGateway | service/fork_aware_resume.go:170-180 | below a gateway the node is refused if and only if another gateway hangs inside its branches; below one with a single branch it is driven alone |
| ForkDecision.StrayStart | service/fork_aware_resume.go:205-217 | for a node outside the branch it is traced to, the restore path is taken exactly when that branch has no waiting node and all branches are settled |
| ForkDecision.StrayAnswers | service/fork_aware_resume.go:205-217 | whatever branch the iteration order picks: for a node on no branch of the fork the restore path is a possible answer if and only if a nearest branch above it has no waiting node, something waits and all of it is settled |
| ForkDecision.StrayStartRestarts | service/fork_aware_resume.go:205-217 | a concrete definition where approving a node behind the join restarts a branch that is long done |
| ForkRuns.FlatSuspends | service/fork_aware_resume.go:602-630 | on a linear branch the search lists its waiting nodes from top to bottom |
| ForkRuns.FlatForkAncestor | service/fork_aware_resume.go:502-523 | the gateway found from any node of a flat fork is that fork |
| ForkRuns.FlatBranchRoot | service/fork_aware_resume.go:677-709 | on a flat fork the branch root found is the head of the branch, whatever the iteration order |
| ForkRuns.FlatAnswer | service/fork_aware_resume.go:146-318 | on a flat fork the answer for a branch node is unique |
| ForkRuns.DecideExact | service/fork_aware_resume.go:146-318 | a decision restarts the branches if and only if the node is the last waiting one of its branch and every waiting node of every branch taken is settled |
| ForkRuns.RestoreWindow | service/fork_aware_resume.go:57-73 | in every run the decisions that restart are exactly those for the end of a branch taken after the step that settles the last waiting node |
| ForkRuns.NoLostWakeUp | service/fork_aware_resume.go:57-73 | in every interleaving in which each settle is later followed by a decision for its node and all branches settle, some decision restarts the branches |
| ForkRuns.OneWakeUp | service/fork_aware_resume.go:57-73 | if each decision directly follows its settle, exactly one decision restarts the branches |
| ExecGate.GateTable.Call | service/runtime_exec_gate.go:44-45 | a call begins and keeps the invariant |
| ExecGate.GateTable.Lookup | service/runtime_exec_gate.go:46-47 | load-or-store: the current entry of the key, or a new one that becomes current |
| ExecGate.GateTable.Lock | service/runtime_exec_gate.go:50-53 | the mutex of the entry looked up is taken once it is free |
| ExecGate.GateTable.Examine | service/runtime_exec_gate.go:54-75 | under the mutex: re-entry exactly when the caller is already through the gate, back to the table from an orphan, sleep behind somebody else, and otherwise on to take the gate |
| ExecGate.GateTable.Claim | service/runtime_exec_gate.go:59-65 | nobody was through the gate before, and the caller is through it afterwards |
| ExecGate.GateTable.Wake | service/runtime_exec_gate.go:74 | a goroutine that was woken has the mutex again |
| ExecGate.GateTable.Recheck | service/runtime_exec_gate.go:73-81 | a woken goroutine sleeps again behind an owner, or stops waiting and takes the gate |
| ExecGate.GateTable.Release | service/runtime_exec_gate.go:91-99 | a release function lowers the depth; the last one clears the owner and goes on to drop the entry when nobody waits |
| ExecGate.GateTable.Delete | service/runtime_exec_gate.go:96-98 | the key of a gate nobody owns or waits for is dropped, and the invariant kept |
| ExecGate.GateTable.Leave | service/runtime_exec_gate.go:100-101 | the broadcast makes every sleeper of the entry runnable and gives the mutex back |
| ExecGate.InvKept | service/runtime_exec_gate.go:44-104 | every step of every goroutine keeps the invariant |
| ExecGate.OneThrough | service/runtime_exec_gate.go:44-104 | in a state that keeps the invariant at most one goroutine is through the gate |
| GateRuns.MutualExclusion | service/runtime_exec_gate.go:44-104 | in every interleaving at most one goroutine is through the gate of an instance |
| GateRuns.BusyIsCurrent | service/runtime_exec_gate.go:44-104 | an entry with an owner or a waiter is the one the table holds; waiters and depth are exact counts |
| GateRuns.NothingLeftBehind | service/runtime_exec_gate.go:87-104 | once all calls returned and all release functions were called, no instance has an entry left |
| GateRuns.ReentrantExactly | service/runtime_exec_gate.go:67-71 | a call is answered as re-entrant if and only if the goroutine is already through the gate of that instance |
| GateRuns.NoSelfWait | service/runtime_exec_gate.go:23-28 | a goroutine never waits for a gate it is through itself |
| GateRuns.NoDeadlock | service/runtime_exec_gate.go:44-104 | whatever happens at other gates: a goroutine that asks for a gate can look up its entry, and for one that did, while nobody is through the gate, some goroutine at that same entry can take its next step |
| GateRuns.SleeperHasWaker | service/runtime_exec_gate.go:72-104 | no wake-up is lost: behind every sleeping goroutine that was not woken stands the goroutine through the gate, or one about to broadcast at the same entry |
| GateRuns.FreeGateLetsIn | service/runtime_exec_gate.go:44-86 | a free gate lets in: a goroutine that asks for a gate nobody is through, and nobody else is working on, is through after at most six steps of its own |
| GateRuns.ReleaseGivesBack | service/runtime_exec_gate.go:87-104 | a release function takes one entry back; the last one leaves nobody through, wakes every sleeper and drops the key if nobody waits |
| KeyedMutex.MutexTable.Register | components/node_helpers.go:129-140 | the first section of Lock finds or makes the entry and registers on it |
| KeyedMutex.MutexTable.Acquire | components/node_helpers.go:142 | Lock returns: the caller, and nobody else, is in the section of the key |
| KeyedMutex.MutexTable.Unlock | components/node_helpers.go:150 | the inner mutex is given back after the entry may have been dropped |
| KeyedMutex.MutexTable.Deregister | components/node_helpers.go:143-149 | the unlock function deregisters and drops the key when it was the last one |
| MutexRuns.MutualExclusion | components/node_helpers.go:117-152 | in every interleaving two calls are never both between the return of Lock(key) and the call of the unlock function |
| MutexRuns.WaitersExact | components/node_helpers.go:117-152 | the waiter count is the number of calls registered on the entry, and it is positive exactly while the entry is the current one |
| MutexRuns.NothingLeftBehind | components/node_helpers.go:143-149 | without registered calls the table is empty |
| MutexRuns.NoDeadlock | components/node_helpers.go:129-152 | a registered call gets the mutex, or the call that holds it can take its next step |
| MutexRuns.FreeKeyLetsIn | components/node_helpers.go:128-152 | a key nobody holds: Lock returns after two steps of its own, and the unlock function gives the key back in two more |
| MutexRuns.NextIsLetIn | components/node_helpers.go:141-151 | once the holder has given the inner mutex back, a waiting call enters the section with its next step |
| ChainGraphs.BuildChainGraph | service/config_validate.go:217-236 | the view holds exactly the nodes, types and connections of the chain; the start is empty when the index is out of range |
| ChainGraphs.ViewsConverse | service/config_validate.go:228-231 | forward and backward edges are each other’s converse |
| CycleCheck.CycleSearch.Dfs | service/config_validate.go:180-207 | the search below a node finds a closed walk, or finishes the node with everything below it |
| CycleCheck.CycleSearch.CutCycle | service/config_validate.go:190-198 | a back edge cuts a closed walk out of the current path |
| CycleCheck.FinishedAcyclic | service/config_validate.go:180-213 | if every node is finished after all its known successors there is no closed walk |
| CycleCheck.DetectChainCycle | service/config_validate.go:168-214 | the result is empty if and only if the graph on known nodes is acyclic, and otherwise a closed walk of real edges, for every node order |
| Rollback.OnWalkIsBetween | components/user_task_reject.go:296-301 | a node lies on some walk from a to b exactly when it is reached from a and reaches b |
| Rollback.BfsSet | components/user_task_reject.go:382-400 | exactly the nodes reachable from the start, nothing for an empty start |
| Rollback.UpstreamReachable | service/config_validate.go:50-71 | true exactly when edges lead from the target to the node |
| Rollback.RollbackRegionForked | service/config_validate.go:76-113 | deployment: true exactly when a gateway lies on some walk from target to self |
| Rollback.RejectRegionCrossesParallel | components/user_task_reject.go:348-363 | run time: true exactly when a gateway lies on some walk from target to self |
| Rollback.ChainStartRestartForked | components/user_task_config.go:210-231 | deployment: true exactly when a gateway is reachable from the start |
| Rollback.RejectRestartTouchesGateway | components/user_task_reject.go:368-379 | run time: true exactly when a gateway is reachable from the start |
| Rollback.RejectResetNodes | components/user_task_reject.go:302-325 | exactly the user tasks among target, self and the nodes on walks from target to self, without repeats, target first |
| Rollback.FindPrevUserTaskNodeId | components/user_task_reject.go:434-474 | the first direct predecessor that is a user task, else the first named one that is no start node |
| Rollback.PrevUserTaskNodeId | components/user_task_config.go:254-270 | the same rule at deployment, which stops at an unnamed predecessor |
| Rollback.PreviousAgree | components/user_task_config.go:252-270 | both sides name the same previous node if and only if it is not the case that no predecessor is a user task, an unnamed one comes behind start nodes only, and a named one that is no start node exists |
| Rollback.ValidateReject | components/user_task_config.go:179-206 | no issue exactly for an acceptable rollback, and at most one: when each is reported, in terms of walks |
| Rollback.HandleRejection | components/user_task_reject.go:45-91 | which course a rejection takes, and where a jump goes and what it clears |
| Rollback.ToPrevLands | components/user_task_reject.go:64-72 | a toPrev rejection leads to the first approval among the direct predecessors in connection order, else to the first named one that is no start node, else falls back; a gateway on the way degrades it |
| Rollback.OthersLand | components/user_task_reject.go:47-91 | toStarter leads to the node at the start index or else the first node, toNode to the node named by the target, other strategies terminate; the approvals on the way back are cleared |
| Rollback.JumpToNode | components/user_task_reject.go:218-267 | a missing target falls back; otherwise exactly the region is cleared and the jump is taken |
| Rollback.AcceptedToNode | components/user_task_reject.go:74-86 | an accepted jump to a named node is never degraded for crossing branches; it goes to the validated node exactly when the target has no surrounding white space |
| Rollback.UntrimmedFallsBack | components/user_task_reject.go:74-91 | a concrete definition with blanks around the target, which deployment accepts and whose rejection falls back |
| Rollback.AcceptedToPrev | components/user_task_reject.go:65-73 | an accepted jump to the previous node is degraded exactly when an unnamed predecessor hid that node from deployment and a gateway lies on the way |
| Rollback.AcceptedToStarter | components/user_task_reject.go:57-64 | an accepted restart is degraded exactly when the start index is out of range and a gateway is reachable from the first node |
| Rollback.AcceptedNeverDegrades | components/user_task_reject.go:45-91 | what deployment accepts never takes the cross-branch degrade path, for a start index in range and named predecessors |
| Rollback.UncheckedRestart | components/node_topology.go:43-57 | a concrete definition with a start index out of range that deployment accepts and run time degrades |
| Rollback.UnnamedHidesGateway | components/user_task_config.go:252-270 | a concrete definition with a connection that starts nowhere, which deployment accepts and run time degrades |
| Rollback.JumpClearsItsWalks | components/user_task_reject.go:229-245 | a jump clears exactly the approval nodes on walks from its target back to the node |
| Normalise.FreeEndName | model/model_func.go:166-190 | the search for a free id ends, with the first name no node has |
| Normalise.Pigeonhole | model/model_func.go:166-190 | distinct names that are all taken are no more than the nodes |
| Normalise.EnsureEndNode | model/model_func.go:121-212 | a definition without an end node gets one, with a Success edge from every node no connection starts at; any other is kept |
| Normalise.EnsureSwitchDefaultEdges | model/model_func.go:216-283 | every named switch without a Default edge gets one to the last end node |
| Normalise.EndConnections | model/model_func.go:121-204 | the first pass adds exactly the new end node and a Success edge to it from every node no connection starts at |
| Normalise.DefaultConnections | model/model_func.go:216-283 | the second pass adds exactly a Default edge from every switch without one to the end node listed last |
| Normalise.LoopFreeIsAcyclic | service/config_validate.go:168-214 | the loops spoken of here are the cycles deployment looks for |
| Normalise.NormalForm | model/model_func.go:106-212 | for a definition without an end node both passes keep nodes, edges and acyclicity, give every switch a Default edge, and make every node reach the new end |
| Normalise.SecondRunChangesNothing | model/model_func.go:106-283 | running both passes again changes nothing, for every chain |
| Normalise.LoopFreeExactly | model/model_func.go:121-283 | where connections end at listed nodes, the result is loop-free if and only if the definition was and no connection starts at the name of the new end |
| Normalise.DanglingEdgeClosesLoop | model/model_func.go:166-204 | a connection that starts at an unlisted "node_end" closes a loop once that node is added: edges must join listed nodes |
| Normalise.DefaultsLoopFreeExactly | model/model_func.go:206-283 | a definition that has an end node stays loop-free in the second pass if and only if it was and no switch without a Default edge is reached from the last end node |
| Normalise.EndWithExit | model/model_func.go:206-283 | a concrete loop-free definition whose end node leads on to a switch, which gets a loop |
| JsonExtract.MatchJsonObject | components/output_merge.go:143-176 | the index of the brace that closes the object opened at the start, with string literals skipped |
| JsonExtract.ExtractJsonObject | components/output_merge.go:118-139 | the candidate at the first brace whose candidate is valid, none exactly when no brace has one |
| JsonExtract.ValuePasses | components/output_merge.go:143-176 | scanning any JSON text inside an object ends at the depth it began and closes nothing |
| JsonExtract.ObjectCloses | components/output_merge.go:143-176 | from an object’s opening brace the scan stops exactly at its closing brace, whatever follows |
| JsonExtract.ExtractionUndoesPrinting | components/output_merge.go:113-139 | for every JSON text of an object, behind any text without an opening brace and before any text, exactly that object is extracted |
| OutputMerge.ApplyMappings | components/output_merge.go:92-101 | the last mapping that finds a value decides each data key and each metadata key; other keys are unchanged |
| OutputMerge.MergeAgentOutput | components/output_merge.go:53-111 | for every key: the last mapping, else a flattened field, else the whole output under the reserved key, else the form value; no other key |
| OutputMerge.KeyHolds | components/output_merge.go:53-111 | in every merge a key holds the value of the last mapping that writes it, without one the flattened field of that name, and without either the whole output under the reserved key or what the form had |
| OutputMerge.MetadataHolds | components/output_merge.go:92-101 | a metadata key holds the shown value of the last mapping to it that finds one, or what it held before |
| OutputMerge.PathForms | components/output_merge.go:92-97 | paths with and without the leading dollar sign are the same |
| OutputMerge.ReservedKeyHolds | components/output_merge.go:44-111 | in every merge the reserved key holds the value of the last mapping that writes it, without one the flattened field of that name, and only without either the whole output |
| OutputMerge.AlwaysKeptExactly | components/output_merge.go:44-45 | a node keeps the whole output under the reserved key for every output if and only if it neither flattens nor has a complete mapping to that key |
| OutputMerge.FieldReplacesOutput | components/output_merge.go:79-101 | for every field name: merging the object with that one field leaves the field under the reserved key where it is flattened or mapped there |
| OutputMerge.MappingReplacesOutput | components/output_merge.go:92-101 | a concrete output and mapping after which the reserved key holds a field and not the whole output |
| Statistics.PlanChunks | service/form_statistics_impl.go:197-222 | the bisection ends; chunks stay inside the window; with the pruned windows they cover every time of it once, the times of cuts twice; with an exact first hint a chunk wider than one unit of time exceeds the target by at most the number of rows at cuts |
| Statistics.PlanPartitions | service/form_statistics_impl.go:197-222 | for every hint, chunks and pruned windows together hold every time of the window once, times of cuts twice, and no other time |
| Statistics.LostExactly | service/form_statistics_impl.go:209-222 | a row of the window is in no chunk if and only if every window that holds it was pruned; none is lost if no pruned window holds a row |
| Statistics.PlanExact | service/form_statistics_impl.go:197-222 | a pruned window holds at most as many rows as lie at cuts, and chunks wider than one unit of time exceed the target by at most that many; with no row at a cut every row of the window lies in exactly one chunk |
| Statistics.ListAfterId | dao/instance_dao.go:142-169 | the next rows of the window in id order, up to the limit |
| Statistics.RestAbove | dao/instance_dao.go:142-169 | continuing above the last id of a page yields exactly the rest of the list |
| Statistics.DedupOnce | service/form_statistics_impl.go:126-132 | whatever is read, nothing is fed twice and nothing read is missed |
| Statistics.Feeder.Feed | service/form_statistics_impl.go:126-132 | an id is fed only the first time |
| Statistics.Feeder.ReadChunk | service/form_statistics_impl.go:165-182 | reading page by page feeds exactly the rows of the chunk |
| Statistics.Feeder.Iterate | service/form_statistics_impl.go:152-184 | one pass feeds exactly what the planned chunks hold |
| Statistics.Aggregate | service/form_statistics_impl.go:83-121 | refused exactly above the limit; never a row twice; exactly the rows not lost to pruning in either table, which are all rows of the window where no pruned window holds one |
| Statistics.RowAtCutHidesRow | service/form_statistics_impl.go:209-222 | one row exactly at a cut makes a later hint too small: a window that still holds a row is pruned and the row is in no chunk |
| Statistics.HiddenRowExists | service/form_statistics_impl.go:209-222 | there is such a table: a row of the window that is not read |
| Lifecycle.Store.WithInstanceTx | service/instance_lock.go:86-151 | a missing or frozen row, a failing body and a failing commit leave the tables alone and run no hook; otherwise the changes stand, and the hooks run in order up to the first that fails |
| Lifecycle.Store.StartInstance | service/runtime_service_impl.go:242-328 | a new running instance or a draft |
| Lifecycle.Store.ArchiveInstance | service/runtime_service_impl.go:2460-2553 | the instance and its tasks move to the history tables, and nothing else changes |
| Lifecycle.Store.ClosingTasks | service/runtime_service_impl.go:1173-1216 | the tasks as archived: voided when in flight, unchanged otherwise |
| Lifecycle.Store.SuspendInstance | service/runtime_service_impl.go:523-618 | drafts are refused, a suspended instance is left alone, active and pending tasks are suspended with their instance |
| Lifecycle.Store.ActivateInstance | service/runtime_service_impl.go:679-816 | suspended tasks go back to their assignee or to the candidates; the engine is to be started exactly when a draft was turned into a running instance |
| Lifecycle.Store.CompleteInstance | service/runtime_service_impl.go:1111-1297 | a completed instance is left alone, one not seen running is refused, otherwise it is archived with every unfinished task voided |
| Lifecycle.Store.TerminateInstance | service/runtime_service_impl.go:2331-2415 | the instance and everything below it through open children is archived as terminated |
| Lifecycle.Store.TerminateBelow | service/runtime_service_impl.go:2377-2408 | the worklist ends and has archived exactly what is reached through open children |
| Lifecycle.Store.DeleteInstance | service/runtime_service_impl.go:366-499 | a draft is removed, a live instance archived as deleted, an archived one marked deleted |
| LifecycleRows.StartRows | service/runtime_service_impl.go:242-328 | a start writes one live row, running or a draft, and nothing else |
| LifecycleRows.CompleteRows | service/runtime_service_impl.go:1111-1297 | a completion moves the instance to history as completed and its tasks with it, every unfinished one voided, and nothing else changes; a second completion changes nothing |
| LifecycleRows.CompleteRefused | service/runtime_service_impl.go:1111-1165 | a completion of an instance that is gone or was not seen running changes nothing, and what it answers |
| LifecycleRows.DeleteDraftRows | service/runtime_service_impl.go:366-467 | deleting a draft removes its row and nothing else |
| LifecycleRows.DeleteLiveRows | service/runtime_service_impl.go:366-467 | deleting an open instance moves it to history as deleted and its tasks with it, open ones voided, and nothing else changes |
| LifecycleRows.DeleteArchivedRows | service/runtime_service_impl.go:469-499 | deleting an archived instance marks its row and nothing else; an unknown one is not found |
| LifecycleRows.SuspendRows | service/runtime_service_impl.go:523-618 | a running instance is suspended with its active and pending tasks, a suspended one and a draft are left alone |
| LifecycleRows.ActivateRows | service/runtime_service_impl.go:679-816 | a suspended instance gives its tasks back to their assignees or candidates, a draft starts running, a running one is left alone |
| LifecycleRows.TerminateRefused | service/runtime_service_impl.go:2331-2376 | drafts and unknown instances are not terminated |
| Lifecycle.StepKeeps | service/runtime_service_impl.go:366-499 | every operation keeps the tables consistent |
| Lifecycle.TablesDisjoint | dao/instance_dao.go:790-798 | over every run no instance and no task is in a live and a history table at once |
| Lifecycle.TasksConserved | service/runtime_service_impl.go:1139-1279 | over every run no task is lost, duplicated or moved to another instance |
| Lifecycle.CompletedTasksEnded | service/runtime_service_impl.go:1173-1221 | over every run the archived tasks of a completed instance have all ended |
| Lifecycle.UnionAllIsDistinct | dao/instance_dao.go:790-798 | counting with UNION ALL over both tables counts each matching instance once, for every filter |
| Lifecycle.ArchivedAsEnded | service/runtime_service_impl.go:2483-2513 | after a termination or deletion a task is archived as ended exactly if it was not created, assigned, waiting or delegated |
| Lifecycle.CascadeExact | service/runtime_service_impl.go:2374-2408 | a termination archives exactly the root and its open descendants, leaves none of these children live and every other instance row as it was |
| Lifecycle.CascadeTasks | service/runtime_service_impl.go:2460-2553 | their tasks go to history with the open ones voided, and every other task row stays as it was |
| Lifecycle.DeleteKeepsChildren | service/runtime_service_impl.go:366-467 | deletion does not touch the children |
| Lifecycle.SuspendActivate | service/runtime_service_impl.go:523-816 | suspending and activating again restores a task exactly if it was not suspended before and its status fits its assignee |
| SubProcess.CheckSubProcessDepth | service/runtime_subprocess.go:83-105 | passes exactly when the process is new to the line of live ancestors and that line does not go on past ten members |
| SubProcess.CheckMeaning | service/runtime_subprocess.go:79-105 | of the parent and the live instances in a row above it none of the first ten runs the process, and if all ten are live the tenth names no parent |
| SubProcess.StartSubProcessInstance | service/runtime_subprocess.go:15-77 | a child is started exactly below a live parent that passes the check |
| SubProcess.NestingBounded | service/runtime_subprocess.go:79-105 | in every reachable state a live instance has at most ten live ancestors in a row, and no process occurs twice among it and them |
| SubProcess.StepCoversExactly | service/runtime_subprocess.go:83-105 | a step keeps every line of live ancestors unbroken, through both tables, if and only if it does not complete or delete an instance that has a live child and a live parent |
| SubProcess.CoveredExactly | service/runtime_subprocess.go:83-105 | over every run lines stay unbroken exactly as long as no step takes such an instance out |
| SubProcess.AllAncestorsBounded | service/runtime_subprocess.go:79-105 | in every run without such a step all live ancestors are at most ten steps above, their processes are distinct, and the check refuses each of them |
| SubProcess.GapHides | service/runtime_subprocess.go:91-95 | after such a step, completion or deletion alike, a child of the instance passes the check for the process of its live grandparent |
| SubProcess.GapHidesAncestor | service/runtime_subprocess.go:91-95 | a reached state of this kind: after a deletion in the middle, an instance may start the process of a live ancestor above the gap |
| SequentialApproval.FetchTasksPageAll | components/node_helpers.go:40-55 | the paging loop ends and returns every row |
| SequentialApproval.SequentialAssigneesFrom | components/user_task_node.go:455-482 | the first of the longest cached lists, empty exactly when no task has one |
| SequentialApproval.CheckTasksCompletion | components/user_task_node.go:398-430 | complete when as many tasks are done as the cached list is long |
| SequentialApproval.ApprovalNode.OnMsg | components/user_task_node.go:191-383 | the tasks after a call and its outcome |
| SequentialApproval.OneAtATime | components/user_task_node.go:229-316 | over every run the k-th task belongs to the k-th approver, at most the last task is open, and no task follows a rejection |
| SequentialApproval.CallAnswers | components/user_task_node.go:204-383 | in every reachable state: the first task for no tasks; success exactly when all approvers are done, none rejected and one approved; waiting exactly behind an open task; the next task exactly behind one that was not rejected; rejection in all other cases |
| SequentialApproval.SuccessMeansAllApproved | components/user_task_node.go:487-513 | where every completion is an approval or a rejection, success is answered exactly when every approver approved |
| SequentialApproval.ApprovedExactly | components/user_task_node.go:487-513 | where success is answered all approvers are done and none rejected, and each of them approved if and only if no completion came without a verdict |
| SequentialApproval.OrderSurvivesOverlap | components/user_task_node.go:288-314 | however calls overlap, the k-th task belongs to the k-th approver and at most the last task is open |
| SequentialApproval.ResumeCreates | components/user_task_node.go:288-314 | a call cleared to go on creates the task of the next approver exactly when the last task is done and approvers are left, whatever its verdict |
| SequentialApproval.FollowsRejectionExactly | components/user_task_node.go:246-314 | in a run of overlapping calls a task follows a rejection if and only if a call cleared before goes on behind a rejected last task while approvers are left |
| SequentialApproval.PassingCallIsStale | components/user_task_node.go:246-314 | such a call read the tasks before the rejected one was created |
| SequentialApproval.StaleCallPassesRejection | components/user_task_node.go:246-314 | a concrete case of such a call |
| SequentialApproval.AfterFirstReached | components/user_task_node.go:288-314 | the state of that case is reached by overlapping calls |
| SequentialApproval.UnmarkedPasses | components/user_task_node.go:487-513 | a completion without a verdict passes as approval |
| LikeEscape.ContainsExactly | dao/like_escape.go:6-20 | with backslash as escape character the pattern matches exactly the strings that contain the keyword as it stands |
| LikeEscape.ExactOnSqlite | dao/like_escape.go:9-11 | on SQLite, which has no escape character and folds the case of ASCII letters, a keyword matches exactly the strings that contain it up to case if and only if it is free of backslash, percent sign and underscore |
| LikeEscape.UndermatchesExactly | dao/like_escape.go:9-11 | on SQLite a keyword misses some string that contains it if and only if it has one of the three characters |
| LikeEscape.OvermatchesExactly | dao/like_escape.go:9-11 | on SQLite a keyword finds some string that does not contain it if and only if it has a percent sign or an underscore, or is not part of itself with the backslashes doubled |
| LikeEscape.OvermatchingKeywords | dao/like_escape.go:9-11 | the keyword of one percent sign and the one of a backslash between letters match too much, a lone backslash does not |

## Left out

- Statistics.Aggregate: the table is static during one traversal. Over a changing table only the at-most-once half holds, which `Statistics.DedupOnce` states for any rows read.
- SequentialApproval.ApprovalNode.OnMsg: the approval types single, any, countersign and vote, and the approval of empty approver lists, are not modelled; the threshold arithmetic of countersigning lives in other files.
- SequentialApproval.OrderSurvivesOverlap: one process. Replicas do not share the lock of the task section, and a drive goes on without the distributed lock when it cannot get it (`service/dist_exec_gate.go:22-24`), so across replicas two sections may interleave.
- Lifecycle.Store.WithInstanceTx: hooks are known by whether they succeed; what they do to the tables in transactions of their own is not modelled. Lock timeouts count as a failing commit.
- ExecGate.GateTable.Lookup: a new entry is made only when it is stored; the unused allocation of the source is not visible.
- Rollback.HandleRejection: event dispatch, a missing runtime service, a failing jump and the choice between Reject and Failure edges in the fallback are not modelled.
- Messages, variables and delay offsets carried by the restore requests of a fork: only the nodes they are aimed at are modelled.
- Caching of parsed fork graphs and its invalidation across replicas.
- The distributed gate, lock timeouts and retries: availability measures without a safety claim.
- The rule engine itself (dispatch, message collection at joins, restoring nodes): only the decisions handed to it are modelled.
- SQL, object mapping and drivers: tables are maps, and a query is its filter.
- Tenants, ownership and operator authorisation: guards with one branch.
- Events, notifications, logging, audit columns, end reasons and wall-clock times.
- Candidate pools of tasks: they are cleaned together with the tasks and have no further rules.
- Restart of instances, recall, claims and timers.
- Agents, HTTP calls, templates and decision parsing: calls to the outside.
- The JSON and path libraries: a validity predicate and a lookup function stand for them.
- Definitions whose JSON cannot be parsed: both normalisation passes leave them as they are.
- Aggregating the fed rows into sums, distributions and groups.
