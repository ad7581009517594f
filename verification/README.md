# Verified model of the Box Agent runtime's in-memory protocols

This project models, in Dafny, the parts of the Box Agent runtime that carry its guarantees in memory, and proves
properties of them over all inputs, all runs or all interleavings.

| area | modules |
|---|---|
| memory maintenance: clustering, near-duplicate merging, movement between stores, validated model output, arbitration, compaction, runs | `Clustering`, `Dedup`, `DedupLaws`, `DedupRules`, `Maintenance`, `MaintainerOutput`, `OutputRules`, `Arbitration`, `Compaction`, `MemoryRuns`, with `Entries` |
| the bounded run-event channel and the run handle | `RunEvents`, `ChannelReplies`, `AgentRun` |
| ownership and closing of a session's runs | `AgentSession` |
| the injection queue | `Injections`, `InjectionLaws` |
| the ledger of file ranges in the model's history | `ContextResources`, `LedgerHistory`, `SmallestCover` |
| image retention | `ImageRetention`, `ImageLaws`, `ImageRules`, `ImageRendering`, `ImageObjects` |
| the hook bus | `HookBus`, `HookRegistry` |
| connector snapshots | `ConnectorContext`, `SnapshotRules` |
| correction receipts | `Correction`, `CorrectionLaws`, `CorrectionRules` |
| the repeated-suffix detector | `LoopGuards` |
| shared: stable sorting and filtering, insertion-ordered dictionaries, options | `Ordering`, `Tables`, `Optional` |

The objects that the program updates in place are classes here, with one method per atomic step (a step is what runs
between two suspension points). Each method is proved against a function on the abstract state, and the properties are
proved about those functions. A concurrent protocol is the set of all traces of its steps. Fields that only the proofs
need (what entered the history, which failures a receipt used up, the text a source was registered with) are ghost
fields of the classes; on the abstract state they are ordinary components.

`dafny verify dfyconfig.toml` checks everything.

## What turned out not to hold

- Compaction does not conserve hits in general, because the validator checks neither coverage nor overlap of the
  sources (`box_agent/memory_maintainer.py:364-381`). `Compaction.SourceUsedTwiceAddsHits` is an
  accepted reply that does not, `Compaction.ConservedIffPartition` the exact condition.
- A conflict winner may lose another group (`box_agent/memory_maintainer.py:623-639`):
  `MaintainerOutput.WinnerMayLoseElsewhere` and `Maintenance.WinnerStaysIffNotLoser`.
- A correction that shares the id and content of a losing entry is archived with it:
  `Arbitration.SharedIdTakesCorrection`, with the exact condition for one commit in
  `Maintenance.ConflictKeepsCorrections`. Without shared ids no run loses a correction:
  `MemoryRuns.RunKeepsCorrections`.
- A new run scope during an awaited apply leaves a status without an input (`box_agent/injections.py:264-271`):
  `Injections.BeginRunDuringApplyMisaligns`, with the exact condition in `Injections.FinishKeepsTablesAligned`.
- A failed apply restores the history only if nothing else was appended during the wait:
  `Injections.FailureRestoresHistory`, with a run that loses a message in `Injections.OtherMessageIsLost`.
- The selected coverage sources are not always a smallest cover: `SmallestCover.NotASmallestCover`. They are one if
  and only if no candidate can be passed over: `SmallestCover.SmallestIff`.
- Accepting a response drops all pending image notices but marks only the recorded ones
  (`box_agent/image_context.py:308-313`): `ImageLaws.ResponseMarksNoticesIff`, and a run that loses a notice in
  `ImageLaws.NoticeLostUnmarked`.
- Committing an image preview drops images adopted since: `ImageLaws.LateCommitDropsAdoptedImages`. It also brings back
  images retired since: `ImageLaws.LateCommitRevives`, with the exact condition in `ImageLaws.CommitsKeepRetiredIff`.
- A legacy result callback changes the text without the result counting as modified
  (`box_agent/hook_bus.py:457-460`): `HookBus.LegacyChangesUnnoticed`. An unmodified result can be trusted if and only
  if no legacy callback listens to it: `HookBus.FlagIsSoundIff`.
- A failing legacy callback is not as good as absent: it holds the live arguments and what it leaves in them goes on to
  later handlers and the tool (`box_agent/hook_bus.py:401-414`): `HookBus.FailedLegacyChangesArguments`, with the exact
  conditions in `HookBus.FailuresVanishIff` and `HookBus.SkippedIffLeftAlone`.
- Restored connector history is not always prefix-stable: `ConnectorContext.SentPrefixChanges`, with the exact
  condition in `ConnectorContext.PrefixIsStableIff`.

## Model

| member | source | states |
|---|---|---|
| `Clustering.ClusterByJaccard` | box_agent/memory_maintainer.py:561-592 | The returned clusters are exactly the connected components of size two or more of the similarity graph, each ascending, ordered by least member; no index is in two clusters |
| `Clustering.ComponentListUnique` | box_agent/memory_maintainer.py:589-592 | That specification determines the result: two lists of components of the same graph are equal |
| `Clustering.OneClusterIff` | box_agent/memory_maintainer.py:561-592 | Two entries share a cluster if and only if a chain of entries leads from one to the other in which neighbours are different and share at least the threshold of their tokens, counted as common over all |
| `Clustering.ClustersDisjoint` | box_agent/memory_maintainer.py:589-592 | An index belongs to at most one cluster |
| `Clustering.Find` | box_agent/memory_maintainer.py:573-577 | On every parent array that is a forest the path-halving loop terminates at the root, and no element changes its root |
| `Clustering.HalvingKeepsRoots` | box_agent/memory_maintainer.py:575-576 | One path-halving step keeps every root and moves strictly upwards |
| `Clustering.RootsDetermined` | box_agent/memory_maintainer.py:571-577 | Roots are a function of the parent array, independent of any witness of its shape |
| `Clustering.Union` | box_agent/memory_maintainer.py:579-582 | Union relabels exactly the class of the first root |
| `Clustering.JoinSimilar` | box_agent/memory_maintainer.py:584-587 | After the double loop two indices have the same root exactly when a chain of similar pairs links them |
| `Clustering.GroupByRoot` | box_agent/memory_maintainer.py:589-591 | Buckets by root hold every index once, in order, keyed by first appearance |
| `Dedup.FindMerges` | box_agent/memory_maintainer.py:274-282 | The double loop computes the greedy merge: every entry is absorbed by the first surviving higher-priority entry at or above the threshold, or survives if there is none |
| `Dedup.GreedyMergeUnique` | box_agent/memory_maintainer.py:274-282 | The greedy rule admits one merge map only |
| `Dedup.PriorityOrderExact` | box_agent/memory_maintainer.py:269-272 | The priority order lists every ordinary entry exactly once and no correction |
| `Dedup.FoldLosers` | box_agent/memory_maintainer.py:287-297 | The metadata loop folds each loser into its winner, in the order the losers were found |
| `Dedup.DedupTransaction` | box_agent/memory_maintainer.py:260-300 | A pass leaves archive and trash alone and makes the active store the survivors of the greedy merge with folded metadata |
| `DedupLaws.DedupConservesHits` | box_agent/memory_maintainer.py:287-300 | A pass conserves the total number of hits |
| `DedupLaws.WinnerAggregates` | box_agent/memory_maintainer.py:288-297 | A survivor carries the summed hits, least created, greatest last-used and greatest confidence of exactly its merge class, and its own id and content |
| `DedupLaws.WinnersOutrank` | box_agent/memory_maintainer.py:274-282 | An absorbing entry is never of lower priority than the absorbed one, is near it, and neither is a correction |
| `DedupLaws.DedupSpreads` | box_agent/memory_maintainer.py:274-300 | Every two ordinary entries that are kept are below the threshold |
| `DedupLaws.DedupIdempotent` | box_agent/memory_maintainer.py:260-300 | A second pass changes nothing, even if the store returns the kept entries in another order |
| `DedupLaws.DedupKeepsCorrections` | box_agent/memory_maintainer.py:269-300 | Corrections come out unchanged and in their order |
| `DedupRules.OrderIsRanking` | box_agent/memory_maintainer.py:269-272 | The order in which winners are tried ranks the ordinary entries by hits, then age, then place in the store |
| `DedupRules.AbsorbedExactly` | box_agent/memory_maintainer.py:269-300 | An ordinary entry is merged away if and only if some surviving ordinary entry that outranks it is at least as similar as the threshold, and then into the highest such |
| `DedupRules.KeptExactly` | box_agent/memory_maintainer.py:284-300 | What is kept are exactly the entries not merged away, in place, with the hits of their class and everything but hits, times and confidence as before |
| `Maintenance.DecayTransaction` | box_agent/memory_maintainer.py:195-214 | Decay moves exactly the unused, aged, non-correction entries to the end of the archive |
| `Maintenance.CleanupArchiveTransaction` | box_agent/memory_maintainer.py:226-248 | Cleanup moves exactly the archive entries past decay plus archive days to the trash |
| `Maintenance.ApplyConflictResults` | box_agent/memory_maintainer.py:724-745 | Either nothing changes, because a decided id vanished or changed its content, or exactly the losers move to the archive |
| `Maintenance.RunConserves` | box_agent/memory_maintainer.py:195-248 | Over every sequence of commits the multiset of active, archive and trash entries is invariant |
| `Maintenance.ConflictKeepsCorrections` | box_agent/memory_maintainer.py:724-745 | A conflict commit keeps all corrections active if and only if it is refused or no correction has a losing id |
| `Maintenance.RunMoves` | box_agent/memory_maintainer.py:204-246 | Over every run an entry leaves the active store only by decaying (no hits, past the decay age) or as a loser, and reaches the trash only past decay plus archive days |
| `Maintenance.SweepsIdempotent` | box_agent/memory_maintainer.py:195-248 | Repeating a sweep at the same time changes nothing |
| `Maintenance.WinnerStaysIffNotLoser` | box_agent/memory_maintainer.py:738-744 | A decided winner stays active if and only if it is not also a loser |
| `Maintenance.ByIdExact` | box_agent/memory_maintainer.py:459-467 | With distinct ids the dictionary by id finds exactly the entry of that id |
| `Maintenance.DecisionsCurrentIff` | box_agent/memory_maintainer.py:726-737 | With distinct ids a conflict commit goes ahead if and only if for every decided id the snapshot and the present store hold entries of that id with the same content |
| `Maintenance.CommittedIffUnedited` | box_agent/memory_maintainer.py:724-745 | What a conflict commit leaves, decided by the contents of the entries alone |
| `Maintenance.DecayExact` | box_agent/memory_maintainer.py:195-214 | Decay takes exactly the ordinary entries without hits whose last use reads as more than the decay days ago |
| `Maintenance.CleanupExact` | box_agent/memory_maintainer.py:226-248 | Cleanup takes exactly the archived ordinary entries last used more than the decay and archive days together ago |
| `MaintainerOutput.ParseConflictOutput` | box_agent/memory_maintainer.py:616-640 | Accepts exactly the well-shaped outputs: known winners, non-empty known losers, no winner among its own losers, no loser twice |
| `MaintainerOutput.ValidGroupsAreSane` | box_agent/memory_maintainer.py:624-639 | In every accepted output the losers are distinct over all groups and no group loses to itself |
| `MaintainerOutput.CollectDecisions` | box_agent/memory_maintainer.py:711-717 | The loop collects as losers exactly those of the accepted groups, and as winners those of the groups that name a new loser |
| `MaintainerOutput.WinnersExact` | box_agent/memory_maintainer.py:711-717 | Every recorded winner won a group, and with distinct losers every winner is recorded |
| `MaintainerOutput.WinnerMayLoseElsewhere` | box_agent/memory_maintainer.py:623-639 | An accepted output in which the winner of one group loses another |
| `MaintainerOutput.ParseCompactOutput` | box_agent/memory_maintainer.py:361-381 | Accepts exactly the well-shaped outputs, with no demand on coverage or overlap of the sources |
| `OutputRules.ArbitrationAcceptedIff` | box_agent/memory_maintainer.py:595-640 | Exactly those outputs are taken that spell groups with a known winner and other known losers in which nobody loses twice |
| `OutputRules.SpelledGroupsAccepted` | box_agent/memory_maintainer.py:616-640 | What is read from an accepted arbitration are the groups it spells, whatever else it holds |
| `OutputRules.CompactionAcceptedIff` | box_agent/memory_maintainer.py:361-381 | Exactly those outputs are taken that spell one item at least, each with text that is not blank, a hit count that is not negative and known sources |
| `OutputRules.SpelledCompactionAccepted` | box_agent/memory_maintainer.py:361-384 | What is read from an accepted compaction are the contents and sources it spells |
| `OutputRules.RecordedIff` | box_agent/memory_maintainer.py:711-717 | A winner is recorded if and only if one of its groups names somebody that lost in no earlier group |
| `Arbitration.Arbitrate` | box_agent/memory_maintainer.py:670-709 | The groups of exactly those clusters whose reply is valid for the ids of that cluster |
| `Arbitration.DecisionsNameSnapshot` | box_agent/memory_maintainer.py:705-717 | Whatever the model replies, accepted winners and losers are ids of the snapshot |
| `Arbitration.ResolveConflicts` | box_agent/memory_maintainer.py:711-747 | From the replies to the commit: the stores become those after the commit of the accepted groups, or stay when nobody loses |
| `Arbitration.ResolutionKeepsCorrections` | box_agent/memory_maintainer.py:650-745 | Only entries with an id of the snapshot leave; no correction leaves when none has such an id |
| `Arbitration.SharedIdTakesCorrection` | box_agent/memory_maintainer.py:722-745 | An accepted reply that archives a correction stored under the id and content of a losing entry |
| `MemoryRuns.RunKeepsCorrections` | box_agent/memory_maintainer.py:191-745 | After every run of decay, cleanup, deduplication, arbitration, compaction and concurrent additions and edits the corrections are the initial ones followed by the added ones, whatever the model replies, provided ids are not shared between corrections and ordinary entries |
| `Compaction.CommitCompaction` | box_agent/memory_maintainer.py:450-511 | Commits if and only if every snapshot id still holds its content; then the active store is the merged items, the later ordinary entries and the corrections; otherwise nothing is written |
| `Compaction.AcceptedNamesSnapshot` | box_agent/memory_maintainer.py:343-384 | Every reply the validator accepts names only ids of the snapshot, and at least one source per item |
| `Compaction.Compact` | box_agent/memory_maintainer.py:441-511 | From the reply to the commit, with no assumption on the reply: writes if and only if the reply is valid and the snapshot unchanged |
| `Compaction.SnapshotCurrentIff` | box_agent/memory_maintainer.py:455-467 | With distinct ids a commit goes ahead if and only if every entry of the snapshot is still in the store with the same content |
| `Compaction.EditedIsNoticed` | box_agent/memory_maintainer.py:459-467 | With distinct ids, one entry of the snapshot whose content was edited makes the commit be refused |
| `Compaction.ConcurrentEditsSurvive` | box_agent/memory_maintainer.py:488-499 | Whatever was added meanwhile survives a commit, and all corrections survive in their order |
| `Compaction.MergedIsCurrent` | box_agent/memory_maintainer.py:470-486 | A merged entry carries the hit sum and the attained least created, greatest last-used and greatest confidence of what its sources hold at commit time |
| `Compaction.MergedLabels` | box_agent/memory_maintainer.py:470-487 | A merged entry carries the common topic of its sources, otherwise the general one, and is rejected if and only if a source is |
| `Compaction.HitsBalance` | box_agent/memory_maintainer.py:469-499 | After a commit the hits of each current entry are counted once per use as a source, plus once if it is later or a correction |
| `Compaction.ConservedIffPartition` | box_agent/memory_maintainer.py:364-381 | Total hits are conserved for all hit counts if and only if the sources use every ordinary snapshot entry exactly once |
| `Compaction.SourceUsedTwiceAddsHits` | box_agent/memory_maintainer.py:364-384 | An accepted reply that uses one source twice turns one hit into two |
| `RunEvents.RunEventChannel.Publish` | box_agent/run_events.py:49-74 | The first part of a publish: refuses a closed channel and an event that cannot be encoded or is too large, without using a number; enqueues when it fits, otherwise starts to wait |
| `RunEvents.RunEventChannel.WaitForCapacity` | box_agent/run_events.py:76-87 | One turn of the waiting loop: leaves it on close, interruption or capacity below the low watermark, otherwise clears the shared event and sleeps |
| `RunEvents.RunEventChannel.ResumePublish` | box_agent/run_events.py:68-74 | A publish let through after waiting enqueues unless the channel closed meanwhile |
| `RunEvents.RunEventChannel.GetNext` | box_agent/run_events.py:89-98 | Takes the head and wakes every waiter, or reports the end of a closed empty channel, or sleeps |
| `RunEvents.RunEventChannel.CloseChannel` | box_agent/run_events.py:104-107 | Closing wakes every waiter |
| `RunEvents.ReachableInv` | box_agent/run_events.py:49-107 | In every interleaving both bounds hold, pending bytes are the sum of queued sizes, numbers are consecutive, and a waiter that is not woken has a false wait condition |
| `RunEvents.NeverBothBlocked` | box_agent/run_events.py:76-98 | Publisher and getter are never both asleep, despite the half-full hysteresis |
| `RunEvents.DrainingAdmits` | box_agent/run_events.py:76-98 | A blocked publisher is woken by consuming and its next check admits it once the queue is drained |
| `RunEvents.DeliveryIsFifo` | box_agent/run_events.py:49-98 | Delivered followed by queued is the accepted sequence numbered 1..n without gaps |
| `RunEvents.EndMeansDrained` | box_agent/run_events.py:89-107 | The end marker is returned only after close and once everything accepted was delivered |
| `RunEvents.LowWatermark` | box_agent/run_events.py:76-87 | An event that waited enters only when the queue is at most half full in count and bytes |
| `ChannelReplies.PublishReplies` | box_agent/run_events.py:49-74 | In every reachable state: an event is taken at once if and only if the channel is open, the event has an encoding and there is room for it; refused when closed, not encodable or larger than the channel; and otherwise it waits |
| `ChannelReplies.CheckReplies` | box_agent/run_events.py:76-87 | A waiting publish is let through if and only if the channel is neither interrupted nor closed, at most half full in count and bytes, and has room for the event |
| `ChannelReplies.FinishReplies` | box_agent/run_events.py:68-74 | Room stays for an event let through; it is queued unless the channel was closed meanwhile |
| `ChannelReplies.GetReplies` | box_agent/run_events.py:89-98 | The consumer gets the next accepted event it has not had, numbered in order; after the last one the end marker from a closed channel, and sleep on an open one |
| `ChannelReplies.SignalsWake` | box_agent/run_events.py:100-107 | Interrupting and closing raise one flag and wake whoever sleeps, and change nothing else |
| `ChannelReplies.NewChannelIsOpen` | box_agent/run_events.py:27-36 | A new channel takes the first event that fits and hands it to the consumer |
| `AgentRun.AgentRunHandle.EnsureStarted` | box_agent/agent_run.py:186-193 | Starts the runner once |
| `AgentRun.AgentRunHandle.FinishRunner` | box_agent/agent_run.py:195-253 | The end of the runner: the one result is derived from collected result, raised error and delivery error, the future is set, the channel closed |
| `AgentRun.AgentRunHandle.CloseHandle` | box_agent/agent_run.py:392-415 | Closing settles a run that ended without a result as cancelled and closes its channel |
| `AgentRun.AgentRunHandle.Events` | box_agent/agent_run.py:255-280 | Grants the events to one consumer only |
| `AgentRun.SettledOnce` | box_agent/agent_run.py:351-362 | Once settled, neither the future nor the collected result changes in any continuation |
| `AgentRun.EndHasResult` | box_agent/agent_run.py:195-280 | When the consumer gets the end marker all accepted events were delivered and the result is set |
| `AgentRun.OneConsumer` | box_agent/agent_run.py:255-280 | Event iteration and private draining exclude each other |
| `AgentRun.UnsettledEndIsRepaired` | box_agent/agent_run.py:392-415 | A run ends unsettled only if its task was cancelled before the first step, and closing repairs it |
| `AgentRun.DeliveryFailureWins` | box_agent/agent_run.py:195-253 | A delivery failure while streaming makes the run fail with a delivery error, whatever the source does afterwards: end, raise or be cancelled |
| `AgentRun.DeliveryFailureDecidesIff` | box_agent/agent_run.py:195-253 | A delivery failure noted by the time the runner leaves decides the result if and only if leaving raises anything or the collected result is that failure already |
| `AgentRun.CancellationKeepsTerminalResult` | box_agent/agent_run.py:195-253 | The collected terminal result stands if and only if cleanup raised nothing, or a cancellation, or the very failure it would become |
| `AgentRun.SuccessIsCollected` | box_agent/agent_run.py:195-253 | Over every run, a result that says completed or waiting for the user is the last result the source finished with |
| `AgentRun.SettledExactly` | box_agent/agent_run.py:195-253 | Over every run that reaches its end: an error that is no cancellation makes it fail with that error; otherwise the last terminal event stands; without one it is cancelled if a cancellation is finally raised and fails for the missing event if nothing is |
| `AgentRun.AskingStarts` | box_agent/agent_run.py:186-193 | Asking for events or the result of a new handle starts its runner; asking again does not |
| `AgentRun.ConsumerIff` | box_agent/agent_run.py:255-280 | The events are granted if and only if nobody has had them and the result alone was not asked for |
| `AgentRun.RunnerAdvances` | box_agent/agent_run.py:195-253 | The runner goes from its first step through the source to closing it, or ends before it began; only closing the handle settles such a run |
| `AgentSession.SessionRuns.StartRun` | box_agent/agent_session.py:321-332 | A run starts only when no other is live, no run handle is active in another task, and the session is not closing |
| `AgentSession.SessionRuns.ResumeRun` | box_agent/agent_session.py:367-396 | A resumed generator goes on, joins an external cleanup or cleans up itself |
| `AgentSession.SessionRuns.FinishRun` | box_agent/agent_session.py:397-408 | The end of a generator clears exactly what it owns |
| `AgentSession.SessionRuns.BeginAclose` | box_agent/agent_session.py:437-480 | Closing refuses new runs, first closes an active run handle, then takes over a run that is suspended or whose task has ended, or waits for a driving one |
| `AgentSession.SessionRuns.TakeOverRun` | box_agent/agent_session.py:437-480 | After the run handle has closed, the run that is suspended or whose task has ended is taken over, or the driving one awaited |
| `AgentSession.ReachableInv` | box_agent/agent_session.py:314-487 | The ownership invariant of every interleaving of generator and closer |
| `AgentSession.ClosedExactlyOnce` | box_agent/agent_session.py:382-435 | Each run closes its stream at most once, exactly once by the time it finishes, and at most one run is live |
| `AgentSession.ResumingConsumerJoins` | box_agent/agent_session.py:368-392 | A consumer that resumes after a take-over joins that cleanup and closes nothing |
| `AgentSession.ClosingStopsTheRun` | box_agent/agent_session.py:437-487 | After closing has begun a live generator cannot continue past its next resume and no run starts |
| `AgentSession.ResumeGoesOnIff` | box_agent/agent_session.py:362-376 | In every reachable session a resume by any task puts the waiting run back to streaming if and only if it is not stopped and the session is not closing; it then has closed nothing and belongs to the resuming task |
| `AgentSession.StartsIff` | box_agent/agent_session.py:314-332 | A run starts if and only if the session is neither closed nor closing, no handle is busy and every run so far has finished; a new session can start one |
| `AgentSession.RunProgresses` | box_agent/agent_session.py:333-408 | A started run gets its stream, hands on each event, and once it has left is finished and lets the next one start |
| `AgentSession.ClosingProceeds` | box_agent/agent_session.py:437-487 | What closing a session begins with: an idle one closes a busy handle and then the plug-ins, one with a run at a yield closes that stream, and otherwise it waits for the driving run |
| `AgentSession.ClosingAdvances` | box_agent/agent_session.py:437-487 | Each wait of closing ends in its next stage, and the last one in a closed session unless closing the plug-ins fails |
| `AgentSession.CleanupEnds` | box_agent/agent_session.py:437-487 | The end of an external cleanup lets whoever waits for that run go on, and leaves nothing registered |
| `AgentSession.ClosedMeansReleased` | box_agent/agent_session.py:437-487 | A closed session has closed every stream exactly once and no generator still uses one |
| `AgentSession.RegisteredStreamIsLive` | box_agent/agent_session.py:437-487 | The stream that closing takes over is the open stream of the one live run |
| `Injections.InjectionManager.SubmitItem` | box_agent/injections.py:189-217 | Submission: nothing for an empty item, a new scope after a finished run, duplicate or conflict by fingerprint, otherwise queued as pending |
| `Injections.InjectionManager.CancelItem` | box_agent/injections.py:229-251 | Draining and refilling the queue removes exactly the items of the id and keeps the order of the others |
| `Injections.InjectionManager.DiscardAll` | box_agent/injections.py:253-262 | Empties the queue and marks every queued id as discarded |
| `Injections.InjectionManager.StartScope` | box_agent/injections.py:264-274 | A new scope keeps exactly the pending ids in both tables |
| `Injections.InjectionManager.ApplySync` | box_agent/injections.py:281-298 | Takes, appends and commits, or restores the history and discards |
| `Injections.InjectionManager.ApplyAsyncEnd` | box_agent/injections.py:300-332 | The part after the awaited preparation: cancelled, failed, or committed |
| `Injections.ReachableInv` | box_agent/injections.py:189-332 | In every reachable state the pending ids are exactly the queued ids, each once, both tables have the same keys, and the unfinished count is queued plus in flight |
| `Injections.EntersAtMostOnce` | box_agent/injections.py:229-332 | Within one run an id enters the history at most once, and never after cancel returned true for it |
| `Injections.CancelIsDecisive` | box_agent/injections.py:229-332 | From the moment cancel returns true no later step of the same run injects the id |
| `Injections.CancelDuringPreparation` | box_agent/injections.py:300-316 | Cancelling during the awaited preparation keeps the item out whatever the preparation returns; a failed preparation still cuts the history back |
| `Injections.CancelRemovesOne` | box_agent/injections.py:229-251 | Cancelling a queued id removes the one item, keeps all others in order and lowers the unfinished count by one |
| `Injections.FailureRestoresHistory` | box_agent/injections.py:320-324 | In every reachable state a failed apply leaves the history it started from, which is the present one if and only if nothing else was appended meanwhile |
| `Injections.OtherMessageIsLost` | box_agent/injections.py:300-324 | A run in which a message appended during the wait is lost with the failed apply |
| `Injections.FinishKeepsTablesAligned` | box_agent/injections.py:327-328 | Finishing an apply keeps the two tables aligned if and only if its id is still known |
| `Injections.BeginRunDuringApplyMisaligns` | box_agent/injections.py:264-271 | A new scope during an apply leaves a status without an input |
| `InjectionLaws.SubmittedExactly` | box_agent/injections.py:189-217 | A submitted item is queued, last, if and only if it has content and its id is not known in the present scope; a known id is a duplicate if the content is the same and a conflict if not |
| `InjectionLaws.ResubmittedExactly` | box_agent/injections.py:195-207 | Within a run, whatever became of the first submission of an id, a second one is a duplicate or a conflict by comparison with it and changes nothing |
| `InjectionLaws.CancelledExactly` | box_agent/injections.py:229-251 | A cancel succeeds if and only if the item waits in the queue or is being prepared; otherwise nothing changes |
| `InjectionLaws.AppliedExactly` | box_agent/injections.py:281-309 | The head of the queue enters the history, last, if and only if its commit succeeds; otherwise the history stays and it is discarded. An awaited apply takes the head out and remembers how long the history was |
| `InjectionLaws.BegunExactly` | box_agent/injections.py:264-274 | A new run remembers exactly the ids that wait, with their fingerprints |
| `InjectionLaws.FinishedExactly` | box_agent/injections.py:309-332 | An awaited item enters the history if and only if it was prepared, neither it nor the run was cancelled and the commit succeeds; cancelled it leaves the history alone, failed it cuts it back to where it began |
| `InjectionLaws.DiscardedExactly` | box_agent/injections.py:253-279 | Discarding empties the queue and marks exactly the waiting ids; ending a run does so too |
| `ContextResources.ContextResourceLedger.Register` | box_agent/context_resources.py:140-154 | Registers a source with content under a non-empty id and drops a receipt of that id |
| `ContextResources.ContextResourceLedger.AddReceipt` | box_agent/context_resources.py:156-166 | Records the distinct sources of a receipt and drops a source of that id; ignores empty ones |
| `ContextResources.ContextResourceLedger.InvalidateSourceIds` | box_agent/context_resources.py:168-173 | Removes the named sources and returns those that existed, each once, in order |
| `ContextResources.ContextResourceLedger.ReconcileWith` | box_agent/context_resources.py:175-197 | Drops exactly the sources whose last answering message is not a read_file text with the registered hash, and the receipts without a message |
| `ContextResources.ContextResourceLedger.CoveringSourceIds` | box_agent/context_resources.py:199-233 | Reconciles, then returns the ids the sweep selects from the ordered candidates, or nothing |
| `ContextResources.ContextResourceLedger.PickCover` | box_agent/context_resources.py:219-233 | The cursor loop computes the sweep |
| `ContextResources.SweepExact` | box_agent/context_resources.py:221-233 | The sweep succeeds if and only if every requested line lies in a listed range |
| `ContextResources.CoverageExact` | box_agent/context_resources.py:199-233 | A query answers with sources if and only if every requested line is shown by a live source of the same resource and version |
| `LedgerHistory.SourcesExactly` | box_agent/context_resources.py:140-256 | Over every run an id is a source if and only if a registration of it stands, undone by no later registration, receipt, invalidation, reconciliation or rotation, and then with the range and text that were registered |
| `LedgerHistory.AnsweredIffShown` | box_agent/context_resources.py:199-233 | After every run a query is answered if and only if every requested line lies in the range of a standing registration for the same resource and version whose last message still shows the text |
| `LedgerHistory.NamedIff` | box_agent/context_resources.py:219-233 | The answer names exactly the candidates that reach further than the request's start and all candidates before them, until the request is covered |
| `LedgerHistory.CandidatesInOrder` | box_agent/context_resources.py:208-220 | Candidates stand by first line, the longer range first, then by id |
| `LedgerHistory.ReceiptsExactly` | box_agent/context_resources.py:156-197 | Over every run a receipt is held if and only if one left for the call was not replaced or dropped, and names its distinct sources as they first came |
| `LedgerHistory.GrantedIff` | box_agent/context_resources.py:235-256 | After every run a reload is granted if and only if the version was not claimed since the last rotation |
| `LedgerHistory.EpochCountsRotations` | box_agent/context_resources.py:250-256 | The epoch counts the rotations |
| `ContextResources.SelectedCover` | box_agent/context_resources.py:221-233 | The selected ranges cover the request with strictly increasing ends |
| `ContextResources.SelectedAreVerbatim` | box_agent/context_resources.py:175-197 | Each selected id is a source, never a receipt, and its last message still carries the registered text unless the hash collides |
| `ContextResources.OrderUnique` | box_agent/context_resources.py:208-220 | The candidate order is determined by the sources, not by their registration order |
| `ContextResources.RunKeepsInv` | box_agent/context_resources.py:140-256 | Over every run source and receipt keys are disjoint, sources have content and the hash of their text, receipts are non-empty |
| `SmallestCover.SpareIffNeighboursMeet` | box_agent/context_resources.py:221-233 | A selected source could be left out if and only if its neighbours meet without it |
| `SmallestCover.SmallestIff` | box_agent/context_resources.py:221-233 | No set of candidates that covers the request is smaller than the selection if and only if no candidate can be passed over: none that ends after all earlier ones but before the request ends, while one reaching further starts no later than the line the earlier ones leave open |
| `SmallestCover.NotASmallestCover` | box_agent/context_resources.py:223-232 | Ranges 1-3, 2-5 and 4-9 are all selected for 1-9 although two suffice |
| `ContextResources.ReconcileIdempotent` | box_agent/context_resources.py:175-197 | Reconciling twice against the same history changes nothing |
| `ContextResources.ContextResourceLedger.ClaimRefreshReload` | box_agent/context_resources.py:235-248 | Grants a reload when the resource version was not refreshed before, and records it |
| `ContextResources.OneReloadPerEpoch` | box_agent/context_resources.py:235-256 | After a claim no further reload of the version is granted until the epoch rotates |
| `ContextResources.RotatingForgets` | box_agent/context_resources.py:250-256 | After a rotation nothing is covered and a reload is granted again |
| `ImageRetention.ImageContext.AdoptReferences` | box_agent/image_context.py:60-70 | Adopts references with their pending notices and restores the order of the imported prefix |
| `ImageRetention.ImageContext.AgeOut` | box_agent/image_context.py:164-171 | Evicts exactly the usable images at or past their rounds and collects the others in order |
| `ImageRetention.ImageContext.SpendBudget` | box_agent/image_context.py:175-179 | Pops the oldest images until the rest fit the byte budget |
| `ImageRetention.ImageContext.Hydrate` | box_agent/image_context.py:181-210 | Loads, excludes or evicts the candidates by model support and readability, then spends the budget on actual sizes |
| `ImageRetention.ImageContext.RenderRequest` | box_agent/image_context.py:212-255 | Renders the history with inlined images and the overlay of notices and loose images |
| `ImageRetention.ImageContext.FitToProvider` | box_agent/image_context.py:234-273 | Drops the oldest image until the provider accepts or none is left |
| `ImageRetention.ImageContext.PrepareRequest` | box_agent/image_context.py:150-299 | New retention state and projection of a request are those of the composed stages |
| `ImageRetention.ImageContext.Preview` | box_agent/image_context.py:134-148 | Previews on a copy and leaves this session unchanged |
| `ImageRetention.ImageContext.PreviewAndCommit` | box_agent/image_context.py:134-148 | Preview followed by its commit leaves exactly the state and projection of preparing directly |
| `ImageObjects.DeepCopy` | box_agent/image_context.py:136-138 | A copy of new and different reference objects with the values of the old ones |
| `ImageObjects.Session.PrepareInPlace` | box_agent/image_context.py:150-299 | Preparing changes the shared reference objects in place, to the values of the composed stages |
| `ImageObjects.Session.Preview` | box_agent/image_context.py:134-140 | A preview changes no reference object that existed before, shares none with the session, and stages what preparing in place would yield |
| `ImageObjects.Session.CommitStaged` | box_agent/image_context.py:142-146 | The commit adopts the staged objects and leaves the dropped ones as they are |
| `ImageRetention.ImageContext.MarkModelResponse` | box_agent/image_context.py:301-313 | Advances the round, marks selected images and recorded notices, clears the pending notices |
| `ImageLaws.KeepsYoungestWithinBudget` | box_agent/image_context.py:164-273 | The selection is a suffix of the age-ordered readable in-round images and stays within the byte budget; a blocked request carries none |
| `ImageLaws.DropsNoMoreThanNeeded` | box_agent/image_context.py:172-210 | With readable files, accurate sizes and no refusal the selection is the largest such suffix within the budget |
| `ImageLaws.InRoundIsAgeOrdered` | box_agent/image_context.py:172-174 | Candidates are ordered by round, and images of one round keep their order |
| `ImageLaws.ShownAndCountedOnce` | box_agent/image_context.py:212-299 | Each selected image appears exactly once in the request and once in the token count, and no other image does |
| `ImageLaws.InlinedAtFirstReference` | box_agent/image_context.py:239-253 | An image stands in the messages exactly at its first reference |
| `ImageLaws.RetiresExactlyWhatItDrops` | box_agent/image_context.py:157-273 | A main request retires every usable image it does not carry and no other |
| `ImageLaws.SummaryRetiresOnlyByAgeAndBudget` | box_agent/image_context.py:183-190 | A summary for a model without vision retires images only by age and declared size |
| `ImageLaws.SummaryWithVisionRetires` | box_agent/image_context.py:183-273 | A summary for a model with vision also retires unreadable images and those over the budget by actual size, but none for a refusal by the provider |
| `ImageLaws.RetiredForGood` | box_agent/image_context.py:157-210 | Over every run, late commits of previews included, an image that is retired in the session and in the previews still to be committed is never selected again |
| `ImageLaws.CommitsKeepRetiredIff` | box_agent/image_context.py:142-146 | A retired image stays retired across the commit of any pending preview if and only if each of them has it retired or does not know it |
| `ImageLaws.AddKeepsImages` | box_agent/image_context.py:60-70 | Adopting references permutes only the imported prefix, which ends up in its branch order |
| `ImageLaws.ResponseMarksNoticesIff` | box_agent/image_context.py:308-313 | No pending notice is dropped unmarked if and only if all of them were recorded with the last main request |
| `ImageLaws.NoticeLostUnmarked` | box_agent/image_context.py:195-198 | A main request, a summary that finds the image unreadable, and the response: the pending notice is dropped unmarked |
| `ImageLaws.MainRequestRecordsNotices` | box_agent/image_context.py:291-293 | A main request records all pending notices, a summary records none |
| `ImageLaws.LateCommitDropsAdoptedImages` | box_agent/image_context.py:142-146 | Committing a preview brings back exactly its images and notices: every image adopted since is lost |
| `ImageLaws.LateCommitRevives` | box_agent/image_context.py:142-146 | A preview, a request that retires its image, and the late commit: the next main request carries the retired image |
| `ImageRules.CandidateIff` | box_agent/image_context.py:164-171 | An image is a candidate if and only if it is active, eligible and not evicted and came in fewer than the kept rounds ago |
| `ImageRules.CandidatesOldestFirst` | box_agent/image_context.py:172-174 | Candidates come oldest first, those of one round as they stand in the session |
| `ImageRules.OutsideItsRounds` | box_agent/image_context.py:164-171 | An unusable image stays as it is, and one past its rounds is evicted for that reason; neither is carried |
| `ImageRules.FateOfCandidate` | box_agent/image_context.py:164-273 | The fate of every candidate, for main requests and summaries: evicted by recorded size, for lack of model support, as unreadable, by actual size, or because the provider refuses, each decided by the candidates from it to the youngest; otherwise carried |
| `ImageRules.LeavesOutTheFewest` | box_agent/image_context.py:234-273 | As many of the oldest images are left out as it takes for the provider to accept, and no more |
| `ImageRules.EvictionsAreTold` | box_agent/image_context.py:157-210 | A request reports exactly the images it retires, with their reasons, and leaves a notice for exactly those the model never saw |
| `ImageRules.PassedOver` | box_agent/image_context.py:183-190 | A summary reports which images it passes over and why; a main request passes over none |
| `ImageRules.RequestRecords` | box_agent/image_context.py:280-299 | What a request records and reports: a main request its images and notices, a summary nothing |
| `ImageRules.ResponseMarks` | box_agent/image_context.py:301-313 | A response marks exactly the recorded images and notices as seen |
| `ImageRules.AdoptedInBranchOrder` | box_agent/image_context.py:60-70 | Adopted images come in the order of their places in the branch, equal places as they arrived, the others after them |
| `ImageRules.AdoptedNotices` | box_agent/image_context.py:60-70 | An adopted image leaves a notice if and only if it was evicted and the model has neither seen it nor been told |
| `ImageRules.RoundCountsResponses` | box_agent/image_context.py:301-303 | Over every run the round is the number of responses: no request, late commit, adoption or reset turns the clock |
| `ImageRendering.EveryBlockIsShown` | box_agent/image_context.py:239-255 | Message by message and block by block: text as it is, an image at its first reference, a hint at later ones and at images not carried |
| `ImageRendering.OverlayShowsTheRest` | box_agent/image_context.py:212-232 | The overlay holds the notices, if any, then each carried image that no message refers to, with its label, oldest first, and is sent if and only if it holds something |
| `ImageRendering.InlinedAreReferred` | box_agent/image_context.py:284-299 | The token count adds to the overlay the carried images that some message refers to, once each |
| `HookBus.HookBus.RegisterHook` | box_agent/hook_bus.py:154-190 | Registers or refuses with the first failing check |
| `HookBus.HookBus.Freeze` | box_agent/hook_bus.py:192-203 | Builds the index once; freezing again changes nothing, and a closing bus cannot be frozen |
| `HookRegistry.FreezesOnce` | box_agent/hook_bus.py:192-203 | A registering bus becomes ready with its index, once; a new bus is registering |
| `HookBus.IndexIsExact` | box_agent/hook_bus.py:192-222 | While dispatching each index list holds exactly the matching registrations, each once, by priority and then registration |
| `HookBus.ReadyIsFrozen` | box_agent/hook_bus.py:518-524 | While dispatching no registration is added or undone |
| `HookRegistry.TakenIffFaultless` | box_agent/hook_bus.py:154-190 | A registration is taken under the next number if and only if it has none of seven faults, and otherwise refused for the first of them |
| `HookRegistry.CalledInOrder` | box_agent/hook_bus.py:192-222 | A frozen bus calls for an event exactly the registrations of that kind for it, by priority and then by number |
| `HookRegistry.UndoneExactly` | box_agent/hook_bus.py:518-524 | Undoing takes exactly that registration out, keeps the others in order, and is refused while the bus is frozen or closed |
| `HookBus.HookBus.BeforeTool` | box_agent/hook_bus.py:395-424 | Raises unless the bus is ready and the request fits it; otherwise the loop computes the chain over the index list, calling handlers as the chain says; a legacy callback that fails or returns nothing passes on the arguments as it leaves them |
| `HookBus.HookBus.AfterTool` | box_agent/hook_bus.py:435-473 | Raises unless the bus is ready and the request fits it; otherwise the loop computes the text chain over the index list |
| `HookBus.ChainEndsAtFirst` | box_agent/hook_bus.py:401-422 | The chain is a left fold that stops at the first handler ending it; exactly the handlers up to that one are called |
| `HookBus.FailureDenies` | box_agent/hook_bus.py:409-420 | A failing new-style handler always denies, and nothing after it runs |
| `HookBus.LegacyFailureIsSkipped` | box_agent/hook_bus.py:409-414 | A legacy callback that fails or returns nothing, and leaves its arguments alone, is as good as absent |
| `HookBus.SkippedIffLeftAlone` | box_agent/hook_bus.py:401-414 | A callback that fails or returns nothing is as good as absent, wherever it stands and for all arguments, if and only if it leaves its arguments alone |
| `HookBus.FailuresVanishIff` | box_agent/hook_bus.py:401-414 | For all handlers and arguments a list resolves with all its legacy callbacks failing as it does without them, if and only if it holds no legacy callback |
| `HookBus.FailedLegacyChangesArguments` | box_agent/hook_bus.py:401-414 | One legacy callback changes the arguments and fails: the tool is called with the changed arguments |
| `HookBus.DeniedExactly` | box_agent/hook_bus.py:388-424 | A call is denied if and only if a new-style handler that is reached denies or fails: with the reason and code of the first such, its id and source, and exactly the handlers up to it called |
| `HookBus.AllowedExactly` | box_agent/hook_bus.py:388-424 | It is allowed if and only if every handler is reached and hands arguments on, and then with what the last one hands on |
| `HookBus.RaisedExactly` | box_agent/hook_bus.py:401-424 | It raises if and only if a handler that is reached is interrupted |
| `HookBus.SuppressedExactly` | box_agent/hook_bus.py:426-470 | A result is suppressed if and only if a listening new-style handler that is reached suppresses or fails; only the notice is delivered, and exactly the listening handlers up to it ran |
| `HookBus.DeliveredExactly` | box_agent/hook_bus.py:426-473 | It is delivered if and only if no handler ends the chain, as the last listening one leaves it, and raises if and only if a handler that hears of it is interrupted |
| `HookBus.LastReplacementIsDelivered` | box_agent/hook_bus.py:426-473 | The last replacement is what is delivered, unless a legacy callback listens after it |
| `HookBus.ModifiedIffReplaced` | box_agent/hook_bus.py:457-472 | A delivered result counts as modified if and only if some new-style handler was called and replaced the text it was given |
| `HookBus.UnmodifiedIsUnchanged` | box_agent/hook_bus.py:445-472 | Without listening legacy callbacks an unmodified result carries the original text |
| `HookBus.FlagIsSoundIff` | box_agent/hook_bus.py:445-472 | An unmodified result carries the original text for all texts and handlers if and only if no legacy callback listens to it |
| `HookBus.LegacyChangesUnnoticed` | box_agent/hook_bus.py:457-460 | One legacy callback delivers another text that counts as unmodified |
| `HookBus.HookBus.UnregisterHook` | box_agent/hook_bus.py:518-524 | Undoes a registration, except while dispatching or closed |
| `HookBus.HookBus.CloseBus` | box_agent/hook_bus.py:545-557 | Disposes the tokens last first and closes |
| `HookBus.CloseEmpties` | box_agent/hook_bus.py:545-557 | Closing empties the registry from every reachable state |
| `ConnectorContext.AppendConnectorStatus` | box_agent/connector_context.py:44-57 | Appends the snapshot exactly when the state is first or differs from the last one |
| `SnapshotRules.SaysByLines` | box_agent/connector_context.py:17-22 | A snapshot says what its stripped lines say, without blank lines and markers, in any order |
| `SnapshotRules.AppendedExactly` | box_agent/connector_context.py:25-27 | The appended text, character by character |
| `SnapshotRules.StatusAppendedIff` | box_agent/connector_context.py:44-57 | The snapshot is appended if and only if it is not empty and says something else than the last message that carries one, with the notice if there is such a message |
| `ConnectorContext.CollectRuns` | box_agent/connector_context.py:79-86 | The loop collects the runs of unchanged state |
| `ConnectorContext.RestoreConnectorStatus` | box_agent/connector_context.py:68-101 | The result puts the snapshot into the first message of exactly the runs that no longer show it |
| `SnapshotRules.PutBackIffLost` | box_agent/connector_context.py:68-101 | The snapshot is put back exactly where a state begins that none of its messages shows; every other message stays |
| `ConnectorContext.RestoringRuns` | box_agent/connector_context.py:79-101 | Looking after the collected runs is the pointwise definition by run starts |
| `ConnectorContext.EveryRunIsVisible` | box_agent/connector_context.py:88-101 | After restoring every run shows its state |
| `ConnectorContext.RestoreIsIdempotent` | box_agent/connector_context.py:68-101 | Restoring a restored history changes nothing |
| `ConnectorContext.LastShownIsCurrent` | box_agent/connector_context.py:68-101 | The last snapshot shown is the current state |
| `ConnectorContext.BuiltIsFixed` | box_agent/connector_context.py:44-101 | A history built through the append function needs no repair |
| `ConnectorContext.PrefixIsStableIff` | box_agent/connector_context.py:68-101 | Adding a turn keeps what was already sent if and only if the turn does not itself show the unchanged state that had to be put back |
| `ConnectorContext.SentPrefixChanges` | box_agent/connector_context.py:68-101 | A two-message history whose first message is sent with the snapshot before the second turn and without it after |
| `ConnectorContext.NewTurnsKeepThePrefix` | box_agent/connector_context.py:68-101 | A turn that does not contain its snapshot, or changes the state, keeps the prefix |
| `Correction.CorrectionCurator.ObserveResult` | box_agent/correction.py:226-285 | One observation: prunes by the window, notes repairs, records a failure or issues a receipt |
| `Correction.CorrectionCurator.FailureSeen` | box_agent/correction.py:257-268 | Stores a new failure of its key, keeping the last ones needed and dropping the oldest keys past the bound |
| `Correction.CorrectionCurator.SuccessSeen` | box_agent/correction.py:269-285 | Issues a receipt for the most recently failing eligible operation and forgets its failures |
| `Correction.CorrectionCurator.FindVerification` | box_agent/correction.py:287-299 | Looks a receipt up: missing or expired, other failure, other subject, or the first matching subject |
| `CorrectionLaws.ReceiptsNeedFailures` | box_agent/correction.py:226-285 | Over every trace the stored failures are failing calls of it, lists are non-empty, the tables stay within 128 entries, every receipt is earned by earlier calls, and receipts times the repeat count never exceed the failing calls |
| `CorrectionLaws.EligibleIsEarned` | box_agent/correction.py:269-279 | What makes a key eligible earns the receipt: the repeat count of earlier in-window failing calls of one key and operation, and a call that differs from the last of them or follows an edit of an anchored file |
| `CorrectionLaws.NoFailureBacksTwoReceipts` | box_agent/correction.py:269-285 | Over every trace the failures behind two receipts are different calls of the trace, each of the scope, subject and fingerprint of its receipt |
| `CorrectionLaws.ReceiptIffEligible` | box_agent/correction.py:269-279 | A success earns a receipt if and only if an operation is eligible, and then for the one that failed last |
| `CorrectionRules.FailureStored` | box_agent/correction.py:226-268 | In every reachable state a failing call that counts is stored with the failures of its key that are in the window, the last few of them; other keys keep theirs unless a full table forgets the oldest |
| `CorrectionRules.QuietCall` | box_agent/correction.py:226-256 | Any other failing call only lets old failures go |
| `CorrectionRules.EditsRemembered` | box_agent/correction.py:236-246 | A successful edit is remembered with its time |
| `CorrectionRules.EarnedIffEntitled` | box_agent/correction.py:269-285 | In every reachable state a successful call earns a receipt if and only if enough failures of its own operation by other calls stand in the window and the call or an anchored file changed since; then the latest such key is used up and the evidence stored |
| `CorrectionRules.LookupIff` | box_agent/correction.py:287-299 | A lookup is answered by the stored evidence in the window for the same failure, and accepts the first subject that fulfils what is wanted |
| `CorrectionLaws.AcceptedReceiptIsEarned` | box_agent/correction.py:287-299 | An accepted receipt was issued inside the window to a call of the trace by a matching subject, and rests on the repeat count of earlier failing calls with this fingerprint and that operation |
| `CorrectionLaws.RunKeepsInv` | box_agent/correction.py:226-285 | Every trace keeps the accounting: stored failures, repairs and receipts come from its calls, each failure is held or used once |
| `LoopGuards.RepeatedStreamPattern` | box_agent/loop_guards.py:107-127 | The search with the fixed limits computes the detector |
| `LoopGuards.DetectExact` | box_agent/loop_guards.py:107-127 | A pattern is reported if and only if some admissible length has one, and then that of the least such length |
| `LoopGuards.StreamLoopIff` | box_agent/loop_guards.py:99-127 | The stream is stopped if and only if its last 4096 characters, white space left out, end in eight repeats of 4 to 80 characters with a letter or digit and two different characters, and the shortest such is reported |
| `LoopGuards.PatternIsPrimitive` | box_agent/loop_guards.py:111-126 | The reported pattern is never two or more repeats of a word of at least the shortest admissible length |
| `Ordering.SortSorts` | box_agent/memory_maintainer.py:269-272 | The sort used for every sorted() call orders by the key |
| `Ordering.SortStable` | box_agent/image_context.py:172-174 | Items with equal keys keep their order |

## Left out

- Files, network, terminal, model calls, prompts, logging, the decoding of JSON text and the stripping of code fences: decoded values and read results are inputs.
- The on-disk layout of the memory stores (topics, backups of compaction) and failures of reading or writing them: a store is a sequence that is read and written at once.
- Floating-point rounding: similarity, thresholds and confidence are real numbers. Time stamps are integers; how a stamp text reads is a function parameter, with the fallback to "now" modelled.
- The model calls that arbitrate conflicts, the order and cap of the clusters they are asked about (`box_agent/memory_maintainer.py:655-704`) and the size limits that start a compaction (401-411): clusters and replies are inputs.
- Compaction.HitsBalance: assumes distinct ids in the current store; with repeated ids the dictionary by id hides entries and the balance says nothing about them.
- Maintenance.DecisionsCurrentIff: assumes distinct ids within the snapshot and within the store, as do `Maintenance.CommittedIffUnedited` and `Compaction.SnapshotCurrentIff`; with repeated ids the last entry of an id is the one compared.
- MemoryRuns.RunKeepsCorrections: assumes that no correction shares its id with an ordinary entry and that new entries get unused ids, which the program's random ids make likely but nothing checks; edits of corrections themselves are not modelled.
- Timeouts of `wait_for` around a publish: a waiting publisher may give up at any suspension point, as a nondeterministic step.
- Several publishers on one channel: only the holder of the publish lock is modelled, with one getter, as the run handle uses it. The size of an encoded event is an input, absent when it cannot be encoded.
- The payload, usage and artifacts of a run's result, the permission broker of a run handle and the notes on exceptions.
- AgentSession.ReachableInv: assumes that a task that has ended is not executing inside the stream, and that `aclose` is not called by whichever asyncio task is; the closing of plug-ins and runtime is one step.
- Injections.ReachableInv: assumes one apply at a time, no new run scope while an apply is awaited, and a history that is only appended to meanwhile.
- Parsing of queued injection items and the computation of fingerprints: an item carries its id and fingerprint.
- `ContextResources`: the hash is a function parameter; the order in which reconciling reports stale ids, and the receipt and placeholder texts.
- ContextResources.SelectedAreVerbatim: for equal text it needs an injective hash; without it equality of hashes is what the program checks.
- The image store, the registration of new images (`box_agent/image_context.py:78-127`), the session log and the manifest; width, height and hashes of an image. A file's readability and size are a function of the image id, and the provider's preflight a function of the request.
- The order and wording of image notices.
- `ImageObjects`: preparing writes the new values back to the objects once it is done, not one by one; nothing else runs in between.
- ImageRules.FateOfCandidate: assumes that no two images of a session share an id, as the other laws about what becomes of single images do.
- ImageLaws.RetiredForGood: assumes that image ids are not issued twice.
- The leases, deadlines, running tasks, late durability errors and draining of the hook bus, and observers: handlers are functions of their number and the current value, and an interruption ends a chain.
- HookBus.HookBus.BeforeTool: arguments are JSON data that only the callback being called can change; a legacy callback that leaves or returns other data, on which the next snapshot raises, or that keeps the dictionary and changes it later, is not modelled.
- HookBus.LegacyFailureIsSkipped: demands that the callback leaves its arguments alone, without which it does not hold (`HookBus.FailedLegacyChangesArguments`).
- The exception fallbacks of the connector functions, which guard against malformed types.
- The regular expressions, argument hashing and shell splitting of `box_agent/correction.py`: whether a text is forbidden, the operation key, its file anchors, the digest and the fingerprint are inputs; receipts are numbered instead of random. `observe_failure` is not modelled.
- CorrectionLaws.ReceiptsNeedFailures: assumes a repeat count of at least one, as the default of two is; so do the laws of `CorrectionRules`.
- `LoopGuards`: which characters are white space or alphanumeric is a parameter.
