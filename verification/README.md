# Verified models of the repo-map tools

A Dafny model of the protocols in `tools/` that have the most state, and proofs about them. Each
theorem is stated for every input, every run or every interleaving. Check the project with
`dafny verify dfyconfig.toml`.

| files | what they model |
|---|---|
| `JsonText`, `StreamingGuard`, `GuardTheorems`, `GuardBytes`, `GuardVerdict`, `GuardPosition`, `BoundedReader` | the byte-by-byte JSON guard, what it decides about arbitrary bytes and about whole documents, and the bounded response reader |
| `ReceiptProtocol`, `ReceiptReading`, `ReceiptReconcile`, `ReceiptCustody`, `ReceiptExample`, `ShardNames` | custody of child coverage receipts: children that race to create markers, and the parent that reads, reconciles and combines |
| `Thresholds`, `ThresholdRecord`, `ThresholdMonitor` | incremental threshold monitoring against direct definitions over the sample history |
| `OptionalPopulation`, `Population`, `PairedLegs`, `LegEvidence` | sealing a test population, reconstructing it from exclusion records, and running its measured and abrupt legs |
| `EventPump`, `Startup`, `Causality` | concurrency of the supervised refresh: event pump, pipe-gated startup, failure ledger |
| `CommandGuard`, `CommandDispatch`, `AptInstall`, `AptSyntax` | the command guard of the libpq probe and the package installation it guards |
| `RssMonitor`, `SpoolSlice` | the process memory monitor and slicing of a forward-only spool |
| `Wrappers`, `Sequences`, `Strings`, `Decimals`, `Alphabets` | shared datatypes and lemmas |

Objects that the source updates in place are classes, and loops are loops; each such method is
proved against a specification function, and the theorems are about those functions; where a check
of the code is a predicate, some theorem says what it means without using it. Protocols
between processes or threads are state machines whose steps are the source's atomic actions: a
disabled step changes nothing, so every sequence of steps is a run. Clocks, readers, file contents,
exit codes, package managers and the calls pytest makes are parameters of which nothing is assumed.

## Where the code does less than it appears to

Each of these is kept as the code has it, shown on a concrete input and given its exact condition.

- JSON guard (`GuardBytes.OutermostBracket`, `GuardBytes.StraySquareBracket`): brackets are matched only
  below the outermost level, where a closing square bracket is skipped like a literal; the strict
  parse of the body comes later.
- Shard attribution (`ReceiptCustody.AttributionOfShards`, `ReceiptCustody.MeasuredChildGood`,
  `ReceiptExample.ForeignShardConsumed`): a child without a token is recorded with the empty token,
  and every shard name starts with a dot and so has an empty part; the attribution test then accepts
  any shard of the directory.
- Invalidation (`ReceiptProtocol.InvalidationExact`, `ReceiptExample.AbandonedInvalidationAccepted`): the
  flag is set before the files are written, so a child that dies in between keeps a complete receipt
  and is accepted as settled.
- Startup gate (`Startup.FailedFirstIff`, `Startup.AnotherTokenIff`, `Startup.ClosedAtMostOnce`,
  `Startup.RaisedFailStillReleases`, `Startup.RaisedReleaseWritesTwice`): a descriptor whose close
  raises stays recorded as held and the state does not change, so the gate can still be released,
  the descriptor closed twice, or the token written twice while the child or the parent still has a
  read end open.
- Leg verdict (`PairedLegs.CountingVerdict`, `PairedLegs.ForeignReportPasses`): a leg is passed by
  counting records, and the recording plugin does not check that a report names a node of the leg.
- Failure text (`LegEvidence.RecordsMean`, `LegEvidence.HiddenFailureText`): when the first failure of a
  test has no text and an earlier report left one, that earlier text stays and later ones are dropped.
- Causality ledger (`Causality.FreshNumberIff`, `Causality.TakenKeyBlocks`,
  `Causality.ExplicitKeyCollides`): an explicit key of the form of the next automatic one makes
  every later exception take an older candidate or fail.
- Command guard (`CommandGuard.SpentBy`, `CommandGuard.SpentForever`,
  `CommandGuard.EarlyDownloadNeverDispatched`): a download refused for its position still fixes the
  pins, after which no download can be dispatched.
- Installation (`AptInstall.InstallExactIff`, `AptInstall.OneOfTwoVersionsAdded`): expected
  additions are keyed by name and architecture, so of two planned versions only one must appear.
- Deferred order (`Population.SealedIsValid`, `Population.DisorderedDeferral`): re-validation fails for
  a deferred list that is not in collection order, although every earlier check passes.

## Assumptions

- Registration tokens are not made of digits only, so a token's markers are never read as those of
  a process number. The parent's read sees one state of the marker directory.
- Rewriting one receipt through its open handle is one step. Creating a start marker and writing its
  text are two.
- A name in a directory holds no slash, and the resolved path of a file that is no link is the
  directory's path, a slash and its name.
- That pytest runs its hooks only for items of the session is a condition of
  `PairedLegs.PairedCoverage` and of the last results of `PairedLegs.RunLeg` and
  `PairedLegs.ExecuteLegs`; the others hold for any calls.
- JSON string decoding and SHA-256 are arbitrary functions. Package names contain no colon.
- The child of the startup gate has its read descriptor from the start, and no other process inherits
  an end of the pipe.
- The signal callback of the memory monitor returns.
- Floating-point timestamps and durations are real numbers.

## Model

| member | source | states |
|---|---|---|
| StreamingGuard.StreamingJsonGuard.constructor | tools/_retrieval_inventory_transport.py:189-195 | a fresh guard is the initial state of the byte automaton |
| StreamingGuard.StreamingJsonGuard.Feed | tools/_retrieval_inventory_transport.py:206-280 | one byte changes the fields exactly as the byte automaton does, refused or not; an accepted byte keeps the invariant |
| StreamingGuard.StepKeepsInv | tools/_retrieval_inventory_transport.py:206-280 | every accepted byte of arbitrary input keeps the guard's invariant: stack shape, flags, count within the cap |
| GuardBytes.FirstFaultStops | tools/_retrieval_inventory_transport.py:186-280 | on every byte sequence, document or not, the guard stops at the first fault of a reading of the text that keeps no flags, with its reason; until then every field is what that reading says |
| GuardBytes.AcceptedExactly | tools/_retrieval_inventory_transport.py:206-280 | a text is accepted and closed if and only if it has no fault and its brackets and quotes say that the object has ended |
| GuardBytes.AcceptedIsObject | tools/_retrieval_inventory_transport.py:206-216 | every accepted text is blanks, a brace, the text up to the one brace that closes the object, and blanks |
| GuardBytes.AfterClose | tools/_retrieval_inventory_transport.py:207-210 | after the close blanks are accepted, and the first byte that is not blank is refused there as malformed |
| GuardBytes.FirstByte | tools/_retrieval_inventory_transport.py:211-216 | the first byte that is not blank is accepted if it is a brace and refused there as no object otherwise |
| GuardBytes.ControlByte | tools/_retrieval_inventory_transport.py:217-230 | a raw control byte in a string is refused there unless a backslash escapes it |
| GuardBytes.ClosingBracket | tools/_retrieval_inventory_transport.py:258-280 | below the outermost level a closing bracket is refused if and only if it does not match, or follows a comma in the tree array |
| GuardBytes.OutermostBracket | tools/_retrieval_inventory_transport.py:234-257 | at the outermost level a closing square bracket is refused if and only if the array of `tree` must begin there |
| GuardBytes.StraySquareBracket | tools/_retrieval_inventory_transport.py:234-257 | the three bytes of an object with a stray closing square bracket, accepted |
| GuardBytes.EntriesAlternate | tools/_retrieval_inventory_transport.py:258-273 | entries and commas of tree arrays alternate in every accepted text, and the count is the number of entries begun |
| GuardTheorems.FeedConcat | tools/_retrieval_inventory_transport.py:206-280 | feeding a concatenation is feeding its parts in turn, and a refusal is final |
| GuardTheorems.StopPosition | tools/_retrieval_inventory_transport.py:206-280 | a refusal has an exact position: every byte before it was accepted |
| GuardTheorems.NeverPastCap | tools/_retrieval_inventory_transport.py:258-273 | on arbitrary bytes the entry count never exceeds the cap, refused or not |
| GuardTheorems.FeedNestedValue | tools/_retrieval_inventory_transport.py:234-280 | below the top level any value whatever is skipped without trace if its nesting fits, and refused for depth if not |
| GuardTheorems.FeedNestedItems | tools/_retrieval_inventory_transport.py:234-280 | the same for the items of a container, by mutual induction over the document |
| GuardVerdict.MembersJudged | tools/_retrieval_inventory_transport.py:197-280 | the structural verdict accepts exactly the admissible member lists: distinct names within 256 bytes, nesting within 24, an array of at most cap objects under `tree` |
| GuardVerdict.GuardVerdictOnDocument | tools/_retrieval_inventory_transport.py:186-280 | on every printed document, with any blanks, the byte automaton gives the verdict of the document's structure, with the same reason and count |
| GuardVerdict.GuardDecidesAdmissible | tools/_retrieval_inventory_transport.py:186-280 | the guard accepts every byte and ends closed if and only if the document is admissible, and then its count is the length of the tree array |
| GuardVerdict.CountIsTreeLength | tools/_retrieval_inventory_transport.py:258-273 | the count the structural reference gives is the exact length of the one `tree` array |
| GuardVerdict.CapRefusalPosition | tools/_retrieval_inventory_transport.py:264-271 | for every cap, also 0, a document whose only fault is too many entries is refused for the cap, with every earlier byte accepted and exactly cap entries counted and closed |
| GuardPosition.CapRefusalInDocument | tools/_retrieval_inventory_transport.py:258-273 | for a cap of at least 1 the accepted text is exactly the document up to the end of entry number cap, and the unread text is the rest of the document, which starts with the comma after that entry |
| BoundedReader.ReadBoundedResponse | tools/_retrieval_inventory_transport.py:295-333 | against an arbitrary sequence of replies: success exactly when a returnable body exists, which is returned; at most byte_cap reads; a refusal says where the reading stood and what was wrong there |
| BoundedReader.OnlyTheBodyReturned | tools/_retrieval_inventory_transport.py:311-333 | the replies and the cap determine the body that can be returned |
| BoundedReader.ReturnedIsObject | tools/_retrieval_inventory_transport.py:295-333 | whatever the bytes, a returned body is one object in blanks, closed once |
| BoundedReader.DocumentReturned | tools/_retrieval_inventory_transport.py:186-333 | a printed document is returned if and only if it is admissible and its length is the declared one, or below the cap with none declared |
| Thresholds.FirstCrossingTiming | tools/scale11_threshold_incremental.py:93-118 | on accepted histories the least crossing is before cancellation if and only if some crossing is |
| Thresholds.PrimaryUnique | tools/scale11_threshold_incremental.py:144-161 | the order on timestamp, sample, priority and category leaves one primary metric |
| ThresholdRecord.PrimaryIff | tools/scale11_threshold_incremental.py:144-161 | a metric is primary if and only if its reading is past its limit at the first running sample where any is, and it has the smallest priority, then the first name, of those that are; none is primary if and only if no running sample has a reading past a limit |
| Strings.FirstDifference | tools/scale11_threshold_incremental.py:151-160 | strings are ordered by the first character where they part, a string that ends there first |
| Thresholds.PrimaryStable | tools/scale11_threshold_incremental.py:144-161 | the primary metric of an accepted history is the primary metric of every longer one |
| Thresholds.NoStopAfterCancellation | tools/scale11_threshold_incremental.py:224-244 | a history that enters cancellation without a stop never acquires one |
| ThresholdRecord.FoldSnoc | tools/scale11_threshold_incremental.py:48-118 | feeding one more sample is one step of the record |
| ThresholdRecord.FoldMaxima | tools/scale11_threshold_incremental.py:48-118 | each maximum is attained in its window and bounds it; the terminal value is the last terminal reading |
| ThresholdRecord.FoldCounter | tools/scale11_threshold_incremental.py:48-118 | a counter is marked reset if and only if two successive observed values decrease |
| ThresholdRecord.FoldCounts | tools/scale11_threshold_incremental.py:48-118 | observed and missing samples are counted exactly and add up to all samples |
| ThresholdRecord.FoldCrossing | tools/scale11_threshold_incremental.py:48-118 | the recorded crossing is the least crossing index with that sample's data; the flags say whether any ever crossed |
| ThresholdRecord.CrossingIsPastLimit | tools/scale11_threshold_incremental.py:93-118 | the recorded crossing is the first reading above an upper or below a lower limit, with its value and time, and there is none if and only if every reading is within the limit |
| ThresholdRecord.MaximumDecides | tools/scale11_threshold_incremental.py:63-98 | for an upper bound nothing crossed if and only if the recorded maximum, which is the largest reading, is at most the limit |
| ThresholdRecord.PartialMaxima | tools/scale11_threshold_incremental.py:67-83 | the maxima before cancellation and of terminal samples are the largest readings of those samples |
| ThresholdRecord.TimingAgrees | tools/scale11_threshold_incremental.py:120-141 | the reported timing is before cancellation if and only if the before-cancellation flag holds |
| ThresholdMonitor.MetricState.Observe | tools/scale11_threshold_incremental.py:48-118 | the in-place update is the step of the record, hence the direct definitions over the history |
| ThresholdMonitor.IncrementalThresholdMonitor.constructor | tools/scale11_threshold_incremental.py:167-187 | a monitor starts valid, with an empty history, for valid specifications |
| ThresholdMonitor.IncrementalThresholdMonitor.PrimaryStop | tools/scale11_threshold_incremental.py:144-161 | the loop finds the metric with the least key, or none if none stops |
| ThresholdMonitor.IncrementalThresholdMonitor.Observe | tools/scale11_threshold_incremental.py:200-246 | a rejected sample changes nothing; an accepted one extends the history, keeps every state equal to its direct definition, and never changes a stop already selected |
| ThresholdMonitor.RejectionMeans | tools/scale11_threshold_incremental.py:200-229 | when a sample is rejected and for which reason, in the order of the checks |
| ThresholdMonitor.OperationMeans | tools/scale11_threshold_models.py:11-11 | an operation is valid if and only if it is 1 to 128 characters of its alphabet, the first a lower-case letter |
| ThresholdMonitor.IncrementalThresholdMonitor.SelectActionableStop | tools/scale11_threshold_incremental.py:291-307 | the stop selected online is the primary stop of the whole history; once set it stands, and cancellation lets none appear |
| ThresholdMonitor.IncrementalThresholdMonitor.MarkCancellationStarted | tools/scale11_threshold_incremental.py:248-259 | an offset before the last sample is refused and changes nothing; otherwise cancellation is latched |
| ThresholdMonitor.IncrementalThresholdMonitor.LegacyCategory | tools/scale11_threshold_incremental.py:261-289 | recomputing the argmin over the final states gives the category recorded online |
| ThresholdMonitor.StopStable | tools/scale11_threshold_incremental.py:291-307 | an actionable stop names the primary metric of every longer accepted history, with the same data |
| ThresholdMonitor.StopMeans | tools/scale11_threshold_incremental.py:291-307 | the stop is the metric that wins at the first sample with a reading past a limit, with that reading, its time and, where the sample is exact, its operation |
| ThresholdMonitor.EvaluateThresholds | tools/scale11_threshold_evaluator.py:45-73 | the batch entry point succeeds exactly on valid specifications and samples; the metric it reports wins at the first running sample with a reading past a limit, and it reports none only if there is no such sample |
| OptionalPopulation.RebuildRestores | tools/runner_staging_discovery_contract.py:148-155 | for any raw list and any excluded set, reinserting the enumerated exclusions gives the raw list back |
| OptionalPopulation.PyInsertMeans | tools/runner_staging_discovery_contract.py:148-155 | where an insertion puts its element, for every index, negative and clamped ones too |
| OptionalPopulation.ClampedAppends | tools/runner_staging_discovery_contract.py:148-155 | from the first clamped insertion on, every insertion appends |
| OptionalPopulation.ReconcilesIffRaw | tools/runner_staging_discovery_contract.py:132-155 | the parent's comparison holds if and only if a raw list exists from which exactly this record and this collected list were made |
| OptionalPopulation.ValidateOptionalPopulation | tools/runner_staging_discovery_contract.py:132-155 | the reinsertion loop accepts exactly such records and returns the rebuilt list |
| OptionalPopulation.ChildRecordRoundTrip | tools/runner_staging_discovery_child.py:57-67 | what the child writes makes the parent accept and rebuild the child's raw list |
| Population.SealedIsValid | tools/runner_integration_population.py:73-106 | of the final re-validation only the order of the deferred list can still fail |
| Population.DeferredOrderDecides | tools/runner_integration_population.py:73-106 | of distinct nodes on a scoped run, the order of the deferred list alone decides, and the error is the re-validation's |
| Population.DisorderedDeferral | tools/runner_integration_population.py:73-106 | a concrete deferred list out of order that passes every earlier check |
| Population.PartitionSuccess | tools/runner_integration_population.py:114-182 | the population is sealed if and only if the inputs are sealable; then declared nodes are in the abrupt leg, other nodes that are not deferred in the measured leg, and deferred ones in neither |
| Population.PartitionRefusal | tools/runner_integration_population.py:123-182 | each refusal names a broken rule, and every rule tested before it holds |
| Population.PartitionConserves | tools/runner_integration_population.py:114-182 | the rebuilt raw collection is the disjoint union of measured, abrupt, deferred and optional nodes, and the counts add up |
| Population.OrderOfParts | tools/runner_integration_population.py:73-106 | each of the four lists is in raw collection order |
| Population.AcceptDiscovery | tools/runner_staging_discovery.py:127-133 | a discovery is accepted if and only if its record has a raw collection, its population is sealable and its exclusions are registered; then every node is in the leg it was declared for and the population is conserved; otherwise the refusal names the reason |
| PairedLegs.RecordingPlugin.AddRecord | tools/runner_unit_environment.py:175-208 | one record per node; a node is recorded failed if and only if some report of it failed; a failure merges durations and keeps the first failure text |
| PairedLegs.RecordingPlugin.RuntestProtocol | tools/runner_integration_population.py:249-254 | a node runs once in a leg; a second start raises and changes nothing |
| PairedLegs.RecordingPlugin.LogReport | tools/runner_integration_population.py:256-267 | teardown completes a node once, and a failed teardown is remembered |
| PairedLegs.AbruptLaunch.Launched | tools/runner_abrupt_evidence.py:27-33 | a launch gets one positive process number |
| PairedLegs.AbruptLaunch.ObservedCheckpoint | tools/runner_abrupt_evidence.py:35-38 | only the declared checkpoint of a launched process is recorded |
| PairedLegs.AbruptRunnerContext.SelectTest | tools/runner_abrupt_evidence.py:79-82 | only nodes of the abrupt leg can be selected |
| PairedLegs.AbruptRunnerContext.Begin | tools/runner_abrupt_evidence.py:84-91 | exactly when a launch begins: once per node, for the selected node, in its declared role, with the source unchanged |
| PairedLegs.AbruptRunnerContext.Settle | tools/runner_abrupt_evidence.py:40-58 | exactly when a launch is settled: once per node, with a process, the declared checkpoint and return code, and proved cleanup |
| PairedLegs.SelectLeg | tools/runner_integration_population.py:342-372 | what the leg plugin selects is exactly the planned list, whenever it selects |
| PairedLegs.CountingVerdict | tools/runner_integration_execution.py:212-215 | equal counts mean one record per planned node if and only if every recorded node is planned |
| PairedLegs.RunLeg | tools/runner_integration_execution.py:203-215 | for any calls by pytest: what is recorded and run, exactly when the leg is safe and when it is passed; a passed leg has one record per planned node if and only if every recorded node is planned, which pytest's session promise gives; settled launches prove their declarations |
| LegEvidence.RecordsMean | tools/runner_unit_environment.py:157-207 | a node has one record if and only if some report leaves one; it is failed if and only if some report failed, lasts as long as its first report and its failures, and carries the text the merge rule leaves |
| LegEvidence.RecordOrder | tools/runner_unit_environment.py:175-207 | records stand in the order of the reports that first left them |
| LegEvidence.HiddenFailureText | tools/runner_unit_environment.py:181-188 | a failure without text after a skip with one: the text of a later failure is dropped |
| LegEvidence.ExecutedMeans | tools/runner_integration_population.py:249-254 | a node counts as executed if and only if pytest started it |
| LegEvidence.CompletedMeans | tools/runner_integration_population.py:256-267 | a node counts as completed if and only if its teardown was reported |
| LegEvidence.LaunchEvidence | tools/runner_abrupt_evidence.py:27-96 | for a settled launch the node was started and selected, the launch began in the declared role, the process was registered, the declared checkpoint seen and the launch settled with the declared return code, in this order |
| LegEvidence.ProvedLaunchSettles | tools/runner_abrupt_evidence.py:27-96 | those calls in a row, while the node is selected, settle its launch with exactly that record |
| PairedLegs.ForeignReportPasses | tools/runner_integration_execution.py:203-215 | without that promise, a leg that passes with no record of its planned node |
| PairedLegs.PairedCoverage | tools/runner_integration_execution.py:128-131 | when only planned nodes are recorded, none runs or is recorded twice across the legs, and two passed legs record each sealed node exactly once |
| PairedLegs.ExecuteLegs | tools/runner_integration_execution.py:127-217 | exactly when each leg runs: never after an unsafe leg or a changed source; both legs together cover each node once under pytest's session promise |
| ReceiptProtocol.StepKeepsInv | tools/runner_coverage_template.py:138-309 | every file system step of any child keeps the ownership of every marker and the explanation of its content |
| ReceiptProtocol.RunKeepsInv | tools/runner_coverage_template.py:138-309 | so does every interleaving of any number of children, with crashes and failing calls |
| ReceiptProtocol.OneRegistrant | tools/runner_coverage_template.py:149-170 | at most one process comes to hold all the files of a registration, for a token or for a process number |
| ReceiptProtocol.RegisteredHolds | tools/runner_coverage_template.py:149-170 | a child registers only when it holds every planned file |
| ReceiptProtocol.LoserStaysPending | tools/runner_coverage_template.py:149-170 | a child that created its start marker and never registered leaves it empty or pending in every run, and its exit marker empty |
| ReceiptProtocol.InvalidatedForever | tools/runner_coverage_template.py:235-309 | an invalidated receipt is never completed again by any child |
| ReceiptProtocol.InvalidationExact | tools/runner_coverage_template.py:263-277 | after a child began to invalidate, its receipt is complete at the end of any run if and only if it was complete at that point and no invalidating write reached it |
| ReceiptProtocol.WriteAnswers | tools/runner_coverage_template.py:238-309 | a write through an open handle leaves a complete receipt of the child with the given shard, error and measurement when settling or finishing, an incomplete one naming no shard when invalidating, and changes no other file; only settling keeps the handle |
| ReceiptProtocol.WriteFails | tools/runner_coverage_template.py:254-309 | a write that raises ends the operation and leaves the files; only finishing closes the handle all the same |
| ReceiptProtocol.BeginAnswers | tools/runner_coverage_template.py:238-284 | nothing begins before registration, and after an invalidation only another one |
| ReceiptProtocol.GivesUp | tools/runner_coverage_template.py:138-170 | registration is given up at a file that cannot be created, or before the first one without a directory |
| ReceiptReading.ReadNotes | tools/runner_coverage_receipts.py:26-66 | failure notes of both directories are collected, or refused on an identity mismatch |
| ReceiptReading.ReadRegisteredChildren | tools/runner_coverage_receipts.py:10-118 | reading succeeds if and only if no note and no unnoted start marker is refused, and gives exactly the registered children |
| ReceiptReading.ReadableIff | tools/runner_coverage_receipts.py:34-92 | a directory can be read if and only if every note and every start marker without a note has the expected identity, its own number and no foreign complete receipt |
| ReceiptReading.StartRefused | tools/runner_coverage_receipts.py:73-92 | why a start marker is refused: for a foreign identity first, then for a number not its own, then for a foreign complete receipt |
| ReceiptReading.ChildRead | tools/runner_coverage_receipts.py:82-117 | what is read of a child, in terms of its start marker, its receipt and its victim note |
| ReceiptReconcile.JudgeChild | tools/runner_coverage_receipts.py:224-369 | one child: stopped with the reason of its first failing check, counted as a victim, given its shard or passed, exactly by its duty, the shards taken and the victims counted |
| ReceiptReconcile.ReconcileChildManifests | tools/runner_coverage_receipts.py:182-369 | the loop succeeds if and only if every child is good alone, every owner is within its maximum and no measured child names an earlier child's shard; shards go to their first claimant |
| ReceiptCustody.Combine | tools/runner_coverage.py:321-365 | combine succeeds exactly when a combination exists, and returns it; a refusal names the child or file at fault |
| ReceiptCustody.CombineClassifies | tools/runner_coverage_receipts.py:224-369 | after a strict combine every registered child is exactly one of settled with the shard its own receipt names, auxiliary, or proved victim within its owner's maximum |
| ReceiptCustody.OpenChildGood | tools/runner_coverage_receipts.py:121-161 | a child that did not report passes if and only if its victim note agrees with its start marker, all three cleanups happened, the process is gone, the owner's first declaration has its role and permits the exit code, and it recorded no error |
| ReceiptCustody.VictimsAreUnsettled | tools/runner_coverage_receipts.py:157-161 | the victims counted against an owner's maximum are exactly its children that did not report |
| ReceiptCustody.CombineChecks | tools/runner_portable_coverage.py:283-287 | after a combine no coverage file is a link, every token is registered, and every coverage file was consumed or is the parent's |
| ReceiptCustody.NamedShard | tools/runner_coverage_receipts.py:299-302 | the shard a child names is its receipt's, or in a lenient run its shard file's first |
| ReceiptCustody.ParentShardMeans | tools/runner_coverage_receipts.py:311-315 | the names reserved for the parent: its data file, a name with `.parent.` in it, or its number between dots |
| ShardNames.BetweenDots | tools/runner_coverage_receipts.py:309-315 | a word stands between two dots of a name if and only if it is a part that is neither first nor last |
| ReceiptCustody.CombineConsumes | tools/runner_portable_coverage.py:283-287 | no shard goes to two children, and every shard file was consumed or is the parent's |
| ReceiptCustody.LoserRefused | tools/runner_coverage_receipts.py:93-98 | in every mode and every interleaving a losing child that left its start marker makes combine refuse, unless it is auxiliary or a verified victim |
| ReceiptCustody.SettledWasNeverInvalidated | tools/runner_coverage_template.py:238-309 | a settled child registered, and no invalidating write ever reached its receipt; if it had begun to invalidate, the receipt was complete before |
| ReceiptCustody.AttributionOfShards | tools/runner_coverage_receipts.py:316-321 | on the shards of a directory the attribution test means that the name carries the child's number or token, for a child with a token; for a child without one it accepts every shard |
| ReceiptCustody.MeasuredChildGood | tools/runner_coverage_receipts.py:299-330 | exactly when a measured child passes on its own, for children with and without a token |
| ReceiptCustody.ConsumedIdentity | tools/runner_coverage_receipts.py:322-330 | a consumed shard is the one its child names; it carries the child's identity if and only if the child has a token or the name holds its number |
| ReceiptExample.ForeignShardConsumed | tools/runner_coverage_receipts.py:316-330 | a whole run whose strict combine succeeds and lets process 8 consume the shard of process 7 |
| ReceiptExample.AbandonedInvalidationAccepted | tools/runner_coverage_template.py:263-277 | a whole run in which process 8 began to invalidate and died before the write, accepted as settled |
| EventPump.StepKeepsInv | tools/actual_refresh_event_pump.py:97-249 | every atomic step of the consumer or of a caller keeps the pump's invariant, also when the ledger entry or the handler of a failure raises |
| EventPump.FirstFailureStands | tools/actual_refresh_event_pump.py:192-207 | no step changes a recorded first failure |
| EventPump.PublishNeverRefused | tools/actual_refresh_event_pump.py:192-207 | in every interleaving the failure publish finds the queue empty |
| EventPump.OnlyTheFirstFailure | tools/actual_refresh_event_pump.py:97-207 | the first failure stays the same for ever, and only it is queued, raised or taken |
| EventPump.ReceiveAfterFailureRaises | tools/actual_refresh_event_pump.py:97-152 | a receive begun after the failure was recorded never waits on the queue and ends by raising that failure, and a take_failure ends by returning it, even if another caller took it from the queue |
| EventPump.TimesOutOnlyWithoutFailure | tools/actual_refresh_event_pump.py:107-113 | a receive that ended by timeout made its last check at a point of the run before which no failure was recorded |
| EventPump.NotificationsHaveFrames | tools/actual_refresh_event_pump.py:105-115 | over every run notifications and activity still queued are at most the frames taken in: notifications are coalesced, never invented |
| EventPump.QueueEmptied | tools/actual_refresh_event_pump.py:142-152 | only a caller's get or the failure publish takes an item out of the queue |
| EventPump.RecordedWasReceived | tools/actual_refresh_event_pump.py:160-207 | the first failure was received by the consumer, and a recorded end of file is one that was received |
| EventPump.PublishCompletes | tools/actual_refresh_event_pump.py:192-207 | an uninterrupted publish records and queues the failure; only one that is no end of file goes on to wait for one |
| EventPump.LateEofRecorded | tools/actual_refresh_event_pump.py:229-243 | a late end of file is recorded beside the first failure, and ends the thread |
| EventPump.ClosedIsQuiet | tools/actual_refresh_event_pump.py:160-179 | after a close that does not meet a publish nothing is recorded any more |
| EventPump.ThreadEnds | tools/actual_refresh_event_pump.py:160-243 | the steps at which the consumer thread ends, and no others |
| EventPump.ThreadGoesOn | tools/actual_refresh_event_pump.py:160-243 | while the pump is open, where each result of a receive leads |
| EventPump.ReceiveEnds | tools/actual_refresh_event_pump.py:97-115 | a receive that saw no failure ends by what it gets, or at its timeout by a second look at the failure |
| Startup.ActualRefreshStartup.Mark | tools/actual_refresh_startup.py:117-145 | each readiness mark leads from its state to the next, and raises elsewhere |
| Startup.ActualRefreshStartup.ChildStarted | tools/actual_refresh_startup.py:107-115 | the parent's copy of the child descriptor is closed, once |
| Startup.ActualRefreshStartup.Release | tools/actual_refresh_startup.py:147-165 | what release does to state and descriptors, for every result of the write and of each close |
| Startup.ActualRefreshStartup.Fail | tools/actual_refresh_startup.py:170-178 | what fail does, for every result of each close |
| Startup.ActualRefreshStartup.Close | tools/actual_refresh_startup.py:180-187 | what close does, for every result of each close |
| Startup.RunKeepsInv | tools/actual_refresh_startup.py:107-235 | every interleaving of the parent's system calls with the child's wait keeps the gate's invariant |
| Startup.StateMoves | tools/actual_refresh_startup.py:117-192 | a call moves the state only to the next readiness state, from the last one to released, from released to monitoring, or to failed or closed |
| Startup.MarkAnswers | tools/actual_refresh_startup.py:117-145 | a readiness mark raises if and only if the state is not the one it leads from, and touches no descriptor |
| Startup.ReleaseAnswers | tools/actual_refresh_startup.py:147-165 | a release out of turn does nothing; another one writes and closes, and ends released, failed or unchanged by the results of the write and the close |
| Startup.FailAnswers | tools/actual_refresh_startup.py:170-187 | a fail or close raises if and only if a close it reaches does; one that does not raise gives both descriptors up |
| Startup.ChildMoves | tools/actual_refresh_startup.py:200-235 | the child proceeds only by reading the token, waits on while nothing is there and a writer is left, and its wait ends once |
| Startup.ReleasedMeansToken | tools/actual_refresh_startup.py:147-168 | in every run a gate that says released or monitoring has passed all readiness states and written a token |
| Startup.ProceedsOnlyWhenReady | tools/actual_refresh_startup.py:147-165 | the child proceeds only after all five readiness states in order and a token, exactly one unless a close of the write descriptor raised |
| Startup.AnotherTokenIff | tools/actual_refresh_startup.py:107-235 | after any run another token can follow if and only if the state is before release, the write descriptor is held, the write end is open when the current call is done, and the child or the parent then has a read end open; after a first token only the last readiness state is before release |
| Startup.NoReaderNoToken | tools/actual_refresh_startup.py:107-235 | once the parent gave up its copy of the read descriptor and the child closed its own, no token follows |
| Startup.RaisedReleaseWritesTwice | tools/actual_refresh_startup.py:147-165 | a release whose close raises, repeated while the child waits: a second token |
| Startup.RaisedReleaseWithoutReader | tools/actual_refresh_startup.py:107-235 | the same release after an ordinary launch, once the child has read and closed: the gate is still open and no token can follow |
| Startup.ProceedsIff | tools/actual_refresh_startup.py:107-235 | after any run without a token some continuation lets the child proceed if and only if the child waits, the state is before release, the write descriptor is held and the write end is open when the current call is done |
| Startup.FailedFirstIff | tools/actual_refresh_startup.py:170-187 | after a fail or close some continuation lets the child proceed if and only if the call raised, the child waits, the state is before release, the write descriptor is held and the write end is open after the closes |
| Startup.RaisedFailStillReleases | tools/actual_refresh_startup.py:170-178 | a fail whose first close raises, followed by a release that lets the child proceed |
| Startup.RaisedFailMayStillShut | tools/actual_refresh_startup.py:170-178 | a fail that raises and after which nothing lets the child proceed |
| Startup.ClosedAtMostOnce | tools/actual_refresh_startup.py:107-197 | each descriptor is closed at most once if and only if no close raised, or one did and nothing closed it again |
| Causality.FailureCausalityAuthority.RecordSource | tools/actual_refresh_failure_causality.py:68-122 | recording changes the ledger exactly as `RecordCode` says |
| Causality.FailureCausalityAuthority.BindException | tools/actual_refresh_failure_causality.py:124-170 | binding an exception changes the ledger exactly as `RecordException` says |
| Causality.FailureCausalityAuthority.ObserveCandidate | tools/actual_refresh_failure_causality.py:203-219 | observing rewrites the entry and, by its loop, every exception bound to it |
| Causality.FailureCausalityAuthority.FreezeSnapshot | tools/actual_refresh_failure_causality.py:193-201 | the first freeze takes the entries; later ones return the same |
| Causality.RunKeepsInv | tools/actual_refresh_failure_causality.py:68-219 | every run keeps causal numbers equal to positions, keys distinct, observation numbers unique and without gaps, both indexes in agreement, and the snapshot equal to the entries |
| Causality.FailuresChangeNothing | tools/actual_refresh_failure_causality.py:68-219 | a call that fails leaves the whole ledger as it was |
| Causality.FrozenForever | tools/actual_refresh_failure_causality.py:193-229 | after a freeze no run changes anything |
| Causality.RunContinues | tools/actual_refresh_failure_causality.py:203-219 | no run reorders, alters or drops an entry or reassigns an observation number |
| Causality.RecordAnswers | tools/actual_refresh_failure_causality.py:60-122 | recording answers from the entry with the key if the request is the same, conflicts if it is not, and otherwise appends an unobserved entry under the next number |
| Causality.BindAnswers | tools/actual_refresh_failure_causality.py:124-169 | a bound exception is answered from its binding, a new one is recorded under the next key and bound |
| Causality.ObserveAnswers | tools/actual_refresh_failure_causality.py:196-216 | only an entry with this key and number is known; its first observation takes the next number, later ones repeat it |
| Causality.BindingStands | tools/actual_refresh_failure_causality.py:124-169 | through every run a bound exception keeps its candidate |
| Causality.LaterNumbersLarger | tools/actual_refresh_failure_causality.py:196-216 | an entry observed later has a larger observation number than all given before |
| Causality.FreshNumberIff | tools/actual_refresh_failure_causality.py:86-122 | a new exception gets a causal number of its own if and only if no entry already has its automatic key |
| Causality.UnnamedRunsStayFresh | tools/actual_refresh_failure_causality.py:86-122 | in a run that never names a key no automatic key is ever taken, so every new exception is numbered afresh |
| Causality.TakenKeyBlocks | tools/actual_refresh_failure_causality.py:86-122 | once the automatic key is taken, no run without explicit keys adds an entry again |
| Causality.ExplicitKeyCollides | tools/actual_refresh_failure_causality.py:86-122 | one explicit key after which a new exception is given the older candidate |
| Decimals.DecimalRoundTrip | tools/actual_refresh_failure_causality.py:86-86 | reading a decimal text back gives the number, so automatic keys of different numbers differ |
| CommandGuard.Guard.StepOf | tools/d12_libpq_runtime_probe.py:128-150 | classification of a command; a download shape fixes the pins before the order is checked |
| CommandGuard.Guard.Call | tools/d12_libpq_runtime_probe.py:115-127 | the whole effect of one call |
| CommandGuard.RunKeepsInv | tools/d12_libpq_runtime_probe.py:106-165 | every sequence of calls of an arbitrary caller keeps the guard's invariant |
| CommandGuard.DispatchedInOrder | tools/d12_libpq_runtime_probe.py:115-127 | the mutating commands dispatched are a prefix of update, simulate, download, install, mark, whatever execution did |
| CommandGuard.GateMeans | tools/d12_libpq_runtime_probe.py:151-165 | the gate passes if and only if the frozen manifest is this request's and selects the pins from the table, the package database is the baseline without the selected names, and the cache holds exactly the manifest's archives with the rows' digests |
| CommandDispatch.InstallWasGated | tools/d12_libpq_runtime_probe.py:115-165 | whenever an install was dispatched those conditions held, with the pins of the download |
| CommandDispatch.DispatchIff | tools/d12_libpq_runtime_probe.py:115-165 | after any run a command is dispatched if and only if it is the one that may come next, word for word, in a world that passes its gate |
| CommandDispatch.QueriedIff | tools/d12_libpq_runtime_probe.py:128-137 | a command runs uncounted if and only if it only reads, and then nothing changes; a refusal changes at most the pins |
| CommandDispatch.OrdinaryRunDispatched | tools/d12_libpq_runtime_probe.py:115-165 | in every world that passes the gate the helper's five commands are all dispatched |
| CommandDispatch.WholeRunDispatched | tools/d12_libpq_runtime_probe.py:115-165 | such a world: a library, one dependency, five commands |
| CommandGuard.InstallIsPinned | tools/d12_libpq_runtime_probe.py:88-165 | the whole argument vectors of download and install: prefix, mode, the holds set at the time, and the same pins, which are the frozen manifest's rows, a duplicate-free exact subset of the table |
| CommandGuard.InstallNamesHoldsAndRows | tools/d12_libpq_runtime_probe.py:115-165 | when the holds are set before the first mutating command, an install names exactly those holds and the manifest's rows |
| CommandDispatch.LateHoldsAreInstalled | tools/d12_libpq_runtime_probe.py:128-147 | holds changed after the download are carried into the install |
| CommandGuard.MarkFollowsInstall | tools/d12_libpq_runtime_probe.py:113-127 | marking follows an install that exited 0 and names exactly the sorted dependencies |
| CommandGuard.SpentBy | tools/d12_libpq_runtime_probe.py:141-145 | exactly which refused call spends the pins: a download shape before its turn |
| CommandGuard.SpentForever | tools/d12_libpq_runtime_probe.py:141-145 | after that no download, install or mark is ever dispatched |
| CommandGuard.EarlyDownloadNeverDispatched | tools/d12_libpq_runtime_probe.py:128-150 | a concrete run: a download before its turn, then update and simulate, then the same download refused |
| AptInstall.Plan | tools/native_apt_prerequisites.py:156-187 | the simulation is accepted if and only if it is a pure addition that configures what it installs; the result is that set in ascending order |
| AptInstall.Bind | tools/native_apt_prerequisites.py:190-229 | every selection is bound to its one trusted digest and size, all distinct, no index file shared, or refused when that is impossible |
| AptSyntax.NamesMean | tools/native_apt_prerequisites.py:27-29 | a name or architecture is valid if and only if it is long enough, starts with a letter or digit and is over its alphabet |
| AptSyntax.VersionsMean | tools/native_apt_prerequisites.py:28-28 | a version is valid if and only if it starts with a digit and is over its alphabet, after an epoch of digits and a colon if it has one |
| AptSyntax.DigestsMean | tools/native_apt_prerequisites.py:30-30 | a digest is valid if and only if it is 64 lower-case hexadecimal digits |
| AptInstall.LessMeans | tools/native_apt_prerequisites.py:186-187 | selections are ordered by name, then version, then architecture |
| AptInstall.GrowthMeans | tools/native_apt_prerequisites.py:256-261 | the comparison of databases succeeds if and only if every installed package keeps its version and exactly the last selection of each name and architecture is newly installed |
| AptInstall.VerifyArchives | tools/native_apt_prerequisites.py:232-253 | success if and only if digests are distinct and files and manifest entries are in bijection |
| AptInstall.InstallPrerequisites | tools/native_apt_prerequisites.py:264-323 | against any package manager, success exactly when a proved transaction exists, which is returned |
| AptInstall.InstallExactIff | tools/native_apt_prerequisites.py:256-319 | after success every installed package keeps its version, and exactly the bound selections were added if and only if no two share name and architecture |
| AptInstall.OneOfTwoVersionsAdded | tools/native_apt_prerequisites.py:316-319 | a world with two versions of one package where installation succeeds and adds only one |
| RssMonitor.ProcessRssRetention.Observe | tools/process_rss_monitor.py:89-143 | a refused sample changes nothing; an accepted one keeps every field equal to its direct definition and asks for a signal exactly at the first actionable crossing |
| RssMonitor.ProcessRssRetention.MarkSignalSent | tools/process_rss_monitor.py:145-152 | the signal is marked once, and only after a crossing that was not terminal |
| RssMonitor.DirectSnoc | tools/process_rss_monitor.py:89-143 | updating the fields sample by sample gives their definitions over the whole history |
| RssMonitor.MaxIsMax | tools/process_rss_monitor.py:270-271 | the maximum is a reading and no reading is larger |
| RssMonitor.Run | tools/process_rss_monitor.py:239-267 | a run finishes if and only if the process exits and every sample is acceptable, and is still running if and only if no turn ended it; the signals sent are exactly the turn that must signal |
| RssMonitor.SignalIff | tools/process_rss_monitor.py:239-267 | a signal is sent if and only if a reading before the exit is at or above the limit, at the first such turn |
| RssMonitor.FinishedMaxima | tools/process_rss_monitor.py:107-128 | the overall maximum is the larger of the maxima before and after the signal; valid and missing samples add up to all |
| RssMonitor.SummaryCrossing | tools/process_rss_monitor.py:129-141 | the reported crossing is the first reading at or above the limit, with its time, and says whether it was the terminal one; none is reported if and only if every reading is below |
| RssMonitor.CountsMean | tools/process_rss_monitor.py:104-111 | valid, missing and failed samples are counted exactly |
| RssMonitor.AcceptedMeans | tools/process_rss_monitor.py:173-206 | samples are accepted if and only if times are not negative and increase, readings are not negative, and no reading comes with a reader error |
| RssMonitor.SampleMeans | tools/process_rss_monitor.py:247-256 | a sample is the seconds since the start, never negative, and the reading if there was one |
| SpoolSlice.Scan | tools/perf_base1_worker.py:81-88 | one forward pass that stops at the largest wanted index has met every wanted item |
| SpoolSlice.PickedIsListSlice | tools/perf_base1_worker.py:78-89 | the picked items are the list slice for every start, stop and nonzero step |
| SpoolSlice.NthIsProduct | tools/perf_base1_worker.py:78-78 | the stepwise index of the definition is start plus n times step |
| SpoolSlice.ListSliceUnique | tools/perf_base1_worker.py:78-89 | the definition of a list slice admits one result |
| SpoolSlice.PlainSlice | tools/perf_base1_worker.py:77-89 | a slice between two positions is that part of the list |
| SpoolSlice.ReversedSlice | tools/perf_base1_worker.py:77-89 | the slice with step -1 is the list backwards |
| SpoolSlice.GetSlice | tools/perf_base1_worker.py:77-89 | slicing gives the list slice, and fails exactly for step 0 |
| SpoolSlice.GetItem | tools/perf_base1_worker.py:90-97 | integer indexing agrees with lists, and fails exactly outside them |

## Left out

- HTTP, redirects, TLS and header parsing around the bounded reader; the strict parse of the returned body.
- Diagnostic snapshots, forensics, observers, redaction and report text: they decide nothing.
- `validate_for_accept` of the portable coverage capability, and the merge of shards after they were validated.
- Symlink checks on marker files, malformed marker text other than a truncated file, and duplicate marker keys.
- Payload size limits and result projections of the threshold monitor and of the failure ledger.
- Full-gate selector checks, deferred-marker registration and the suite argument of the leg plugin.
- Report persistence, cleanup after both legs and coverage floors in the paired execution.
- Test file names in test records; the purity guard of the unit suite.
- Readiness wait, `wait_done` and thread joining of the event pump: they do not touch the queue or the failure.
- Argument validation of timeouts and descriptors in the startup gate.
- Index trust, provenance and the recorded locations when binding packages; baseline pins.
- The probe's own commands, its host recheck and the libpq call behind the command guard.
- ReceiptCustody.Combine: its early exits are not modelled (an earlier combined result, recorded measurement errors, a substituted runner, a missing data directory), because they end before any receipt is read.
- AptInstall.InstallPrerequisites: an operating system error while files are written or removed is not modelled, because it has no bearing on what success proves.
- PairedLegs.ExecuteLegs: aborting by an exception other than a changed source between the legs is not modelled.
- ReceiptProtocol.RunKeepsInv: a receipt partly written when a child dies is not modelled; the handle's write is one step.
