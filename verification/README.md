# PREMiSE core: a verified model

PREMiSE keeps memories that depend on sources and on each other, and says which of them may
still be used. This project models its in-memory cores and proves what they are for: the
incremental dependency frontier, the runtime store with source invalidation and ordered streams,
the crash-safe journal, the concurrent protocols around validation, keys and side effects, the
hybrid search index, the context packer, canonical JSON and the audit chain.

`dafny verify dfyconfig.toml` checks everything. One module is one component:

- `dag.dfy`, `frontier_spec.dfy`, `graph_check.dfy`, `frontier_index.dfy`, `frontier_engine.dfy`,
  `frontier_runs.dfy`: the frontier engine. The specification is a full recompute; the index is
  the set of maps that the engine maintains; the engine class has the mutators, the worklist and
  the lazily compacted tombstones; the runs refine a naive model that keeps only graph and states.
- `runtime_store.dfy`, `stream.dfy`, `source_invalidation.dfy`: events and compaction, ordered
  streams with repair and bursts, and the record indexes with both ways to the affected set.
- `journal.dfy`, `journal_codec.dfy`: the journal file as a sequence of bytes, and a codec that
  meets what is assumed of one.
- `single_flight.dfy`, `validation_lease.dfy`, `key_resolver.dfy`, `guarded_tool.dfy`: protocols
  as classes whose methods are the steps between two awaits or callbacks. What a class keeps in
  `Valid()` after every method holds in every interleaving.
- `top_k.dfy`, `hybrid_index.dfy`: the bounded heap and the index statistics.
- `canonical_json.dfy`: the printer, a decoder that undoes it, and UTF-8.
- `context_chunks.dfy`, `context_units.dfy`, `context_hierarchy.dfy`, `context_order.dfy`,
  `context_turns.dfy`, `context_select.dfy`, `context_engine.dfy`: chunking, hierarchy, ordering
  and what the order comes to, greedy selection, and selection with the phases of a hierarchy.
- `audit_chain.dfy`: the hash chain.
- `wrappers.dfy`: optional values and the status of a memory, shared by all.

## Where the code does not meet a property

Each of these is kept as the code has it, with a witness or the exact condition.

- A frontier read-out still counts work after the last trust check, so that a complete answer can be
  cached while the budget is already exceeded, and no later mark invalidates it (`Frontier`,
  `StaleAfterOverrun`, `ReadOutOverrunWitness`). The read-out overruns exactly when the work so far
  plus two plus the number of live roots is above the budget. Once the budget is exceeded, a cached
  answer can become wrong if and only if it is not INVALID or its frontier leaves something at or
  above the node uncovered (`SomeMarkChangesIff`).
- A self-edge is refused before the rollback block, so the nodes declared before it stay
  (`SetDependencies`, `SelfEdgeLeavesNodeWitness`): the graph changes if and only if one of them is
  new (`SelfEdgeLeavesIff`).
- `restoreTrust` withdraws trust (`RestoreTrust`).
- Registering, replacing or validating a record does not look at the store revision first and then
  records the new one, so a write by another writer in between is never indexed
  (`MissedWriteWitness`). These operations keep the indexes in step when the recorded revision was
  the store's just before; otherwise exactly if the indexes had been exact for the other records and
  have nothing left over of this one (`RegisterExactIff`, `ReplaceExactIff`). A signal then leaves
  no affected record usable, for all sources, if and only if the indexes miss no usable record
  (`SignalSourcesChanged`, `NoneLeftIff`). In step, or when a refresh notices the write, none stays
  usable.
- A restore or compaction raises the store revision by the number of its records, so one that leaves
  no records at all is not noticed by another runtime over the store (`OtherWriterReplacesAll`,
  `EmptiedStoreWitness`).
- After compaction the store answers for an event without its payload, so an event redelivered in
  its turn, as in a repair or after a restart, becomes a conflict (`CompactionChangesStreamIff`,
  `ResentAfterCompactionWitness`). Decisions of `appendEvent` itself are preserved
  (`CompactionKeepsDecisions`).
- A snapshot carries retained events only (`SnapshotKeepsDecisionsIff`).
- A coalesced burst rewinds a stream that had already gone beyond it (`CoalescedAgreesIff`,
  `CoalescedRewindsWitness`), and can contradict the store where in-order application sees
  duplicates (`CoalescedConflictWitness`).
- A journal append reserves its cursor and key before the write; after a failed write a retry is
  answered although reopening the file would not find the event, exactly if not all its text had
  been written (`SendTwice`), and a later successful write makes the file unreadable (`ReopenIff`).
- An invalidation between the epoch check and the return of a resolve does not stop the old material
  from being returned, though it is never cached (`Continue`, `ReturnAfterInvalidationWitness`).
- A search takes its candidates before the query is embedded and scores them afterwards, so a
  document deleted in the meantime is still found (`DeletedStillFoundWitness`), and an index emptied
  in the meantime has no average length (`FinishSearch`). Otherwise the results are those of the
  documents of now, for every limit, if and only if every candidate that hits is still stored with
  the same score and every stored hit was a candidate (`SnapshotAgreesIff`).
- Appending to the audit log does not compare the new hash with the old ones; should it be one of
  them, the log is not accepted any more (`Append`).
- A unit may name a parent that is not its source's, and then it can compete after a unit that names
  its own source as the parent; that unit is skipped although its parent is selected later
  (`ChildCompetesFirstWitness`, `ChildSkippedFirstWitness`). A unit comes before one that names its
  source as the parent, in every order by phase, if and only if it is less deep, or is a summary as
  deep as a detail (`ParentsCompeteFirstIff`); it does if it has its source's parent
  (`ParentsCompeteFirst`). A unit's parent is selected after the unit was skipped for it if and only
  if a later unit of that source is selected (`ParentSkipIff`), and never if no competing unit
  overrides its source's parent (`SelectInHierarchy`).
- Cutting entries off the end of an audit log is invisible without its last hash (`PrefixAccepted`).

## Assumptions

- Printing and parsing of one journal entry is a parameter (`ValidCodec`): parsing undoes printing,
  a printed entry has no newline, and no strict prefix of one parses. `ReopenIff` also needs that
  texts glued together from two or more nonempty prefixes of printed entries do not parse. There
  are such codecs (`CodecExists`).
- Stream fingerprints and action fingerprints are tuples of what is digested, so their digests are
  taken to have no collisions. The audit hash is a parameter that may collide; only the shape of
  its texts is assumed (`HashFunction`).
- A JSON number is the text that JSON.stringify prints for it; distinct finite doubles other than
  the two zeros have distinct texts. Canonical JSON follows the key order of section 3.2.3 of RFC 8785.
- Scores are real numbers, and the logarithm and cosine are parameters, so rounding plays no part.
- The work budget, the closure-cache limit, clocks, provider answers and callback answers are
  parameters. Set and map iteration order is arbitrary.

## Model

| member | source | states |
|---|---|---|
| FrontierSpec.ExactUnique | packages/runtime-core/src/frontier-engine.ts:585-662 | the answer of a full recompute for a node is unique, so two complete answers agree |
| FrontierSpec.FrontierMeaning | packages/runtime-core/src/frontier-engine.ts:938-946 | the frontier is exactly the dirty nodes at or above the node with no dirty proper ancestor, and it is empty exactly when the status is FRESH |
| FrontierSpec.StatusMeaning | packages/runtime-core/src/frontier-engine.ts:162-164 | an exact answer is INVALID if and only if some dirty node at or above is; UNKNOWN if and only if some is and none is INVALID; STALE if and only if there is one and all are STALE |
| FrontierSpec.ExactDependsOnCauses | packages/runtime-core/src/frontier-engine.ts:1036-1067 | answers of nodes not below a changed node stay valid, which is what targeted cache invalidation relies on |
| FrontierSpec.CollectIsMinimal | reference/python/evolution.py:150-165 | on a DAG the recursive collection equals the minimal antichain of dirty ancestors, for every set of nodes already seen above |
| FrontierSpec.ReferenceAgrees | reference/python/evolution.py:150-165 | the naive reference and the exact frontier are the same set for every declared DAG |
| GraphCheck.AssertAcyclic | packages/runtime-core/src/frontier-engine.ts:1102-1128 | the iterative depth-first search terminates; it reports a node only if that node lies on a cycle, and reports nothing only if no cycle goes through the start |
| GraphCheck.AssertAcyclicGraph | packages/runtime-core/src/frontier-engine.ts:1151-1179 | the whole-graph search terminates and reports nothing if and only if the graph is acyclic |
| FrontierIndex.LiveIsCauses | packages/runtime-core/src/frontier-engine.ts:768-820 | once propagation is finished, what a node holds apart from tombstones is exactly the dirty nodes at or above it with their severities |
| FrontierIndex.IndexAnswers | packages/runtime-core/src/frontier-engine.ts:613-644 | from a settled index the read-out status and frontier are exactly those of a full recompute |
| FrontierIndex.TombstoneSettled | packages/runtime-core/src/frontier-engine.ts:479-565 | turning a resolved root into a tombstone keeps what is held settled for the smaller set of dirty nodes |
| FrontierIndex.TombstoneOk | packages/runtime-core/src/frontier-engine.ts:479-565 | and keeps every maintained map, entry count and tombstone total true |
| FrontierIndex.DropTombstoneOk | packages/runtime-core/src/frontier-engine.ts:953-991 | dropping a tombstone from a node keeps every maintained map, entry count and tombstone total exact |
| FrontierIndex.PrunedCompacts | packages/runtime-core/src/frontier-engine.ts:953-991 | removing all tombstones of a node one by one gives the compacted index: only that node changes, and it loses exactly its tombstones |
| FrontierIndex.ReactivationOk | packages/runtime-core/src/frontier-engine.ts:993-1017 | re-entering a tombstoned root at all its holders gives back an exact index |
| FrontierIndex.ReactivatedPropagated | packages/runtime-core/src/frontier-engine.ts:993-1017 | after a reactivation every edge is still propagated, as if the root had never been resolved |
| FrontierIndex.IsolatedNodes | packages/runtime-core/src/frontier-engine.ts:256-275 | declaring nodes without edges changes no propagated state |
| FrontierIndex.MarkAllMarks | packages/runtime-core/src/frontier-engine.ts:326-391 | a marked node becomes INVALID, UNKNOWN or STALE by the worse of its state and the mark, and every other node keeps its state |
| FrontierIndex.SnapshotMeaning | packages/runtime-core/src/frontier-engine.ts:393-431 | a snapshot with distinct ids leaves exactly the states that are not FRESH |
| FrontierIndex.LoadedMeaning | packages/runtime-core/src/frontier-engine.ts:219-248 | the loaded graph has exactly the nodes that the list names, each with the dependencies of its last entry |
| FrontierEngine.IncrementalFrontierEngine.constructor | packages/runtime-core/src/frontier-engine.ts:219-248 | a new engine is valid, trusted and empty |
| FrontierEngine.IncrementalFrontierEngine.Create | packages/runtime-core/src/frontier-engine.ts:219-248 | an initial node list is accepted if and only if it has no self-dependency and no cycle, and the engine then has exactly that graph |
| FrontierEngine.IncrementalFrontierEngine.SetDependencies | packages/runtime-core/src/frontier-engine.ts:256-309 | accepted if and only if the new edges name no self-edge and close no cycle; a cycle restores both edge maps; a self-edge instead leaves the nodes declared before it |
| FrontierEngine.SelfEdgeLeavesIff | packages/runtime-core/src/frontier-engine.ts:272-277 | a list refused for a self-edge changes the graph all the same if and only if it names an undeclared node before its first self-edge |
| FrontierEngine.SelfEdgeLeavesNodeWitness | packages/runtime-core/src/frontier-engine.ts:272-277 | a new engine that refuses a list of edges and has a node afterwards |
| FrontierEngine.IncrementalFrontierEngine.AddNode | packages/runtime-core/src/frontier-engine.ts:250-254 | only a new node whose edges close no cycle is added |
| FrontierEngine.IncrementalFrontierEngine.RemoveNode | packages/runtime-core/src/frontier-engine.ts:311-324 | removed if and only if nothing depends on it; the graph and the direct states lose exactly that node |
| FrontierEngine.IncrementalFrontierEngine.MarkDirty | packages/runtime-core/src/frontier-engine.ts:326-391 | raises exactly the named direct states, each to the worse of the two; when the impact is complete it lists exactly the nodes the roots reach |
| FrontierEngine.IncrementalFrontierEngine.Resolve | packages/runtime-core/src/frontier-engine.ts:479-565 | clears exactly the named direct state, except that an UNKNOWN one withdraws trust; a complete impact is the descendants of the root, or nothing if it was clean |
| FrontierEngine.IncrementalFrontierEngine.ReplaceStatus | packages/runtime-core/src/frontier-engine.ts:441-477 | replaces exactly the named direct state, reports its descendants, and says exactly whether the answers are complete |
| FrontierEngine.IncrementalFrontierEngine.RestoreStates | packages/runtime-core/src/frontier-engine.ts:393-431 | accepted if and only if the snapshot names every node exactly once; it then replaces all direct states and is the only way back to trust |
| FrontierEngine.IncrementalFrontierEngine.MarkUnknown | packages/runtime-core/src/frontier-engine.ts:567-573 | withdraws trust and forgets every cached answer |
| FrontierEngine.IncrementalFrontierEngine.RestoreTrust | packages/runtime-core/src/frontier-engine.ts:575-583 | withdraws trust although its name says otherwise |
| FrontierEngine.IncrementalFrontierEngine.Frontier | packages/runtime-core/src/frontier-engine.ts:585-662 | unless an earlier read-out overran its budget, every complete answer, cached or not, is the exact one, and its status is the worst state at or above the node; a trusted engine within budget answers completely; the charge of a read-out and of the compaction before it is tied to the roots and tombstones at the node, which says exactly when a read-out overruns and, unless surviving roots have to be compared, when it is cut short |
| FrontierEngine.IncrementalFrontierEngine.PropagateDirty | packages/runtime-core/src/frontier-engine.ts:768-820 | the worklist terminates; within the budget it settles the index and visits exactly the nodes the seeds reach |
| FrontierEngine.IncrementalFrontierEngine.MergeDirtyState | packages/runtime-core/src/frontier-engine.ts:859-936 | within the budget a node ends with the merged live roots and its frontier, and reports a change exactly when the roots changed |
| FrontierEngine.IncrementalFrontierEngine.CompactResolvedRoots | packages/runtime-core/src/frontier-engine.ts:953-991 | within the budget exactly the tombstones of one node are dropped; the charge is exact unless surviving roots have to be compared, and then bounded from below |
| FrontierEngine.IncrementalFrontierEngine.ReactivateRoot | packages/runtime-core/src/frontier-engine.ts:993-1017 | within the budget a tombstoned root is taken back at exactly its holders |
| FrontierEngine.IncrementalFrontierEngine.RebuildDirtyState | packages/runtime-core/src/frontier-engine.ts:1019-1034 | within the budget a rebuild settles the index |
| FrontierEngine.IncrementalFrontierEngine.ComputeFrontier | packages/runtime-core/src/frontier-engine.ts:927-951 | within the budget the roots kept are the minimal antichain of the live roots; a single live root costs nothing, and every further one at least one comparison |
| FrontierEngine.StaleAfterOverrun | packages/runtime-core/src/frontier-engine.ts:326-391 | with the budget exceeded, a cached complete answer survives every mark, so a mark that changes the answer makes the next one complete and wrong |
| FrontierEngine.SomeMarkChangesIff | packages/runtime-core/src/frontier-engine.ts:326-391 | such a mark exists for an exact answer if and only if it is not INVALID or its frontier does not cover everything at or above the node |
| FrontierEngine.ReadOutOverrunWitness | packages/runtime-core/src/frontier-engine.ts:631-644 | a new engine with a budget of one that ends with a cached complete answer that is not the exact one |
| FrontierRuns.Apply | packages/runtime-core/src/frontier-engine.ts:250-662 | every operation on the engine is the naive step on the graph and the direct states, and loses trust only by an overrun or by withdrawing it |
| FrontierRuns.Run | packages/runtime-core/src/frontier-engine.ts:250-662 | over any run the engine refines the naive recompute: complete answers are exact until a read-out overruns; after a withdrawal of trust none is complete before a full restore; and while the budget is not exceeded every other answer is complete |
| FrontierRuns.RunFrom | packages/runtime-core/src/frontier-engine.ts:219-248 | and so does every run from the creation of the engine |
| FrontierRuns.CompleteAnswerMeans | packages/runtime-core/src/frontier-engine.ts:585-662 | within a run without an overrun, what a complete answer says of the direct states that the naive model has at or above the node |
| RuntimeStore.DecideAlikeIff | packages/runtime-core/src/index.ts:394-409 | two stores decide every event alike if and only if they remember the same metadata |
| RuntimeStore.RunsAlike | packages/runtime-core/src/index.ts:394-409 | stores that remember the same metadata decide every run of events alike |
| RuntimeStore.VerifyRecovery | packages/runtime-core/src/checkpoint.ts:117-131 | READY if and only if the checkpoint is intact and the tail cursors follow it without a gap; otherwise the first offending entry gives the reason |
| RuntimeStore.CompactionKeepsDecisions | packages/runtime-core/src/index.ts:467-499 | with an intact checkpoint that remembers the log up to its cursor and a tail that goes on there with the rest, compaction succeeds and every later run of events is decided as before |
| RuntimeStore.RunRemembers | packages/runtime-core/src/index.ts:394-409 | a store remembers exactly the log of the events that it accepted |
| RuntimeStore.CompactionOfRun | packages/runtime-core/src/index.ts:467-499 | a store that takes events from empty, is checkpointed and takes more can be compacted with that checkpoint and the events accepted since, and decides every later run as before |
| RuntimeStore.RetainedAreTail | packages/runtime-core/src/index.ts:479-495 | after compaction exactly the tail events are retained |
| RuntimeStore.SnapshotKeepsDecisionsIff | packages/runtime-core/src/index.ts:427-461 | restoring a store from its own snapshot keeps every decision if and only if nothing had been compacted away |
| RuntimeStore.RecordsOfList | packages/runtime-core/src/index.ts:437-441 | of the records of a list exactly the last one of each id is kept |
| RuntimeStore.OwnRecordsComeBack | packages/runtime-core/src/index.ts:427-461 | restoring a list of a store's own records, in any order, gives back those records |
| RuntimeStore.RestoredIff | packages/runtime-core/src/index.ts:442-450 | a snapshot's events can be restored if and only if those under one key have one id and digest, and then the last one of each key is |
| RuntimeStore.CompactsIff | packages/runtime-core/src/index.ts:479-489 | a tail can be compacted if and only if no event is missing and each has the metadata that is remembered under its key; then the last event of each key is retained and all metadata remembered |
| RuntimeStore.InMemoryRuntimeStore.AppendEvent | packages/runtime-core/src/index.ts:394-409 | accepts, ignores or rejects as decided by the remembered metadata; a rejected event changes nothing |
| RuntimeStore.InMemoryRuntimeStore.PutAndAppend | packages/runtime-core/src/index.ts:362-365 | the record is put before the event is decided, and stays when the event is rejected |
| RuntimeStore.InMemoryRuntimeStore.PutAndAppendIfUnchanged | packages/runtime-core/src/index.ts:367-373 | does nothing unless the stored record is the expected one |
| RuntimeStore.InMemoryRuntimeStore.GetEvent | packages/runtime-core/src/index.ts:375-392 | gives the retained event, or its metadata with an empty payload once it has been compacted |
| RuntimeStore.InMemoryRuntimeStore.Restore | packages/runtime-core/src/index.ts:431-461 | succeeds if and only if the snapshot is supported and its events agree; then the last record of each id, the last event of each key and their metadata replace everything, and otherwise nothing changes |
| RuntimeStore.InMemoryRuntimeStore.CompactOperational | packages/runtime-core/src/index.ts:467-499 | commits the last record of each id, the metadata and the tail together, or changes nothing; both sides of when it succeeds |
| EventStream.AdvanceKeepsOk | packages/runtime-core/src/index.ts:913-949 | the recorded sequences always run from a snapshot up to the next sequence without a gap |
| EventStream.RunKeepsOk | packages/runtime-core/src/index.ts:913-949 | over any run that invariant holds and the store never forgets or changes an event |
| EventStream.RedeliveryChangesNothing | packages/runtime-core/src/index.ts:928-932 | an event with the same digest and sequence, redelivered at once or after any events that need no repair, is a duplicate and changes nothing |
| EventStream.ConflictingRedeliveryFences | packages/runtime-core/src/index.ts:928-932 | an event with another digest under a recorded sequence always fences the stream |
| EventStream.FingerprintTells | packages/runtime-core/src/index.ts:917-927 | which parts of two events decide whether their digests are equal |
| EventStream.CompactionChangesStreamIff | packages/runtime-core/src/index.ts:936-943 | compaction changes the verdict on a stream event exactly when its turn has come, the store lost its payload, and it is the stored event or its bare identity |
| EventStream.ResentAfterCompactionWitness | packages/runtime-core/src/index.ts:936-943 | an event that a second runtime over the store still recognises as a duplicate, and a third one, after a compaction, fences as a conflict |
| EventStream.CleanIffConsistent | packages/runtime-core/src/index.ts:913-949 | contiguous events whose turn has come go through exactly when none contradicts the store or another of them |
| EventStream.RepairSucceedsIff | packages/runtime-core/src/index.ts:957-1005 | an authoritative page repairs a stream if and only if it is consistent with the store and itself, and the stream then stands behind its head |
| EventStream.RepairTwice | packages/runtime-core/src/index.ts:951-1005 | repairing again from the same page changes nothing |
| EventStream.PlanStreamBurst | packages/runtime-core/src/stream-burst.ts:34-68 | the first failing check in order decides why a burst is kept; a coalesced burst is split into skipped then kept events at its latest snapshot |
| EventStream.CleanEnds | packages/runtime-core/src/index.ts:1031-1053 | contiguous events applied in order without a repair end behind the last of them, or where the stream already was |
| EventStream.CoalescedSucceeds | packages/runtime-core/src/index.ts:1012-1030 | a burst that can be applied in order, and none of whose kept events was recorded before, can be coalesced and ends at the same sequence |
| EventStream.CoalescedAgreesIff | packages/runtime-core/src/index.ts:1012-1030 | when both ways go through they end at the same sequence if and only if the stream had not already gone beyond the burst |
| EventStream.CoalescedRewindsWitness | packages/runtime-core/src/index.ts:1012-1030 | a burst of recorded events that goes through both ways and, coalesced, sets the stream back |
| EventStream.CoalescedConflictWitness | packages/runtime-core/src/index.ts:917-932 | a burst that is all duplicates in order but contradicts the store when coalesced, because the digest leaves out the operation |
| EventStream.InOrderIsRun | packages/runtime-core/src/index.ts:1031-1053 | on one stream, in-order application is the stream's own run |
| EventStream.PremiseStreams.ApplyStreamEvent | packages/runtime-core/src/index.ts:913-949 | gives the verdict that the recorded sequences, the next sequence and the event stored under the key call for, and what becomes of the stream; only the event's own stream moves |
| EventStream.PageVerdict | packages/runtime-core/src/index.ts:972-986 | an event of an authoritative page is applied if and only if its key is new to the store and to the page so far |
| EventStream.PremiseStreams.RepairStreamFromSnapshot | packages/runtime-core/src/index.ts:957-1005 | refuses malformed pages without any change; repairs exactly consistent ones and reports which sequences were new; a failure leaves the stream fenced at the snapshot |
| EventStream.PremiseStreams.ApplyStreamBurst | packages/runtime-core/src/index.ts:1012-1054 | coalesces exactly when the plan allows it, and then goes through if and only if the kept events are consistent with the store and each other, or leaves the stream fenced at the snapshot; otherwise applies in order, with the same report |
| SourceInvalidation.NewRecordExact | packages/runtime-core/src/index.ts:1424-1437 | indexing a new record keeps both indexes exact inverses of the stored records |
| SourceInvalidation.ReplacedRecordExact | packages/runtime-core/src/index.ts:1424-1453 | taking a record out and indexing its replacement keeps both indexes exact |
| SourceInvalidation.RegisterMissesIff | packages/runtime-core/src/index.ts:560-583 | registering without a refresh misses no record if and only if none had been missed before |
| SourceInvalidation.RegisterExactIff | packages/runtime-core/src/index.ts:560-583 | and makes the indexes exact if and only if they had been for the other records and had nothing of this one |
| SourceInvalidation.ReplaceMissesIff | packages/runtime-core/src/index.ts:615-646 | replacing misses no record if and only if no other record had been missed |
| SourceInvalidation.ReplaceExactIff | packages/runtime-core/src/index.ts:615-646 | and makes the indexes exact if and only if they had been for the other records and have nothing left over from an older version of this one |
| SourceInvalidation.NoneLeftIff | packages/runtime-core/src/index.ts:835-897 | no change of sources leaves an affected record usable if and only if the indexes miss no usable record |
| SourceInvalidation.NothingMissedIsEnough | packages/runtime-core/src/index.ts:835-897 | indexes that miss no record miss no usable one |
| SourceInvalidation.DependentClosure | packages/runtime-core/src/index.ts:1169-1196 | the breadth-first traversal terminates and lists exactly the affected memories, each once |
| SourceInvalidation.ReachOfIsAffected | packages/runtime-core/src/frontier-engine.ts:326-391 | the engine's affected list is the affected set of its graph |
| SourceInvalidation.ExactEdges | packages/runtime-core/src/index.ts:1424-1437 | exact indexes describe exactly the dependency graph of the tenant's records |
| SourceInvalidation.EngineFollows | packages/runtime-core/src/index.ts:577-578 | replacing one record's dependencies keeps the engine's graph equal to the one the reverse index describes |
| SourceInvalidation.SnapshotAgrees | packages/runtime-core/src/index.ts:1395-1401 | the states that a rebuild gives the engine are exactly the stored statuses that are not FRESH |
| SourceInvalidation.SignalStates | packages/runtime-core/src/index.ts:1198-1227 | marking the directly citing memories keeps the engine's states in agreement with the store after a signal |
| SourceInvalidation.AnswerTells | packages/runtime-core/src/index.ts:663-671 | with states that agree, an exact answer is INVALID if and only if a stored INVALID record is at or above the node, is never FRESH or STALE with an UNKNOWN one there, and its frontier has only records that are not FRESH |
| SourceInvalidation.PremiseRuntime.constructor | packages/runtime-core/src/index.ts:553-558 | a new runtime is in step with the store |
| SourceInvalidation.PremiseRuntime.RebuildIndexes | packages/runtime-core/src/index.ts:1387-1410 | a rebuild brings both indexes, the engine's graph and its direct states in step with the store |
| SourceInvalidation.PremiseRuntime.RefreshIndexesIfStoreChanged | packages/runtime-core/src/index.ts:1412-1418 | a refresh that sees another revision, or none, brings the runtime in step |
| SourceInvalidation.PremiseRuntime.OtherWriterPuts | packages/runtime-core/src/index.ts:1412-1418 | after another writer's put a refresh will rebuild the indexes |
| SourceInvalidation.PremiseRuntime.OtherWriterReplacesAll | packages/runtime-core/src/index.ts:431-499 | after another writer's restore or compaction a refresh will rebuild the indexes if and only if it would have anyway or there are records again |
| SourceInvalidation.PremiseRuntime.Register | packages/runtime-core/src/index.ts:560-583 | registers exactly new records of the tenant; the runtime stays in step if the recorded revision was the store's just before, and otherwise exactly if the indexes had been exact for the other records and had nothing of this one |
| SourceInvalidation.PremiseRuntime.Replace | packages/runtime-core/src/index.ts:615-646 | replaces exactly existing records of the tenant; in step if the recorded revision was the store's just before, and otherwise exactly if the indexes had been exact for the other records without leftovers |
| SourceInvalidation.PremiseRuntime.ApplyValidation | packages/runtime-core/src/index.ts:1098-1127 | records a verdict only on the record that was validated: FRESH exactly for unchanged, UNKNOWN exactly for undecided, otherwise INVALID; a trusted engine gets the same state; changes neither index, and keeps the runtime in step under the same condition |
| SourceInvalidation.PremiseRuntime.Frontier | packages/runtime-core/src/index.ts:663-671 | in step with the store and before any overrun, a complete answer tells what is stored at or above the record |
| SourceInvalidation.PremiseRuntime.AffectedBySourceChange | packages/runtime-core/src/index.ts:1198-1227 | the incremental path and the traversal both give exactly the affected set of one graph, and these graphs agree |
| SourceInvalidation.PremiseRuntime.SignalSourcesChanged | packages/runtime-core/src/index.ts:835-897 | in step or noticing that it is not, it leaves no record of the tenant usable that cites a changed source or transitively depends on one, touches nothing else, and reports exactly those; without a rebuild it reports exactly what the indexes name, and leaves none usable if and only if they name every usable one |
| SourceInvalidation.EmptiedStoreWitness | packages/runtime-core/src/index.ts:431-461 | a runtime that goes on reporting a record after another writer has emptied the store, and that no refresh will put right |
| SourceInvalidation.MissedWriteWitness | packages/runtime-core/src/index.ts:574-582 | a runtime whose store still has a usable record that another writer stored just before a registration, after a successful signal that its source changed, and that no refresh will notice |
| Journal.SplitExact | packages/runtime-core/src/journal.ts:96-141 | splitting at newlines loses nothing |
| Journal.JournalLines | packages/runtime-core/src/journal.ts:96-141 | for every pattern of short reads the reader gives exactly the lines of the file with their ends |
| Journal.CrashRecovery | packages/runtime-core/src/journal.ts:348-419 | from every byte prefix of a log, loading recovers exactly the entries whose printed bytes are all present and leaves exactly their log |
| Journal.LogEnds | packages/runtime-core/src/journal.ts:411 | a recovered log is empty or ends with a newline |
| Journal.ResendAfterCrash | packages/runtime-core/src/journal.ts:247-263 | after a crash at any byte an event sent again is known with its old cursor if and only if it was recovered |
| Journal.ReopenIff | packages/runtime-core/src/journal.ts:380-412 | after appends of which some failed part of the way, the file can be reopened if and only if no append succeeded after a failed one, and then every successful entry is recovered |
| Journal.ReopenAfterFailure | packages/runtime-core/src/journal.ts:257-262 | ending the process right after a failed append is safe |
| Journal.PagingIsComplete | packages/runtime-core/src/journal.ts:281-295 | following the page cursors reads every matching entry exactly once in order |
| Journal.PagesFollowAppends | packages/runtime-core/src/journal.ts:281-295 | paging stays complete and without repetition while entries are appended between pages |
| Journal.FileJournal.Load | packages/runtime-core/src/journal.ts:380-418 | loads exactly when every terminated line is the next entry and the checkpoint is not ahead |
| Journal.FileJournal.LoadEntries | packages/runtime-core/src/journal.ts:380-412 | the loop over the lines gives exactly the recovery of the file, with truncation or a final newline |
| Journal.FileJournal.AppendEvent | packages/runtime-core/src/journal.ts:247-263 | an event whose tenant and key are in the history is answered with the cursor of an entry that also has its id and digest, or as a conflict, without writing; any other extends the history by one contiguous cursor, also when its write fails |
| Journal.IndexKnows | packages/runtime-core/src/journal.ts:247-252 | the index has an event's tenant and key if and only if the history has, with the cursor, id and digest of such an entry |
| Journal.SendTwice | packages/runtime-core/src/journal.ts:247-263 | a new event that is sent again is answered with its cursor whatever came of the first write, but reopening finds it if and only if all its text had been written |
| JournalCodec.CodecExists | packages/runtime-core/src/journal.ts:380-412 | the assumptions about printing and parsing an entry do not contradict each other |
| Journal.FileJournal.AppendDecision | packages/runtime-core/src/journal.ts:265-273 | a decision extends the history by one contiguous cursor |
| Journal.FileJournal.ReadEntries | packages/runtime-core/src/journal.ts:356-366 | reading the file gives the first entries behind the cursor, of the tenant if one is named, in order, and all of them unless the limit is reached |
| Journal.FileJournal.ReadPage | packages/runtime-core/src/journal.ts:281-295 | a page has the first wanted entries, ends at its cursor, and says exactly whether there are others |
| Journal.PageMeans | packages/runtime-core/src/journal.ts:281-295 | what a page says of the history |
| Journal.FileJournal.Checkpoint | packages/runtime-core/src/journal.ts:301-307 | a checkpoint is taken if and only if it neither runs ahead nor moves backwards |
| SingleFlight.StepKeepsInv | packages/runtime-core/src/fenced-single-flight.ts:188-296 | every step of any interleaving keeps the flight table, the token order and the delivery rule |
| SingleFlight.NoSupersededResultEscapes | packages/runtime-core/src/fenced-single-flight.ts:267-276 | a delivered source outcome echoes its own token, and every flight of the resource with another incarnation, version scheme or version token, or without a scope, started only after it settled, with a larger token |
| SingleFlight.DeliveredIff | packages/runtime-core/src/fenced-single-flight.ts:267-276 | a waiting flight delivers a resolved answer if and only if the token is echoed and no later flight of the resource has another incarnation or version or no scope |
| SingleFlight.TokensNeverGoBack | packages/runtime-core/src/fenced-single-flight.ts:203-206 | fencing tokens of a resource never decrease and are shared only within one version |
| SingleFlight.OneVersionOneToken | packages/runtime-core/src/fenced-single-flight.ts:200-206 | a flight of the same incarnation and version as an unfinished one shares its token unless another version came between |
| SingleFlight.KeysDecide | packages/runtime-core/src/validation-scope.ts:84-94 | whether one flight supersedes another is decided by tenant, resource, incarnation, version scheme and token alone; requests without a scope always supersede |
| SingleFlight.OneCallPerScope | packages/runtime-core/src/fenced-single-flight.ts:193-194 | at most one source call is outstanding for a complete scope |
| SingleFlight.SettlesOnce | packages/runtime-core/src/fenced-single-flight.ts:228-237 | how and when a promise settled never changes |
| SingleFlight.ValidateShares | packages/runtime-core/src/validation-scope.ts:53-62 | a request is answered by the unfinished flight of the same complete scope if there is one, and requests without a scope never share |
| SingleFlight.FencedSingleFlightCoordinator.Validate | packages/runtime-core/src/fenced-single-flight.ts:188-226 | joins the flight of the request's scope or starts one, with a larger token than all flights of other versions of the resource and the token of an unfinished current one of its own |
| SingleFlight.FencedSingleFlightCoordinator.AbortAsUnknown | packages/runtime-core/src/fenced-single-flight.ts:238-253 | settles an unsettled flight as UNKNOWN and marks it |
| SingleFlight.FencedSingleFlightCoordinator.RunOperation | packages/runtime-core/src/fenced-single-flight.ts:255-265 | skips the source call of an aborted flight |
| SingleFlight.FencedSingleFlightCoordinator.OperationSettled | packages/runtime-core/src/fenced-single-flight.ts:267-288 | a waiting flight settles with the source's value, FENCED, ABORTED, TIMEOUT or the error, exactly as its token, its rivals and its triggers call for; a settled one stays |
| SingleFlight.FencedSingleFlightCoordinator.Cleanup | packages/runtime-core/src/fenced-single-flight.ts:288-296 | forgets the flight, and the resource's generation only when no other flight uses it |
| ValidationLease.OneLiveLease | packages/runtime-core/src/validation-lease.ts:343-362 | at no time are there two live leases of one scope, and a live one has the largest token issued for it |
| ValidationLease.OnlyTheLatestHolds | packages/runtime-core/src/validation-lease.ts:364-410 | only the holder of the largest token can renew, release or validate |
| ValidationLease.InMemoryValidationLeaseStore.Acquire | packages/runtime-core/src/validation-lease.ts:343-362 | grants only when no earlier grant of the scope is live, with a token larger than all earlier ones; says HELD if and only if one is live; everything else grants nothing |
| ValidationLease.InMemoryValidationLeaseStore.Renew | packages/runtime-core/src/validation-lease.ts:364-379 | succeeds if and only if the request names the unexpired stored lease exactly, and otherwise gives the first reason why not |
| ValidationLease.InMemoryValidationLeaseStore.Release | packages/runtime-core/src/validation-lease.ts:381-395 | succeeds if and only if the request names the unexpired stored lease exactly, and otherwise gives the first reason why not |
| ValidationLease.InMemoryValidationLeaseStore.Validate | packages/runtime-core/src/validation-lease.ts:397-410 | valid if and only if the request names the unexpired stored lease exactly, and otherwise the first reason why not |
| ValidationLease.ValidationLeaseManager.Acquire | packages/runtime-core/src/validation-lease.ts:197-227 | the clock, duration and overflow checks around a safe acquisition; failures grant nothing; a live lease is the requester's own exactly for the same owner and id |
| ValidationLease.ValidationLeaseManager.Renew | packages/runtime-core/src/validation-lease.ts:229-255 | renews if and only if clock, duration and identity are in order |
| ValidationLease.ValidationLeaseManager.Release | packages/runtime-core/src/validation-lease.ts:257-269 | releases if and only if clock and identity are in order |
| ValidationLease.ValidationLeaseManager.Validate | packages/runtime-core/src/validation-lease.ts:271-284 | valid if and only if clock and identity are in order |
| KeyResolver.EpochsNeverRepeat | packages/security-core/src/external-key-provider.ts:204-208 | the pair of global and key epoch is the same at two points exactly when the key was not invalidated between them |
| KeyResolver.ExternalKeyResolver.Resolve | packages/security-core/src/external-key-provider.ts:191-215 | serves only unexpired material from a call that no invalidation followed, joins only such calls, and otherwise starts one |
| KeyResolver.ExternalKeyResolver.Check | packages/security-core/src/external-key-provider.ts:206-214 | delivers and caches if and only if no invalidation of the key came since the call started |
| KeyResolver.ExternalKeyResolver.Continue | packages/security-core/src/external-key-provider.ts:216-220 | returns material that was current when checked and not invalidated before this resolve began; it is still current if and only if no invalidation came after the check |
| KeyResolver.ExternalKeyResolver.Invalidate | packages/security-core/src/external-key-provider.ts:224-229 | drops the cached and in-flight entries of the key |
| KeyResolver.ExternalKeyResolver.Clear | packages/security-core/src/external-key-provider.ts:232-237 | drops all cached and in-flight entries |
| KeyResolver.ReturnAfterInvalidationWitness | packages/security-core/src/external-key-provider.ts:206-220 | a resolve that completes after an invalidation with the material from before it |
| GuardedTools.AtMostOnce | packages/runtime-core/src/guarded-tools.ts:175-206 | in every reachable state the side effect was called at most once for each tenant and idempotency key |
| GuardedTools.OtherFingerprintNeverRuns | packages/runtime-core/src/guarded-tools.ts:186-192 | an action with another fingerprint under a remembered key never runs |
| GuardedTools.GuardedToolSet.Check | packages/runtime-core/src/guarded-tools.ts:248-262 | a check proof is issued exactly for a consistent answer |
| GuardedTools.GuardedToolSet.Revalidate | packages/runtime-core/src/guarded-tools.ts:264-286 | a ready proof is issued exactly for a fresh answer to an issued check, with the observed version |
| GuardedTools.GuardedToolSet.Act | packages/runtime-core/src/guarded-tools.ts:288-329 | the full decision table of act: only a new key within the bound, with a ready proof, schedules an action |
| GuardedTools.GuardedToolSet.PerformAction | packages/runtime-core/src/guarded-tools.ts:331-345 | the side effect of a scheduled action is called once |
| GuardedTools.GuardedToolSet.CompleteAction | packages/runtime-core/src/guarded-tools.ts:316-323 | completing never fails, and the stored result never changes afterwards |
| TopK.SortedUnique | packages/index-hybrid/src/index.ts:429-434 | the public order is total, so a set of results has one ranking |
| TopK.BestIsPrefix | packages/index-hybrid/src/index.ts:591-607 | sorting the best results is the same as sorting all and taking the first |
| TopK.FirstAreTop | packages/index-hybrid/src/index.ts:605-607 | the first results of the ranking have the highest scores, ties broken by lexical part, vector part and the smaller id, and nothing left out would come before any of them |
| TopK.SiftWorstUp | packages/index-hybrid/src/index.ts:450-458 | restores the heap upwards and keeps the same results |
| TopK.SiftWorstDown | packages/index-hybrid/src/index.ts:460-472 | restores the heap downwards and keeps the same results |
| TopK.InsertTopK | packages/index-hybrid/src/index.ts:436-448 | after each offer the heap has exactly the best of all offered results |
| HybridIndexing.UnmatchedScoresZero | packages/index-hybrid/src/index.ts:321-340 | a document without a query token has no lexical score |
| HybridIndexing.CandidatesAreEnough | packages/index-hybrid/src/index.ts:578-583 | with a zero vector weight the inverted index's candidates have every hit |
| HybridIndexing.ScoreMeaning | packages/index-hybrid/src/index.ts:596-602 | the score lies between the normalised lexical part, below one, and the positive cosine; a part without weight does not bear on it |
| HybridIndexing.MoreIsHigher | packages/index-hybrid/src/index.ts:596-602 | of two documents with the same vector part the one with more lexical score scores higher |
| HybridIndexing.OftenIsMore | packages/index-hybrid/src/index.ts:321-340 | a token adds more the more often a document has it |
| HybridIndexing.LongIsLess | packages/index-hybrid/src/index.ts:321-340 | and less the longer the document is |
| HybridIndexing.RareIsMore | packages/index-hybrid/src/index.ts:321-340 | and more the fewer documents have it, for a logarithm that grows |
| HybridIndexing.Bm25Sum | packages/index-hybrid/src/index.ts:321-340 | the lexical score does not depend on the order of the query's tokens |
| HybridIndexing.UniqueOnce | packages/index-hybrid/src/index.ts:244-246 | each token of the query counts once |
| HybridIndexing.RankedListsAll | packages/index-hybrid/src/index.ts:591-607 | the ranking lists every scored document once in the public order |
| HybridIndexing.HybridIndex.AddStatistics | packages/index-hybrid/src/index.ts:665-673 | after adding a document the postings, frequencies and total length are those recomputed from the documents |
| HybridIndexing.HybridIndex.RemoveStatistics | packages/index-hybrid/src/index.ts:675-686 | after removing a document they are again those recomputed |
| HybridIndexing.HybridIndex.Upsert | packages/index-hybrid/src/index.ts:513-526 | the step after the await: stores a document unless its dimension differs from that of then, and keeps the statistics exact |
| HybridIndexing.HybridIndex.Delete | packages/index-hybrid/src/index.ts:535-542 | removes exactly one document and keeps the statistics exact |
| HybridIndexing.HybridIndex.Clear | packages/index-hybrid/src/index.ts:557-563 | empties the index |
| HybridIndexing.HybridIndex.Scan | packages/index-hybrid/src/index.ts:594-607 | the bounded scan gives the first results of the full ranking of the candidates |
| HybridIndexing.HybridIndex.BeginSearch | packages/index-hybrid/src/index.ts:565-584 | before the query is embedded: refuses exactly the invalid requests; the candidates are documents of that moment and enough for every query with these tokens |
| HybridIndexing.HybridIndex.FinishSearch | packages/index-hybrid/src/index.ts:586-608 | after it: returns exactly the first results of a full scan of those candidates in the public order, whatever became of them, with the statistics of now; these are those of the documents of now if the same ones hit; otherwise the dimension errors, or the missing average of an emptied index |
| HybridIndexing.HybridIndex.QueryToldOf | packages/index-hybrid/src/index.ts:586-602 | the scores use the number of documents, how many have each token, and their average length |
| HybridIndexing.SameHitsIff | packages/index-hybrid/src/index.ts:586-608 | two collections have the same scored hits if and only if every hit of either is in the other one, with the same score |
| HybridIndexing.SnapshotAgreesIff | packages/index-hybrid/src/index.ts:565-608 | the candidates of the beginning give the results of the documents of now, for every limit, if and only if every candidate that hits is still stored with the same score and every stored hit was a candidate |
| HybridIndexing.DeletedStillFoundWitness | packages/index-hybrid/src/index.ts:565-608 | a search that returns a document deleted while the query was embedded |
| HybridIndexing.HybridIndex.Search | packages/index-hybrid/src/index.ts:565-608 | when the index does not change meanwhile, exactly the first results of a full scan of its documents that pass the filter and score enough, in the public order, also when only candidates are scanned |
| CanonicalJson.StringRoundTrip | packages/protocol-types/src/signatures.ts:145 | reading a printed string gives the string back, for every sequence of code units |
| CanonicalJson.EscapeTable | packages/protocol-types/src/signatures.ts:145 | what is printed for each code unit: the two-character escapes, lower-case hexadecimal escapes for other control characters and single surrogates, and otherwise the unit |
| CanonicalJson.CanonRoundTrip | packages/protocol-types/src/signatures.ts:143-165 | the decoder undoes the printer, whatever follows: it gives the value with sorted keys |
| CanonicalJson.NormalAscends | packages/protocol-types/src/signatures.ts:158-161 | in what is printed the keys of every object, at any depth, ascend by code units |
| CanonicalJson.CanonUniquelyReadable | packages/protocol-types/src/signatures.ts:143-165 | two values have the same text if and only if they are equal up to key order |
| CanonicalJson.FragmentTells | packages/protocol-types/src/signatures.ts:143-165 | two values have the same fragment, or both none, if and only if both or neither are JSON and they are equal up to key order |
| CanonicalJson.CanonWellPaired | packages/protocol-types/src/signatures.ts:145 | the text has no lone surrogate, so that encoding it loses nothing |
| CanonicalJson.Utf8Injective | packages/protocol-types/src/signatures.ts:314-316 | encoding texts without lone surrogates in UTF-8 is injective |
| CanonicalJson.Utf8Forms | packages/protocol-types/src/signatures.ts:314-316 | the one, two and three byte forms: the leading bits tell the length and the others are the character |
| CanonicalJson.Utf8PairForm | packages/protocol-types/src/signatures.ts:314-316 | and the four byte form of a surrogate pair |
| CanonicalJson.UnsignedMeaning | packages/protocol-types/src/signatures.ts:198-204 | the unsigned envelope has exactly the fields other than signatures |
| CanonicalJson.SignedBytesInjective | packages/protocol-types/src/signatures.ts:198-204 | the signed bytes determine the unsigned envelope, up to key order, and the signature metadata |
| ContextChunks.SplitOversizedWord | packages/context-engine/src/index.ts:393-415 | the parts are the word, none is empty, each fits or is one character, and a part ends only where one more character would be too much |
| ContextChunks.ChunkText | packages/context-engine/src/index.ts:417-440 | for every estimator the chunks have exactly the text's non-space characters in order, none is empty, and each fits or is one character; only a word that does not fit is broken, and no chunk of whole words could have taken the next one |
| ContextChunks.WordsApart | packages/context-engine/src/index.ts:417-421 | words are separated by white space: the words of a text are those on either side of any |
| ContextChunks.OneWord | packages/context-engine/src/index.ts:417-421 | and a text without any is one word |
| ContextChunks.FreshId | packages/context-engine/src/index.ts:469-478 | the search for a free id terminates with the first one |
| ContextChunks.DecimalValue | packages/context-engine/src/index.ts:469-476 | the numbers in unit ids are decimal, without leading zeros |
| ContextUnits.MaterializeUnits | packages/context-engine/src/index.ts:442-504 | units of a source have all of its text, each the first free id for its place in its segment, and the token count that is declared or estimated for that place, within the chunk size unless the text is one character; a segment whose trimmed text fits is one unit with that text; only zero declared for non-empty text is refused |
| ContextUnits.TrimIsTrimmed | packages/context-engine/src/index.ts:449 | trimming takes exactly the white space at both ends |
| ContextHierarchy.OneVerdict | packages/context-engine/src/index.ts:506-530 | a source's chain has exactly one verdict |
| ContextHierarchy.CycleIsEndless | packages/context-engine/src/index.ts:509-510 | meeting a source that is being visited means its chain never ends |
| ContextHierarchy.HierarchyInspector.InspectSourceHierarchy | packages/context-engine/src/index.ts:506-530 | terminates also on cycles and says exactly how the chain of parents ends |
| ContextHierarchy.HierarchyInspector.UnitHierarchy | packages/context-engine/src/index.ts:532-537 | a unit's own parent is judged by the parent's chain |
| ContextOrder.RoundRobinPermutes | packages/context-engine/src/index.ts:563-580 | taking turns over topics loses and repeats nothing |
| ContextOrder.GroupByTopic | packages/context-engine/src/index.ts:563-569 | each topic's units in order, for each topic in the order of its first unit; together they are all units |
| ContextOrder.TakeTurns | packages/context-engine/src/index.ts:571-580 | the loop over the groups terminates and takes turns |
| ContextOrder.OrderStage | packages/context-engine/src/index.ts:556-581 | a phase is permuted: sorted, or round robin over the sorted groups of its topics |
| ContextOrder.OrderedUnits | packages/context-engine/src/index.ts:546-583 | the order is a permutation in which no unit precedes one of an earlier phase, and each phase has its stage order |
| ContextTurns.TurnsInOrder | packages/context-engine/src/index.ts:571-580 | taking turns goes round by round and through the groups in order |
| ContextTurns.OrderTold | packages/context-engine/src/index.ts:546-583 | each unit precedes all later ones: by phase; within a phase summaries first, then higher score, fewer tokens, earlier place; or, with diversity, by how many units of its topic come before it, and then by the topics' first units |
| ContextOrder.ParentsCompeteFirstIff | packages/context-engine/src/index.ts:766-771 | a unit comes after a unit of its parent source in every order by phase if and only if that one is less deep, or is a summary as deep as a detail |
| ContextOrder.ParentsCompeteFirst | packages/context-engine/src/index.ts:766-771 | and so it does whenever that one has its own source's parent |
| ContextOrder.ChildCompetesFirstWitness | packages/context-engine/src/index.ts:532-537 | two units in a hierarchy in which the child comes before a unit of its parent source |
| ContextSelect.Deduplicate | packages/context-engine/src/index.ts:773-802 | of the units that are not blocked the best of each dedupe key stays pending and the others are its duplicates |
| ContextSelect.Pack | packages/context-engine/src/index.ts:804-849 | greedy packing stays within budget and limits with parents first; every competing unit has the verdict that follows from what was selected before it |
| ContextSelect.Select | packages/context-engine/src/index.ts:717-886 | every unit is selected or skipped exactly once; the units compete in the order by phase and rank or turns; the selection fits, shares no dedupe key and has parents before children; what was skipped for budget or limits could not be added; a unit skipped for its parent has a parent that is not selected in the end, if parents have earlier phases than their children |
| ContextSelect.ParentSkipIff | packages/context-engine/src/index.ts:818-822 | the parent of a unit skipped for it is selected in the end if and only if a later unit of that source is |
| ContextEngine.PhaseUnits | packages/context-engine/src/index.ts:766-771 | every unit gets the depth, the phase and the verdict of its chain of parents |
| ContextEngine.SelectInHierarchy | packages/context-engine/src/index.ts:764-849 | selection with those phases; if no competing unit has a parent that is not its source's, no unit is skipped for a parent that is selected after all |
| ContextEngine.ChildSkippedFirstWitness | packages/context-engine/src/index.ts:764-849 | four units of which one is skipped for a parent that is selected after it |
| AuditChain.VerifyAuditChain | packages/security-core/src/index.ts:825-844 | accepts exactly the logs that are numbered from one, whose entries have their own hash and that of the entry before, whose event ids and hashes are distinct, and whose fields are well formed |
| AuditChain.LastHashDetermines | packages/security-core/src/index.ts:825-844 | two accepted logs with the same last hash are equal entry by entry, or show a collision of the hash |
| AuditChain.TamperingIsNoticed | packages/security-core/src/index.ts:825-844 | any change that keeps the last hash is noticed, unless it shows a collision of the hash |
| AuditChain.PrefixAccepted | packages/security-core/src/index.ts:825-844 | cutting entries off the end is not noticed without the last hash |
| AuditChain.AuditLog.Append | packages/security-core/src/index.ts:870-900 | appends exactly valid new events to an accepted log, which stays accepted if and only if the new hash is none of the old ones, and on failure changes nothing |

## Left out

- HTTP servers, clients, adapters, durable stores, command lines and demo applications: input and output around the cores.
- Cryptography, key rings, signature verification and replay stores, access rules and secret sanitising.
- Envelope, event and option shape validation beyond what a modelled branch needs; a validated value is a datatype value.
- Instrumentation counters, generations used only for reporting, and the write-only map of dirty states in the frontier engine; the flag that trust recovery is required is the negation of trust.
- The eight index maps of the frontier engine are one record-valued field, and node ids are natural numbers, since only equality matters; sorted listings are sets.
- FrontierEngine.IncrementalFrontierEngine.Create: a constructor that throws is a static method with an outcome.
- The order of affected memories by first registration, receipts, and the events emitted by registration and invalidation; a reused event id that makes an emission throw is therefore not modelled.
- SourceInvalidation.PremiseRuntime.SignalSourcesChanged: the single-change and the batch path, which do the same to the store, are one method on a set of sources.
- The journal's checkpoint contents and its digest; a checkpoint is its cursor, and replacing its file is atomic.
- The lease and key texts are checked for common white space only, not for every Unicode space.
- GuardedTools.GuardedToolSet.Act: proofs are handles instead of weakly held objects, and all tools sharing a store are one class with the tool's number in each key.
- Flights of the single flight, the key resolver and the guarded tool are values in a sequence field, replaced instead of updated in place.
- SingleFlight.FencedSingleFlightCoordinator.Validate: the normalisation of requests; a scope is the normalised one, with its lists as sets, and NUL-joined or JSON keys are tuples.
- HybridIndexing.HybridIndex.FinishSearch: what the code returns for an index that was emptied meanwhile, where some scores are not numbers, is one result; the returned explanations are left out.
- Metadata filters of the hybrid index are an arbitrary predicate, and tokenisers and white-space trimming of the query are arguments.
- ContextEngine.SelectInHierarchy: freshness verdicts are given for each unit, and the units are given in their places instead of being made from the sources' texts by `MaterializeUnits`.
- Context text is a sequence of characters with four kinds of white space; token estimators that throw, scores and freshness computation from dates are left out.
- CanonicalJson.CanonRoundTrip: values are finite trees, so the refusal of cyclic objects is not modelled.
- AuditChain.AuditLog.Append: the data of an entry is its canonical text; sanitising and freezing are left out.
- Bounded receipt and negative caches, the ordered continuity assessment, the policy planner, the relational stores and the remaining Python references: they would add smaller members of the same kinds.
