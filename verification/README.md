# A verified model of the memory engine

The engine keeps canonical records in a store, mirrors the live ones in a vector index, derives an entity graph from
them, and shares session state between concurrent writers. This project models that core in Dafny and proves what the
parts keep when they work together, when calls fail half-way, and when writers race.

| file | what it models |
|---|---|
| `Domain.dfy` | scopes, records, queries, and what counts as an answer to a query |
| `Sorting.dfy` | the sort-and-cut behind every list result, and when its result is unique |
| `Fingerprint.dfy` | the one-pass text normaliser against a word-level specification |
| `Dedup.dfy`, `Conflict.dfy` | the deduplication cascade; contradiction analysis and its policy |
| `Machine.dfy` | the engine as a state machine: an operation is a list of provider calls that can be cut short anywhere |
| `Evolution.dfy`, `Outcomes.dfy` | what no call ever breaks; the state each completed operation ends in |
| `Effects.dfy` | what each completed operation does to rows, index and edges, field by field |
| `History.dfy`, `Safety.dfy` | theorems about runs: supersession, rows and live versions |
| `Uniqueness.dfy`, `Facts.dfy` | one live fact per subject: what storing, merging and updating do to it; every stop, every scope, every run |
| `Agreement.dfy`, `Reconcile.dfy` | theorems about runs: index and graph against the store, repair and sweep |
| `Completeness.dfy`, `Gaps.dfy` | which active records are indexed; the stops that leave one outside, over every run |
| `Faults.dfy`, `Witnesses.dfy` | what cut-short operations expose and how repair heals it; runs that reach the failing side of the conditions |
| `Stores.dfy`, `Engine.dfy` | the in-process providers and the engine as classes, each operation a move of the machine |
| `Nearest.dfy` | semantic recall: what is shown of the nearest vectors, and when that is the exact answer |
| `Recall.dfy`, `Ranking.dfy` | the hybrid executor, ranking, and recall under a principal; what weights, fading and steps mean |
| `Session.dfy`, `Working.dfy`, `Resets.dfy` | session payloads; the compare-and-set protocol and its retry loop; sessions set anew or dropped meanwhile |
| `Breaker.dfy`, `Budget.dfy`, `LocalStore.dfy` | circuit breaker, budget split, namespaced keys in one shared table |

An operation reads, then performs a fixed list of calls (`Machine.Calls`). A `Move` is an operation that performed some
prefix of its list, so a run of moves covers every failure and every lost reply. The class `Engine.MemoryEngine` issues
the calls one at a time against the provider classes; each call may fail before or after it takes effect. Every method
of the class ensures that it made a move of the machine, and which one; with `reliable` set no call fails and the
operation owes its answer. The theorems are then about all runs of moves.

Where a stronger statement fails the code is kept as it is, and the exact condition is proved; for most there is also a
run or an input that reaches the failing side:

* The normaliser is idempotent on a text exactly when lowercasing its letters gives letters again; on U+0130 it does
  not (`crates/memory-dedup/src/signals.rs:14-31`).
* A merge stores the successor of the *incoming* record, so the identifier in `supersedes` is never stored, and the
  successor is not indexed (`crates/memory-core/src/engine.rs:424-439`).
* A conflict replacement closes the old fact first; cut short in between, no fact is live (`engine.rs:455-501`).
* `purge` deletes the row first; cut short, it strands vector and edges. It also drops the vector of a record that the
  scope does not see (`engine.rs:693-701`).
* `update` does not look at the status of the record it revises; on a record that is not live it is safe exactly when no
  other fact is live under the key (`engine.rs:580-615`).
* `update` stores its successor as an agent's statement, so a claim that could not take the place of a user's fact can
  take that of the updated one (`crates/memory-domain/src/record.rs:155-165`).
* Of the 0.45 that recency, importance, confidence and authority weigh together only 0.402 can differ, because authority
  lies between 0.5 and 0.9: similarity decides a ranking from a gap of 201/275 on, and from no smaller one
  (`crates/memory-retrieval/src/scoring.rs:27-35`).
* Semantic recall is the exact top k only as long as no more matches die at hydration than it fetched beyond top k
  (`engine.rs:632-668`).
* With an organization pinned, semantic recall drops live vectors of other organizations, because the mirrored metadata
  has no organization (`engine.rs:260-275`, `engine.rs:661-664`).
* Cut short, a merge leaves two live facts, and so does an update of the live one; under conflict resolution a write
  leaves two exactly when its scope does not contain that of the live fact (`engine.rs:424-501`, `engine.rs:600-612`).
* Repair converges exactly when at most 1,000 records are active (`crates/memory-core/src/reliability.rs:109`).
* A sweep reads its 1,000 newest candidates, due or not. A due record is passed over exactly when 1,000 candidates are
  newer, and sweeping again does not reach it while those stay (`crates/memory-lifecycle/src/sweep.rs:80-88`).
* Index, graph and store stop agreeing exactly when a `forget` or a visible `purge` is cut short before the call that
  removes an existing vector or edge, or a replacement between closing an indexed fact and dropping its vector. The first
  and the last can make the executor return that one row, whose status it does not check (`engine.rs:455-701`).
* Setting session state anew restarts the revision at 1. A swap begun before undoes it exactly when the revision it read
  is 1 plus the commits since (`engine.rs:731`).
* A push keeps the stored lists exactly when all four are well typed or there was nothing in them; otherwise they read as
  empty and are stored so (`crates/memory-provider-api/src/working.rs:145-147`).
* The running total of the budget split stays within 32 bits exactly when the shares sum to less than 2^32
  (`crates/memory-retrieval/src/planner.rs:228-249`).

## Model

| member | source | states |
|---|---|---|
| Agreement.RunAgrees | crates/memory-core/src/engine.rs:282-700 | in every failure-free run, dedup on or off, each indexed id is a stored active or archived record, its vector is the embedding of the text of that record and its metadata decides what scopes find it, the organization aside; each edge's evidence is a stored record that is not deleted |
| Gaps.RunStaysComplete | crates/memory-core/src/engine.rs:282-343 | with dedup off, in every failure-free run of careful operations, every active record is indexed, and its vector is the embedding of its text |
| Gaps.StaysCompleteIff | crates/memory-core/src/engine.rs:424-439 | a completed operation keeps every active record indexed if and only if it is no merge, no unindexed write, no purge or erase of an active record outside the scope, no repair over more than 1,000 active records, and drops no active id in recall |
| Gaps.MoveLeavesNoGapIff | crates/memory-core/src/engine.rs:282-701 | from a complete index, after whatever failures, a move that performed some prefix of its calls leaves every active record indexed if and only if it stopped at none of the gaps: between put and index, between dropping a vector and retiring or deleting its row, after the put of a merge, or with a vector dropped of a record that stays active |
| Gaps.RunLeavesNoGapIff | crates/memory-core/src/engine.rs:282-701 | over every run from the empty engine, failures included, the index is complete all along if and only if no move stops at a gap |
| Agreement.FilterIsScope | crates/memory-core/src/engine.rs:255-275 | the metadata filter decides scope containment in every dimension but the organization |
| Completeness.GhostsAreForeign | crates/memory-core/src/engine.rs:640-666 | where index and store agree, a match of semantic recall is invisible, and so dropped, if and only if it belongs to another organization than the pinned one |
| Agreement.MoveAgreesIff | crates/memory-core/src/engine.rs:455-701 | after any move from agreement, cut short or not, index and graph agree with the store if and only if it is no forget and no visible purge stopped past its first call with an existing vector or edge still in place, and no replacement stopped between closing an indexed fact and dropping its vector |
| Agreement.RunStaysHonest | crates/memory-core/src/engine.rs:282-701 | over every run, failures included, an entry that has a row holds the embedding of that row's text under metadata that mirrors its scope, the organization aside, and that row is not quarantined |
| Faults.MoveExposesExactly | crates/memory-core/src/engine.rs:464-490 | after any move from agreement the index leads to exactly these rows that recall must not show: the tombstone of a forget or the closed fact of a replacement that stopped after its first call with that row indexed |
| Faults.RepairHealsIff | crates/memory-core/src/reliability.rs:90-148 | after any run with failures a completed repair leaves only entries of active records, each with the embedding of the record's text, and every active record indexed if and only if they are at most 1,000 |
| Witnesses.IndexedTombstone | crates/memory-core/src/engine.rs:672-690 | a run from the empty engine on which a forget cut short breaks agreement |
| Witnesses.DroppedForeignVector | crates/memory-core/src/engine.rs:655-666 | a run from the empty engine on which recall under another organization drops a live vector |
| Witnesses.StrandedVector | crates/memory-core/src/engine.rs:693-701 | a run from the empty engine on which a purge cut short strands a vector |
| Witnesses.TwoLiveFacts | crates/memory-core/src/engine.rs:586-592 | a run from the empty engine on which updating a retired record leaves two live facts |
| Witnesses.RepairFallsShort | crates/memory-core/src/reliability.rs:100-126 | a run from the empty engine, for any number of active records above 1,000, after which repair leaves one of them outside the index |
| Witnesses.SweepFallsShort | crates/memory-lifecycle/src/sweep.rs:72-145 | a run from the empty engine, for any number of lapsed records above 1,000, that ends with a completed sweep leaving one of them stored |
| Evolution.RunEvolves | crates/memory-domain/src/record.rs:155-165 | over every run, failures included, identifiers are fresh, a predecessor was generated strictly earlier, a stored record keeps all its fields but status, update time and end of validity, and no record that left Active returns to it |
| History.HistoryAlwaysEnds | crates/memory-core/src/engine.rs:703-723 | in every reachable state a history is linked record by record, ends at the requested id, repeats nothing and is no longer than the store |
| History.HistoryIsUnique | crates/memory-core/src/engine.rs:703-723 | a linked list of visible records that ends at the id and cannot be extended backwards is the history, so nothing else could be returned |
| History.HistoryAfterUpdates | crates/memory-core/src/engine.rs:580-615 | after any run that deletes no version physically, the history of the latest version holds exactly the first record and one record for each completed update, texts in update order |
| History.RememberedIsUnpreceded | crates/memory-core/src/engine.rs:321-343 | what a completed remember stored, merged records included, has the text and scope of the write and no visible predecessor |
| History.HistorySinceRemember | crates/memory-core/src/engine.rs:321-723 | in any run after a remember that deletes no version physically, the history of the latest version starts with the remembered text and has one record more for each completed update, in update order |
| History.MergeLinksToNothing | crates/memory-core/src/engine.rs:424-439 | a merged record names a predecessor that is not stored and never will be |
| Safety.RunKeepsRows | crates/memory-lifecycle/src/sweep.rs:160-168 | over every run in which any call may fail and purge is not used, each vector and each edge has a canonical row |
| Safety.PurgeStrandsIff | crates/memory-core/src/engine.rs:693-701 | with whatever providers are attached, a purge cut short leaves an entry without a row exactly when it did delete the row and had not reached the removal of an existing vector or edge |
| Safety.UpdateKeepsALiveVersion | crates/memory-core/src/engine.rs:586-612 | wherever an update stops, the record or a successor that names it is active if the record was |
| Safety.MergeKeepsALiveVersion | crates/memory-core/src/engine.rs:424-439 | wherever a merge stops, its target or the merged record on the same subject is active |
| Safety.ReplaceKeepsALiveFactIff | crates/memory-core/src/engine.rs:464-490 | a replacement cut short leaves the old or the new fact active exactly before its first call and from the put of the new row on |
| Facts.RunIsUnique | crates/memory-core/src/engine.rs:455-501 | with conflict resolution on, dedup on or off, writes in one scope and updates of active records keep at most one active record for each type and subject in every failure-free run |
| Facts.MoveIsUniqueIff | crates/memory-core/src/engine.rs:321-612 | from unique facts a move, cut short or not, keeps them unique if and only if its stop allows it: a remembered write under conflict resolution whose scope contains that of the live fact, any write under a free key, a merge that performs none or all of its calls, an update that does so of the live fact or finds no fact live; every other operation always does |
| Facts.RunIsUniqueIff | crates/memory-core/src/engine.rs:321-612 | over every run from the empty engine, whatever its scopes, configuration and failures, facts are unique all along if and only if every move is one of those |
| Facts.MergeStopIsUniqueIff | crates/memory-core/src/engine.rs:424-439 | a merge onto the live fact keeps facts unique if and only if it performs none or all of its calls |
| Facts.WriteStopIsUniqueIff | crates/memory-core/src/engine.rs:455-501 | wherever it stops after its first call, a write under conflict resolution keeps facts unique if and only if its scope contains the scope of every live fact under its key, and without it if and only if the key is free |
| Uniqueness.ReviseIsUniqueIff | crates/memory-core/src/engine.rs:586-612 | an update keeps facts unique if and only if the record it names is active or no active record shares its key |
| Facts.UpdateIsUniqueIffWhole | crates/memory-core/src/engine.rs:600-612 | an update of the live fact keeps facts unique if and only if it performs none or all of its calls |
| Reconcile.RepairReconciles | crates/memory-core/src/reliability.rs:90-148 | a completed repair leaves exactly the records it read indexed, surviving vectors untouched, new ones with the embedding of the record's text and the mirror of its scope, and its two counts are the sizes of the set differences |
| Reconcile.RepairConvergesIff | crates/memory-core/src/reliability.rs:100-126 | from any store and index, repair leaves exactly the active, currently valid records indexed if and only if they are at most 1,000 |
| Reconcile.RepairIsStable | crates/memory-core/src/reliability.rs:90-148 | a second repair right after removes and adds nothing |
| Reconcile.SweepIsExact | crates/memory-lifecycle/src/sweep.rs:72-145 | with at most 1,000 records of any status in sight of the scope, a sweep removes exactly the ephemeral and session ones whose deadline has come from the store and from whatever index and graph are attached, archives exactly the active standard ones whose deadline came 604,800 seconds ago, and changes nothing else |
| Reconcile.SweepIsStable | crates/memory-lifecycle/src/sweep.rs:72-145 | with whatever providers are attached, a second sweep at the same instant acts on nothing |
| Reconcile.SweepActsOnAnswer | crates/memory-lifecycle/src/sweep.rs:72-145 | with any number of candidates a completed sweep removes and archives, by the same conditions on deadline, class and status, those its query answered with, and no others |
| Reconcile.SweepSpares | crates/memory-lifecycle/src/sweep.rs:99-145 | whatever the number of candidates, a record without a deadline, with a deadline to come, or permanent stays as it was in store, index and graph; a row that changes is an active standard one whose deadline came 604,800 seconds ago, and is archived |
| Reconcile.NothingDueStays | crates/memory-lifecycle/src/sweep.rs:72-145 | with at most 1,000 candidates no ephemeral or session record in sight of the sweep outlives its deadline, in store, index or graph |
| Reconcile.SweepReachesIff | crates/memory-lifecycle/src/sweep.rs:80-100 | over distinct creation times a sweep acts on a due record if and only if fewer than 1,000 candidates are newer |
| Reconcile.SweepsWorkOff | crates/memory-lifecycle/src/sweep.rs:72-145 | a completed sweep takes exactly what it read off the due records, so each one that acts leaves fewer and repeated sweeps at one instant end |
| Reconcile.SweepStallsIff | crates/memory-lifecycle/src/sweep.rs:72-145 | over distinct creation times a sweep acts on nothing if and only if every due record has 1,000 newer candidates |
| Reconcile.ReportIsExact | crates/memory-lifecycle/src/sweep.rs:14-33 | the report names each record the sweep had to remove and each it had to archive once, and no other; it counts as skipped the permanent ones that are valid or past a deadline and the archived standard ones past theirs |
| Outcomes.RememberStoresItsReply | crates/memory-core/src/engine.rs:321-343 | what a completed remember answers is what the store holds afterwards: the duplicate it met or the record as it was kept |
| Outcomes.RemovalResult | crates/memory-core/src/engine.rs:693-701 | completed, purge and coordinated deletion end in the same state, though in another order of calls |
| Effects.UnopposedWrite | crates/memory-core/src/engine.rs:282-343 | with no fact against it a completed write stores one active record with the fields of the draft, indexes the embedding of its text, links the relations of its subject and text, and changes nothing else |
| Effects.PrevailingWrite | crates/memory-core/src/engine.rs:455-490 | against the newest live fact of its type and subject a write that negates, ranks higher by source, or has the same source and no lower confidence closes that fact, drops its vector and takes its place, unlinked |
| Effects.YieldingWrite | crates/memory-core/src/engine.rs:492-497 | any other write against a fact is stored quarantined, and nothing else changes |
| Effects.OpposedWriteIff | crates/memory-conflict/src/resolution.rs:80-160 | without negation the fact is retired and the new record live if and only if, with equal sources, the new confidence is no lower, and else the new source comes first of user, external, tool, system, agent; otherwise the new record is quarantined and the fact as it was |
| Effects.UpdateDropsAuthority | crates/memory-domain/src/record.rs:155-165 | after an update a claim by anyone but an agent replaces the fact, and an agent's does if it is as confident, whoever stated the fact before |
| Effects.IgnoredIff | crates/memory-core/src/engine.rs:369-423 | over distinct creation times a deduplicated write is ignored if and only if a live record of its type in its scope says the same and fewer than 20 such records are newer; it then changes nothing and answers with one that says the same |
| Effects.SimilarityDecides | crates/memory-dedup/src/engine.rs:84-125 | a deduplicated write that is not ignored is merged, held for review or let through as the first most similar candidate decides |
| Effects.MergeFields | crates/memory-core/src/engine.rs:424-439 | a completed merge stores a record with the fields of the draft that names an identifier never stored, unindexed; the target is superseded and leaves the index; edges stay |
| Effects.ReviewFields | crates/memory-core/src/engine.rs:440-445 | a write held for review is stored quarantined, and nothing else changes |
| Effects.UpdateFields | crates/memory-core/src/engine.rs:580-615 | a completed update stores and indexes a record with the new text in the place of the old, confidence and importance as given within the unit interval or else inherited, source agent; the old one is superseded and leaves the index; edges stay |
| Effects.ForgetFields | crates/memory-core/src/engine.rs:672-690 | forgetting a visible record leaves its tombstone and nothing that points at it |
| Effects.RemovalFields | crates/memory-core/src/engine.rs:693-701 | a completed purge or erasure removes the row if the scope sees it, and its vector and edges in any case |
| Engine.MemoryEngine.Perform | crates/memory-core/src/engine.rs:282-311 | one provider write fails before or after it takes effect, the engine knows only that it failed, and without failures it succeeds unless it updates a row that is missing |
| Engine.MemoryEngine.Remember | crates/memory-core/src/engine.rs:321-343 | remember is a move of the machine, completed when it answers, and its answer is the one the decision calls for; it fails only on an invalid text or a failing call |
| Engine.MemoryEngine.Replace | crates/memory-core/src/engine.rs:464-490 | the contradicted fact is closed and dropped before the new one is stored and indexed, and a failure stops in between |
| Engine.MemoryEngine.Merge | crates/memory-core/src/engine.rs:424-439 | the merged record is stored, the target dropped from the index and then retired, and a failure stops in between |
| Engine.MemoryEngine.Update | crates/memory-core/src/engine.rs:580-615 | update is a move that revises the record, completed when it answers with the successor; a blank text and an invisible record are refused, and the latter leaves everything unchanged |
| Engine.MemoryEngine.Supersede | crates/memory-core/src/engine.rs:600-612 | the successor is stored and indexed before the predecessor leaves the index and is retired, and a failure stops in between |
| Engine.MemoryEngine.Forget | crates/memory-core/src/engine.rs:672-690 | forget is a move, and answers true exactly for a visible record that is no tombstone yet |
| Engine.MemoryEngine.Purge | crates/memory-core/src/engine.rs:693-701 | purge is a move of the machine, completed when it answers |
| Engine.MemoryEngine.CoordinateDelete | crates/memory-lifecycle/src/sweep.rs:160-168 | what points at the row goes before the row, and a failure stops in between |
| Engine.MemoryEngine.WriteUnindexed | crates/memory-core/src/engine.rs:314-318 | an unindexed write stores the record and touches neither index nor graph |
| Engine.MemoryEngine.HistoryOf | crates/memory-core/src/engine.rs:703-723 | the cursor loop returns the history of the id, nothing for an invisible one, and an error only when one of its reads fails |
| Engine.MemoryEngine.RunRetentionSweep | crates/memory-lifecycle/src/sweep.rs:72-145 | the sweep loop is a move that reports what it did |
| Engine.MemoryEngine.RepairVectorIndex | crates/memory-core/src/reliability.rs:90-148 | the repair loops are a move that counts ghosts removed and vectors added; without an index or an embedder repair is unsupported |
| Engine.MemoryEngine.SemanticRecall | crates/memory-core/src/engine.rs:622-669 | the answer is the nearest vectors under the scope filter, each with its row when that is visible, live and valid, cut to top k; matched ids that are not visible leave the index, and nothing else changes |
| Nearest.ShownAreMatches | crates/memory-core/src/engine.rs:650-661 | what semantic recall shows is a match whose row is stored, visible, live and valid |
| Nearest.ShownIsRanked | crates/memory-core/src/engine.rs:650-668 | semantic recall shows each record once, by falling similarity |
| Nearest.RecallIsSound | crates/memory-core/src/engine.rs:622-669 | in every run, failures included, semantic recall answers active stored records inside the scope and their window, each once, by falling similarity of the query to their own text, all positive, and at most top k |
| Nearest.RecallIsExact | crates/memory-core/src/engine.rs:632-668 | and it is the exact top k as long as no more matches die than are fetched beyond top k: an indexed record it could show is left out only for top k others that are all at least as similar |
| Nearest.FewDie | crates/memory-core/src/engine.rs:650-666 | after failure-free runs the matches that die are those of archived records and of another organization than the pinned one |
| Engine.HybridRecall | crates/memory-core/src/planning.rs:32-42 | hybrid recall by an engine over its own store and index, in whatever run it got there: stored records inside the scope, none of them quarantined, and only active or archived ones when no operation was cut short |
| Dedup.Evaluate | crates/memory-dedup/src/engine.rs:38-125 | the loop over candidates decides as the cascade says: first duplicate, else the first most similar candidate |
| Dedup.DecisionIsUnique | crates/memory-dedup/src/engine.rs:38-125 | the cascade admits one decision for each input |
| Dedup.IgnoredIff | crates/memory-dedup/src/engine.rs:54-82 | a write is ignored if and only if a candidate has its subject and text, or its type and the same words |
| Dedup.MostSimilarDecides | crates/memory-dedup/src/engine.rs:84-125 | otherwise the first most similar candidate decides: merged on the same open subject from 0.9 on, held for review from 0.8 up to 0.9, else linked on the same subject and added on another |
| Dedup.MergeIsAnchored | crates/memory-dedup/src/engine.rs:84-125 | similarity alone never merges: the target shares the subject, and nothing duplicates the incoming text |
| Conflict.ResolveAll | crates/memory-core/src/engine.rs:455-501 | the loop over facts acts on the first one that does not let the write through |
| Conflict.DominanceIsTotalPreorder | crates/memory-conflict/src/resolution.rs:153-160 | dominance is a total preorder: users over external sources over tools over the system over agents, and by confidence between equal sources |
| Conflict.SameSubjectNeverWrites | crates/memory-conflict/src/resolution.rs:80-151 | against facts on its own subject a record is never simply written beside them; without negation and from the same source as the first of them it replaces that one if and only if its confidence is no lower |
| Fingerprint.Normalize | crates/memory-dedup/src/signals.rs:14-31 | the one-pass loop equals: split on white space, keep letters and digits in lower case, drop empty words, join with single spaces |
| Fingerprint.AgreeIffSameWords | crates/memory-dedup/src/signals.rs:14-31 | two texts have one normal form if and only if their word lists agree |
| Fingerprint.IdempotentIff | crates/memory-dedup/src/signals.rs:14-31 | normalising is idempotent on a text if and only if every letter of it lowers to letters and digits |
| Fingerprint.NotAlwaysIdempotent | crates/memory-dedup/src/signals.rs:20-24 | on U+0130, which lowers to a letter and a combining dot, it is not |
| Stores.InMemoryStore.Put | crates/providers/provider-local/src/memory.rs:51-57 | put overwrites the row of the id and nothing else |
| Stores.InMemoryStore.Get | crates/providers/provider-local/src/memory.rs:59-65 | get finds exactly a stored row inside the scope |
| Stores.InMemoryStore.Update | crates/providers/provider-local/src/memory.rs:67-74 | update overwrites an existing row and fails with NotFound otherwise |
| Stores.InMemoryStore.Delete | crates/providers/provider-local/src/memory.rs:76-85 | delete removes a row the scope sees and is a no-op otherwise |
| Stores.InMemoryStore.Query | crates/providers/provider-local/src/memory.rs:87-99 | a query gives matching rows once each, newest first, cut at the limit with nothing newer left out, and rejects a bad limit or a blank needle |
| Stores.AnswerIsUnique | crates/providers/provider-local/src/memory.rs:87-99 | over distinct creation times a query has one answer |
| Domain.AnswerIsComplete | crates/providers/provider-local/src/memory.rs:87-99 | the sorted and cut answer is all matching rows if and only if they fit under the limit |
| Domain.AnswerHoldsIff | crates/providers/provider-local/src/memory.rs:87-99 | over distinct creation times a matching row is in the answer if and only if fewer matching rows than the limit are newer |
| Domain.AnswerFields | crates/providers/provider-local/src/memory.rs:87-99 | each record of an answer meets every constraint on scope, type, status, subject, keyword and validity window; a row that does and is left out is no newer than any of the limit many that are there |
| Stores.InMemoryVectorStore.Search | crates/providers/provider-local/src/vector_memory.rs:63-85 | a search gives the closest qualifying vectors with their scores, none left out that is closer |
| Stores.InMemoryVectorStore.Upsert | crates/providers/provider-local/src/vector_memory.rs:52-61 | upsert overwrites the vector of the id and nothing else |
| Stores.InMemoryGraphStore.AddRelation | crates/memory-graph/src/store.rs:70-79 | adding a relation twice is adding it once |
| Stores.InMemoryGraphStore.RemoveEvidence | crates/memory-graph/src/store.rs:103-109 | exactly the edges justified by the memory go |
| Recall.HybridExecutor.Execute | crates/memory-retrieval/src/executor.rs:59-123 | succeeds if and only if no step fails, and then ranks exactly what the steps contributed, at the instant asked for or else now; each hit is a row inside the scope that is live or that a vector led to |
| Recall.HybridExecutor.RunStep | crates/memory-retrieval/src/executor.rs:125-229 | a step contributes an answer of the store with one fixed similarity, or the nearest vectors' visible rows, and fails for the stated reasons only |
| Recall.MergeHits | crates/memory-retrieval/src/executor.rs:77-86 | merging keeps one candidate for each id, with its highest similarity |
| Recall.Rank | crates/memory-retrieval/src/executor.rs:88-122 | merging, dropping, sorting and cutting computes the ranking of the set of hits, in whatever order a hash map yields them |
| Recall.RankingIsUnique | crates/memory-retrieval/src/executor.rs:88-122 | a set of hits has one ranking |
| Ranking.RankingMeans | crates/memory-retrieval/src/executor.rs:77-122 | a ranking stays within the budget and names a record once; an entry is a hit that no hit supersedes, scored with 0.55 of its highest similarity, 0.15 of recency, 0.12 of importance, 0.10 of confidence and 0.08 of authority, times its temporal relevance; by score, then newest, then identifier |
| Ranking.Marginals | crates/memory-retrieval/src/scoring.rs:27-35 | a change of one component alone moves the score by its weight times the change times the relevance |
| Ranking.RelevanceMeans | crates/memory-retrieval/src/scoring.rs:100-120 | a retrievable record within its window counts in full; outside it the relevance times one and the distance in thirty-day months is one, down to a twentieth at 19 months |
| Ranking.SimilarityDecides | crates/memory-retrieval/src/scoring.rs:68-80 | at equal relevance a hit more similar than every hit of a ranked record by over 201/275 is ranked before it, whatever the other components are |
| Ranking.GapIsSharp | crates/memory-retrieval/src/scoring.rs:68-80 | at every gap up to 201/275 there are two hits of which the less similar one comes first |
| Ranking.StoreStepMeans | crates/memory-retrieval/src/executor.rs:150-192 | a store step contributes active rows of the scope that hold at its instant, of its types, with the subject or the keyword, at similarity 0.95 or 0.7, up to its limit and at least one, and leaves out none that is newer |
| Ranking.VectorStepMeans | crates/memory-retrieval/src/executor.rs:194-229 | a semantic step contributes rows of the scope with the similarity of their vector to the query, positive and of its dimensions, whatever their status, and leaves out none that is closer |
| Ranking.FailureMeans | crates/memory-retrieval/src/executor.rs:125-229 | a step fails for the lack of an embedder, a provider that does not answer, a blank keyword or a limit above 1,000, and for nothing else |
| Recall.StepOrderIsIrrelevant | crates/memory-retrieval/src/executor.rs:71-86 | running the steps in another order changes no ranking |
| Recall.RankingIsStrict | crates/memory-retrieval/src/executor.rs:114-121 | score descending, then newest first, then id ascending is strict on a ranking |
| Recall.SomethingSurvives | crates/memory-retrieval/src/executor.rs:88-95 | a record survives if and only if no other candidate names it, and of a non-empty set some record survives |
| Recall.RecallKeepsSomething | crates/memory-retrieval/src/executor.rs:88-122 | in every run, failures included, hits drawn from the store rank to something whenever the budget is not zero |
| Recall.RecallIsSafe | crates/memory-retrieval/src/executor.rs:194-229 | after every failure-free run recall returns stored records that are active or archived, inside the request scope |
| Recall.RecallAfterMove | crates/memory-retrieval/src/executor.rs:194-229 | after any move from agreement recall returns active and archived records and otherwise only the row that the move exposed |
| Recall.RecallNeverShowsQuarantined | crates/memory-retrieval/src/executor.rs:194-229 | in every run, failures included, recall returns stored records inside its scope and never a quarantined one |
| Recall.ScoreIsNormal | crates/memory-retrieval/src/scoring.rs:69-119 | scores lie between zero and one, and a higher similarity never lowers one |
| Recall.IntersectIsMeet | crates/memory-domain/src/scope.rs:59-110 | intersecting scopes is the exact meet of containment, and fails if and only if no scope lies in both |
| Recall.ContainsIsPartialOrder | crates/memory-domain/src/scope.rs:59-102 | containment is a partial order |
| Recall.RecallFor | crates/memory-core/src/governance.rs:14-69 | governed recall returns exactly the entries of the ranking that the authorizer permits, in their order, all inside both scopes; it fails when the scopes contradict each other and succeeds when they do not and every step can answer |
| Session.SnapshotRoundTrip | crates/memory-provider-api/src/working.rs:145-168 | over every payload, what is merged back is what is read next |
| Session.LastMergeWins | crates/memory-provider-api/src/working.rs:151-168 | merging twice is merging the last snapshot |
| Session.AppliedFields | crates/memory-provider-api/src/working.rs:151-168 | the four lists are under their keys, and foreign fields are as they were |
| Session.ReplayedIsOneMerge | crates/memory-provider-api/src/working.rs:143-189 | any number of edits is one merge of the snapshot of all pushes |
| Session.ListsAreLogTails | crates/memory-provider-api/src/working.rs:171-197 | after any pushes a list is a suffix of what it was followed by all its items, as long as that or 50, and a list not pushed onto is as it was |
| Session.PushedItemIsLast | crates/memory-provider-api/src/working.rs:171-197 | whatever the payload, after a push the stored list is an array of at most 50 that ends in the pushed item |
| Session.ReadingIsWholeOrNothing | crates/memory-provider-api/src/working.rs:145-147 | a payload reads as four lists by key in an object, or by position in an array of at most four, absent ones empty; one ill-typed list makes all four empty |
| Session.PushCapped | crates/memory-provider-api/src/working.rs:191-197 | pushing appends the item and keeps the newest 49 before it |
| Session.SessionSnapshot.PushObservation | crates/memory-provider-api/src/working.rs:176-178 | the observations become their newest 49 followed by the new one, and the other lists stay |
| Session.SessionSnapshot.AddCheckpointRef | crates/memory-provider-api/src/working.rs:186-188 | the references become their newest 49 followed by the new one, and the other lists stay |
| Session.SessionSnapshot.MergeInto | crates/memory-provider-api/src/working.rs:151-168 | the loop over the entries merges the snapshot into the payload |
| Session.PushKeepsOtherListsIff | crates/memory-provider-api/src/working.rs:145-168 | a push onto an object leaves every other stored list as it was if and only if all four lists are well typed or those lists are empty |
| Session.PushExtendsOwnListIff | crates/memory-provider-api/src/working.rs:145-197 | a push leaves the newest 49 of the stored list it addresses followed by the item if and only if all four lists are well typed or that list is empty |
| Session.IllTypedPayloadLoses | crates/memory-provider-api/src/working.rs:145-147 | a payload with one ill-typed list on which a push empties another list |
| Working.RedisWorkingStore.CasScript | crates/providers/provider-redis/src/store.rs:24-35 | the script answers -1 without the key and -2 on another revision, changing nothing, and overwrites both fields otherwise |
| Working.RedisWorkingStore.CompareAndSet | crates/providers/provider-redis/src/store.rs:163-210 | compare-and-set does what deriving the next state says, in one step; a mismatch is reported by a later read of its own, which may fail or find a later revision |
| Working.RedisWorkingStore.Initialize | crates/providers/provider-redis/src/store.rs:212-269 | the first caller creates revision 1; a later one adopts what its own later read finds, or gets SessionNotFound when that finds nothing |
| Working.NoUpdateIsLost | crates/memory-core/src/engine.rs:804-844 | in every interleaving of any number of writers the revision is the first plus the number of commits, and each list is the suffix, as long as the whole or 50, of its first contents followed by everything committed to it in commit order |
| Working.CommitsKeepListIff | crates/memory-core/src/engine.rs:819-822 | commits onto other lists keep a stored list if and only if the session started out well typed or the list was empty |
| Working.ForeignFieldsStay | crates/memory-core/src/engine.rs:819-822 | commits touch no field but the four lists |
| Working.AcknowledgedExactlyOnce | crates/memory-core/src/engine.rs:812-838 | an acknowledged push is in the log exactly once, where its revision says, and the state it returns was the session's; a push refused for contention is not in it |
| Working.ContentionNeedsFiveCommits | crates/memory-core/src/engine.rs:812-844 | the contention error needs five other commits, one in each of five disjoint windows from read to swap |
| Working.FiveWritersNeverContend | crates/memory-core/src/engine.rs:812-844 | five or fewer writers never meet the contention error |
| Working.FiveWritersAllSucceed | crates/memory-core/src/engine.rs:804-844 | without failing calls every run is over after ten calls a writer, a writer that is not through can move, and five or fewer all end with their push committed |
| Resets.RevisionCountsCommits | crates/memory-core/src/engine.rs:726-760 | over every list of events, sets, deletions and expiries included, the stored revision is that of the last set plus the commits since |
| Resets.SwapLandsIff | crates/providers/provider-redis/src/store.rs:24-35 | a pending swap succeeds if and only if the session is there and the revision it read is that of the last set plus the commits since |
| Resets.StaleIff | crates/memory-core/src/engine.rs:812-838 | a read counts as stale if and only if the session was set or dropped between that read and now |
| Resets.StaleSwapUndoesResetIff | crates/memory-core/src/engine.rs:726-735 | a swap with a stale read undoes the set and every commit since if and only if the revision it read is that of the set plus those commits; otherwise it changes nothing |
| Resets.NoUpdateIsLostSinceReset | crates/memory-core/src/engine.rs:804-844 | as long as no stale read met its revision, each list is the suffix, as long as the whole or 50, of what the session was last set to followed by everything committed since |
| Resets.LeftAloneIsOneEpoch | crates/memory-core/src/engine.rs:804-844 | a session left alone is one epoch of its first contents in which no read is stale, so the above speaks of it too |
| Working.ResetCanBeUndone | crates/memory-core/src/engine.rs:726-735 | a run on which a stale read does meet its revision: read, set anew, swap |
| Working.SharedSession.WorkingMutate | crates/memory-core/src/engine.rs:804-844 | the retry loop is a run of the protocol among anything others do, and its answer is where that run leaves the writer |
| Breaker.FailuresSpanTheCooldown | crates/memory-reliability/src/breaker.rs:50-113 | of threshold + 1 failing invocations in a row the last starts at least the cooldown after the first ended, and the circuit is open only after threshold failures in a row |
| Breaker.FailingBackendIsSpared | crates/memory-reliability/src/breaker.rs:50-113 | a backend that fails throughout a period is invoked at most threshold times the whole cooldowns in it plus one |
| Breaker.OpenNeverInvokes | crates/memory-reliability/src/breaker.rs:50-71 | an open circuit refuses until the cooldown has passed, and the first call from then on is let through |
| Breaker.CircuitBreaker.State | crates/memory-reliability/src/breaker.rs:50-66 | reading the state makes an open circuit half open and clears the count once the cooldown has passed, and changes nothing otherwise |
| Breaker.CircuitBreaker.RecordFailure | crates/memory-reliability/src/breaker.rs:80-88 | a failure counts one, and from the threshold on it opens the circuit until the cooldown after it |
| Breaker.CircuitBreaker.RecordSuccess | crates/memory-reliability/src/breaker.rs:74-77 | a success closes the circuit and forgets the failures |
| Breaker.CircuitBreaker.Call | crates/memory-reliability/src/breaker.rs:92-113 | a call is one attempt of the sequence, invoked or refused as the sequence says |
| Budget.SplitIsFair | crates/memory-retrieval/src/planner.rs:228-249 | limits are at least one and never grow, the first is within the budget, the sum lies between the budget and the budget plus steps minus one, and meets it once the budget covers the weights |
| Budget.LimitsHalve | crates/memory-retrieval/src/planner.rs:228-249 | among the last nine steps each gets twice what the next one gets, up to rounding, and the steps before them get the same; what rounding leaves over goes to the first |
| Budget.LastLimit | crates/memory-retrieval/src/planner.rs:228-243 | the last of several steps gets the budget divided by 2^n - 1 for n steps up to nine, and by 511 plus 256 for each step above nine, but at least one |
| Budget.SplitBudget | crates/memory-retrieval/src/planner.rs:228-249 | the in-place loop keeps every value within its 32 or 64 bits if and only if the sum of the shares stays below 2^32, and then assigns those limits; an empty plan or budget is left alone |
| Budget.FirstOverflow | crates/memory-retrieval/src/planner.rs:238-243 | where the shares do not fit there is a step at which the running total passes 32 bits |
| Budget.OrdinaryPlansFit | crates/memory-retrieval/src/planner.rs:234-243 | up to 0xFF0000 steps the shares fit under every budget |
| Budget.CoveringBudgetsFit | crates/memory-retrieval/src/planner.rs:234-243 | under a budget that covers the weights the shares fit, however many steps there are |
| Budget.EveryStepCounts | crates/memory-retrieval/src/planner.rs:238-243 | the sum is at least the number of steps, so with 2^32 steps the shares fit under no budget |
| LocalStore.SharedTableSimulatesStores | crates/providers/provider-local/src/persistent.rs:94-264 | under every sequence of operations, stores sharing one table reply as separate in-process stores could |
| LocalStore.SharedTableIsInvisible | crates/providers/provider-local/src/persistent.rs:94-264 | over distinct creation times the replies are the same, one by one |
| LocalStore.ViewsAreStores | crates/providers/provider-local/src/persistent.rs:94-100 | at every point each namespace holds exactly what its separate store would |
| LocalStore.KeysAreUnique | crates/memory-domain/src/config.rs:71-80 | over validated namespaces no key has two readings |
| LocalStore.LocalStore.Put | crates/providers/provider-local/src/persistent.rs:117-139 | put writes one cell of the shared table |
| LocalStore.LocalStore.Get | crates/providers/provider-local/src/persistent.rs:141-173 | get decodes the cell of the key, shows it to the scopes that contain it, and passes an undecodable cell on as a storage error |
| LocalStore.LocalStore.Update | crates/providers/provider-local/src/persistent.rs:175-201 | update requires the key and then puts |
| LocalStore.LocalStore.Delete | crates/providers/provider-local/src/persistent.rs:203-227 | delete removes the cell only when the scope sees its record, and fails without a change when the cell does not decode |
| LocalStore.LocalStore.Query | crates/providers/provider-local/src/persistent.rs:229-264 | query scans every key, keeps what is under its own prefix and matches, sorts and cuts; one undecodable cell under the prefix makes it a storage error |
| LocalStore.Serve | crates/providers/provider-local/src/memory.rs:51-99 | the in-process store is the separate store that the simulation speaks of |

## Left out

- Engine operations do not interleave with each other: a run is a sequence of operations, each whole or cut short.
- Recall reads one snapshot of store and index: the executor's concurrent steps see no write between them.
- Time is passed in: one clock reading for each operation and a second one where the query provider takes its own.
- Identifiers are drawn from a counter, as time-ordered identifiers are; wall clocks, random bits and hashing are not modelled, and two texts have one fingerprint exactly when their hashed texts are equal.
- Floating point is modelled as reals; the recency decay is any function into the unit interval, and similarity, embedding, negation cues and extracted relations are parameters.
- Text is a sequence of characters with parameters for white space, letters and lower case; keyword search is a parameter of the query.
- A subject is its canonical key; structured content, tags, actors and other provenance strings are not part of the records.
- Graph entities are not modelled, only relations; relation extraction is a parameter that does not fail.
- Archival hooks, auditing, tracing and metrics have no effect on the modelled state.
- Breaker.FailingBackendIsSpared: states sequential calls only, because a failure stores the open state before the new cooldown, and counts invocations that start in the period.
- Budget.SplitBudget: where a total does not fit, the addition panics or wraps depending on the build; the model stops there and says nothing about the limits.
- LocalStore.SharedTableSimulatesStores: takes the JSON encoding as an exact inverse and each transaction as one step; file locking and paths are not modelled.
- Working.NoUpdateIsLost: speaks of a session left alone (sets and drops are the subject of Resets) and of the atomic script; the default get-then-set of the provider interface, which the in-process working store uses, is not part of this model.
- Working.RedisWorkingStore.CompareAndSet: expiry is an event of the protocol, not a clock, and the script's comparison of revisions as floating point numbers above 2^53 is not modelled.
- Gaps.RunStaysComplete: speaks of runs without failures; Gaps.RunLeavesNoGapIff has the exact condition for runs with them.
- Planning of steps, classification, extraction, episodes, goals, procedures, health reports and retry delays carry no deep property and are not modelled.
- The REST server, bindings, PostgreSQL and vector-database providers, encryption and file storage are not modelled.
