# vault-search: a verified model of its core

This project models the parts of vault-search-mcp whose correctness spans several
functions, threads or failure positions, and proves what they promise. To verify it, use
`dafny verify dfyconfig.toml` in this directory.

- **Graph analysis** (`sorting`, `graphs`, `dfs_tree`, `bridge_search`, `bridge_notes`,
  `link_clusters`): the explicit-stack articulation-point search against the definition of
  a connected component, and the breadth-first clusters.
- **Index state machine** (`index_tables`, `note_records`, `link_resolution`,
  `vault_indexer`, `incremental_index`, `circuit_breaker`): versioned tables, per-note
  replacement and full rebuild under every failure position, link resolution, and the
  agreement of incremental maintenance with a rebuild.
- **Work queues** (`reindex_queue`, `enrichment_jobs`): one step for each lock region or
  queue operation, over all interleavings.
- **Notes under concurrency** (`note_transactions`, `note_operations`, `path_locks`):
  read-modify-write with a revision check, and the two-layer locks around it.
- **Release planner** (`versions`, `release_planner`), **chunker** (`chunker`), **ranking and
  grouping** (`sums`, `hybrid_fusion`, `duplicate_groups`) and **watcher tokens** (`watch_events`).

Classes hold what the source updates in place, and each of their methods is one operation or
one lock region of the source. For the queues, the jobs and the index the methods' contracts
say that they take the steps of a state machine on values; the theorems about all runs are
proved of that state machine.

Reading conventions:

- Note paths in the graph modules are numbers, the ranks of the paths in sorted order.
  Where the source iterates over a set in no particular order, the model uses the sorted
  order; the results are stated so that they hold for any order.
- A table is the sequence of its versions. A table operation that raises may or may not have
  produced a version. Handles are table names. A restore that itself raises leaves its table
  as it is; `stuck` names the tables for which that happens, and nothing is claimed of them.
- A file revision is a number that no earlier write used. Comparing the revision and
  replacing the file are one step.
- Scores, similarities and times are exact numbers; `rounded` stands for the rounding of an
  average, which the grouping sorts by.
- The parsers, the embedding model, link normalization, frontmatter rewriting and the mapping
  from a commit message to its effect are function parameters. Of the parsers it is assumed
  that a parse succeeds exactly when it yields chunks and that it lists each pair of link type
  and target once for a note, as `src/vault_search/utils/links.py:203-290` does. Resolving links
  relies on the latter: `RowCountKept` has the exact condition for keeping every row.

What the code does not do, although its documentation or a reader might expect it:

- A lock's nested budget can exceed the one shared deadline by the time that passes between
  two clock reads (`NestedDeadlineDrift`, `NestedDeadlineCanExceed`).
- A note created and reindexed between a rebuild's scan and its taking the write lock is
  missing from what the rebuild publishes (`RebuildLosesNote`; `MissingAfterPublish` and
  `FreshAfterPublish` say exactly when a rebuild leaves a path missing or stale).
  `IncrementalEqualsFull` accounts for this by counting such a path as edited since it was
  looked at.
- A link whose update fails between its delete and its add is lost, and a rebuild in which
  this happens is reported as completed (`RowsLost`, `StagedLinksCount`).
- A publish that raises after it has taken effect is not rolled back (`PublishAll` has the
  exact outcome, `LandedPublishStays` an instance).

## Model

| member | source | states |
|---|---|---|
| BridgeNotes.ArticulationScores | src/vault_search/server/graph_tools.py:450-495 | the search finishes after exactly one pass per note plus one per adjacency entry, and its scores name exactly the notes whose removal increases the number of connected components, each with the size of that increase, for every finite undirected graph with self-loops allowed |
| BridgeNotes.SearchFrom | src/vault_search/server/graph_tools.py:459-495 | one run of the explicit stack keeps the search record a depth-first forest with correct low values and counters, visits the root, and makes exactly the passes by which the remaining work shrinks |
| BridgeNotes.BuildAdjacency | src/vault_search/server/graph_tools.py:444-448 | the adjacency is symmetric, joins two notes exactly when an edge does in either direction, and has exactly the notes that occur in edges |
| BridgeNotes.FindBridgeNotes | src/vault_search/server/graph_tools.py:403-534 | the listing is the first notes of the articulation points by descending score and then path, at most the clamped limit, with the exact total and a truthful has-more flag |
| BridgeNotes.PrefixIsTopRanked | src/vault_search/server/graph_tools.py:498-505 | a prefix of the ranked items leaves out no note that ranks before one it lists |
| DfsTree.LowDecidesSeparation | src/vault_search/server/graph_tools.py:480-484 | in a finished forest a child whose low value is at least its parent's discovery has no edge out of its branch around the parent, and otherwise it has one |
| DfsTree.SeparatedBranchIsComponent | src/vault_search/server/graph_tools.py:480-484 | removing a note turns each separated branch below it into a whole component |
| DfsTree.OthersStayWithRoot | src/vault_search/server/graph_tools.py:480-484 | every other note of the component stays connected to the root when a non-root note is removed |
| DfsTree.ExtraComponents | src/vault_search/server/graph_tools.py:474-486 | the number of extra components a removal creates is children minus one for a root and the number of separated branches otherwise |
| BridgeSearch.DescendStep | src/vault_search/server/graph_tools.py:489-494 | meeting an unseen neighbour keeps the search invariant and the counters |
| BridgeSearch.VisitStep | src/vault_search/server/graph_tools.py:495 | meeting a seen neighbour keeps them, whether or not it is the parent |
| BridgeSearch.PopKeepsInv | src/vault_search/server/graph_tools.py:471-479 | popping an exhausted note keeps the invariant with the low value passed up |
| BridgeSearch.PopKeepsCounters | src/vault_search/server/graph_tools.py:474-486 | and the child, branch and score dictionaries stay the true counts |
| Graphs.ClosedSetIsComponent | src/vault_search/server/graph_tools.py:326-348 | a set closed under edges, all reachable from one note, is that note's component |
| LinkClusters.Bfs | src/vault_search/server/graph_tools.py:330-342 | with duplicate queue entries the search still ends and returns each note of the start's component once |
| LinkClusters.LinkedComponents | src/vault_search/server/graph_tools.py:344-348 | the clusters are exactly the components of at least the minimum size, each once, pairwise disjoint and without repetition |
| LinkClusters.FindLinkClusters | src/vault_search/server/graph_tools.py:281-353 | the same after clamping the minimum to 2..100 and sorting by size, for the graph that the edges describe, with the density of each cluster |
| LinkClusters.ReorderKeepsListing | src/vault_search/server/graph_tools.py:353 | sorting the clusters loses none and repeats none |
| LinkClusters.Density | src/vault_search/server/graph_tools.py:369-379 | density is the share of possible pairs joined by an edge and lies between 0 and 1 even with reciprocal and self edges |
| LinkClusters.PairsOf | src/vault_search/server/graph_tools.py:371-379 | a set of n notes has at most n(n-1)/2 unordered pairs |
| LinkResolution.BuildPathMap | src/vault_search/core/indexer.py:431-466 | every stem, full path and alias gets an entry, entries lead only to notes of that name or alias, and a note name never loses to an alias |
| LinkResolution.LookupMeaning | src/vault_search/core/indexer.py:431-466 | a name is found exactly when some note or alias bears it, it leads to an indexed note, and to a note of that name if there is one |
| LinkResolution.ResolveLinkTargets | src/vault_search/core/indexer.py:398-558 | a run tries an update for each resolvable row among the first 100000 unresolved internal ones, whichever table operations fail, and its answer counts the updates it tried; with one row for each link every row afterwards is one from before or one from before led to the note that the dictionary has for it, no row is lost unless an add failed, and without failures every link that can be led somewhere is |
| LinkResolution.RunMeans | src/vault_search/core/indexer.py:468-558 | what the updates of a run mean for the links themselves: the same source, type, target, normalized form and details, and the target the dictionary has |
| LinkResolution.RunUpdates | src/vault_search/core/indexer.py:516-552 | the update loop tries the updates one after the other and goes on after a failing one |
| LinkResolution.ResolutionIsPointwise | src/vault_search/core/indexer.py:468-546 | given unique (source, type, target) keys and at most 100000 unresolved links, the run changes exactly the resolvable unresolved internal rows, and in them only the two resolution fields |
| LinkResolution.FailingResolution | src/vault_search/core/indexer.py:516-552 | given unique keys, an update that takes effect resolves its row, one that fails before its delete leaves the row, one whose add fails loses the row, every other row stays, and there is nothing else |
| LinkResolution.RowsLost | src/vault_search/core/indexer.py:516-558 | so a run keeps the number of rows if and only if no add fails after its delete, although its answer counts every update |
| LinkResolution.KeptRun | src/vault_search/core/indexer.py:516-552 | a run that loses nothing is a change of the rows where they stand, whichever updates failed |
| LinkResolution.RowCountKept | src/vault_search/core/indexer.py:518-546 | without unique keys a run without failures keeps the number of rows if and only if no updated key belongs to several rows, and never gains one |
| LinkResolution.ApplyUpdatesKeyCount | src/vault_search/core/indexer.py:518-546 | every updated key ends with exactly one row and every other key keeps its rows |
| LinkResolution.DuplicateLinksCollapse | src/vault_search/core/indexer.py:516-546 | the unique keys are needed: two rows of one key would become one |
| NoteRecords.ChunkTotalIsRowCount | src/vault_search/core/indexer.py:765-772 | the number of staged chunk rows is the sum of the capped chunk counts of the parsed notes |
| NoteRecords.RowsOfAllCount | src/vault_search/core/indexer.py:744-772 | in the staged rows each note has exactly its own rows |
| NoteRecords.EraseMultiset | src/vault_search/core/indexer.py:541-546 | comparing link rows without their resolution depends only on the multiset of rows |
| VaultIndexing.VaultIndexer.ApplyNoteRecords | src/vault_search/core/indexer.py:886-925 | on success only rows of the note change and they are the supplied ones; after a failure of any delete or add, landed or not, all three tables hold their entry contents except where a restore itself fails |
| VaultIndexing.VaultIndexer.ReplaceInTable | src/vault_search/core/indexer.py:899-913 | one table is snapshotted, loses the note's rows and gains the new ones, up to the failing operation |
| VaultIndexing.VaultIndexer.Rollback | src/vault_search/core/indexer.py:917-925 | restoring the snapshots in reverse gives every table its earlier contents |
| VaultIndexing.ReplaceOutcome | src/vault_search/core/indexer.py:899-913 | whatever operation fails, the version noted before still holds the earlier rows |
| VaultIndexing.RestoreAllContents | src/vault_search/core/indexer.py:917-925 | each table that was touched is restored once, to the version of its snapshot |
| VaultIndexing.VaultIndexer.RecordOperation | src/vault_search/core/indexer.py:927-943 | the counter goes back to zero only when the hundredth or a later operation compacts |
| VaultIndexing.VaultIndexer.ReindexNote | src/vault_search/core/indexer.py:971-1165 | after an applied call the tables hold of the note, in order, one chunk row with text and its own vector for each parsed chunk up to the limit, one row with all its details for each link, and one trimmed and normalized row for each alias that is not blank, or nothing for a missing or empty note, and of every other note what they held; any other call changes nothing except where a restore fails |
| NoteRecords.ParsedRowsRecorded | src/vault_search/core/indexer.py:312-360 | the rows built for a note are those its chunks, links and aliases call for, told position by position |
| NoteRecords.RowsForReplaced | src/vault_search/core/indexer.py:899-913 | replacing the rows of one note leaves those of every other note, in order |
| VaultIndexing.NoChunksNoRows | src/vault_search/core/indexer.py:1085-1108 | replacing by nothing is what a rebuild does for a note without chunks |
| VaultIndexing.VaultIndexer.OpenStaging | src/vault_search/core/indexer.py:560-573 | staging starts empty and no public table is touched |
| VaultIndexing.VaultIndexer.StageNotes | src/vault_search/core/indexer.py:729-783 | across all batch flushes the staged rows are those of the notes parsed so far |
| VaultIndexing.VaultIndexer.Stage | src/vault_search/core/indexer.py:720-815 | a completed staging holds the rows of all notes, the links as the resolution run left them, and every staging leaves the public tables alone |
| VaultIndexing.GatherNext | src/vault_search/core/indexer.py:744-772 | each parse result adds exactly its rows to batch, links, aliases and counts |
| VaultIndexing.VaultIndexer.PublishTable | src/vault_search/core/indexer.py:593-611 | publishing is one new version, or a new table, and remembers the version before |
| VaultIndexing.VaultIndexer.PublishAll | src/vault_search/core/indexer.py:817-850 | either all three tables are published or each is as before, save one whose publish raised after taking effect |
| VaultIndexing.VaultIndexer.Unpublish | src/vault_search/core/indexer.py:836-846 | undoing the commits in reverse restores old versions and empties new tables |
| VaultIndexing.UnwindStep | src/vault_search/core/indexer.py:836-846 | one rollback step leaves the tables still to be rolled back as they were committed |
| VaultIndexing.VaultIndexer.RestoreHandles | src/vault_search/core/indexer.py:622-627 | handles point at public tables only |
| VaultIndexing.VaultIndexer.FullReindex | src/vault_search/core/indexer.py:658-884 | all or nothing for every failure position, but for a publish that raises after taking effect; on completion every note has the chunk and alias rows of its parse and other paths have none; there is at most one row for each link found and no other, each leading nowhere or where the dictionary says, none missing unless an update lost it, and without failures each link that the dictionary has a note for leads to that indexed note; there were no parse errors, total_notes is the number of notes parsed with success and total_chunks the number of chunk rows; handles never point at staging on return |
| VaultIndexing.LandedPublishStays | src/vault_search/core/indexer.py:817-850 | a concrete rebuild whose publish of the chunks takes effect and raises: it is reported as failed and the chunk stays |
| VaultIndexing.ResolutionReachesRebuild | src/vault_search/core/indexer.py:398-558 | with at most 100000 unresolved links and no failure during resolution the staged links are resolved one by one, all to indexed notes |
| VaultIndexing.StagedIsRebuilt | src/vault_search/core/indexer.py:798-815 | if no update loses its row, the staged tables are those of the parse results, links up to their resolution fields, whatever else failed during resolution |
| VaultIndexing.StagedLinksCount | src/vault_search/core/indexer.py:516-552 | otherwise the staged links are short by exactly the rows whose add failed |
| VaultIndexing.StagedLinksHeld | src/vault_search/core/indexer.py:398-558 | what a finished staging holds of the links, row by row, for every failure during resolution |
| VaultIndexing.AllRowsHeld | src/vault_search/core/indexer.py:744-806 | in the rows of a rebuild each note has what its parse calls for and other paths have nothing |
| VaultIndexing.CountsOfResults | src/vault_search/core/indexer.py:744-772 | the counts are numbers of parse results |
| VaultIndexing.NothingFails | src/vault_search/core/indexer.py:658-884 | a rebuild of notes that all parse meets none of the failures if no operation raises, so it completes |
| VaultIndexing.RebuildLookup | src/vault_search/core/indexer.py:431-466 | in a rebuild the lookup dictionary knows exactly the note names and aliases, leads to indexed notes only, and prefers a note of that name |
| VaultIndexing.RowsOfIndexedNotes | src/vault_search/core/indexer.py:752-806 | links and aliases are staged for indexed notes only |
| VaultIndexing.MissingWhenNotParsed | src/vault_search/core/indexer.py:744-772 | a path has no staged chunks exactly when no parse of it succeeded |
| VaultIndexing.StagedLinksUnique | src/vault_search/core/indexer.py:768-806 | links of different notes never share a key, so resolution without failures loses none |
| VaultIndexing.ResolutionErased | src/vault_search/core/indexer.py:516-546 | a run that loses no row is invisible once the two resolution fields are erased |
| IncrementalIndex.IncrementalEqualsFull | src/vault_search/core/indexer.py:945-1165 | over any run of edits, reindexing and rebuilds with any failures, several rebuilds under way included, whenever no path was edited since the reading its rows come from, each table equals as a multiset what a full rebuild of the final vault publishes, links up to their resolution fields, unless a failed rollback or a lost link has wrecked it since the last completed rebuild |
| IncrementalIndex.NotesAreRecorded | src/vault_search/core/indexer.py:945-1165 | in any run, a path not edited since its rows were read has in each unwrecked table exactly the rows that its note parses to, or none without a note |
| IncrementalIndex.StepKeepsInv | src/vault_search/core/indexer.py:945-1165 | every step keeps the rows of unedited notes in unwrecked tables those of their content |
| IncrementalIndex.RebuildLosesNote | src/vault_search/core/indexer.py:680-697 | a note created and reindexed between a rebuild's scan and its taking the write lock is missing from what the rebuild publishes |
| IncrementalIndex.MissingAfterPublish | src/vault_search/core/indexer.py:680-850 | a note is missing from a completed rebuild if and only if the rebuild never scanned its path or its parse of it had nothing to index |
| IncrementalIndex.FreshAfterPublish | src/vault_search/core/indexer.py:744-850 | a path has its current rows in a published table if and only if what the rebuild parsed for it, nothing if it did not scan it, gives the same rows as its current content |
| IncrementalIndex.ReindexIsCommit | src/vault_search/core/indexer.py:945-1165 | the reindex method is a step of that state machine for every failure, applied exactly when its status says so |
| IncrementalIndex.FullReindexIsPublish | src/vault_search/core/indexer.py:658-884 | so is the rebuild method, with all tables, none, or the one whose publish raised after taking effect, whichever rollbacks and link updates fail |
| IncrementalIndex.PublishedCount | src/vault_search/core/indexer.py:744-815 | what a rebuild publishes for a path it looked at last is the path's current rows |
| CircuitBreakers.CircuitBreaker.Check | src/vault_search/core/indexer.py:193-228 | a call is blocked exactly when the unexpired entry is full; otherwise it is counted in the entry or starts one, and expired entries of other notes go |
| CircuitBreakers.CircuitBreaker.Reset | src/vault_search/core/indexer.py:230-243 | one note's entry or all entries are dropped |
| CircuitBreakers.ExpiredBranchUnreachable | src/vault_search/core/indexer.py:216-224 | the branch that restarts an expired entry is never taken |
| CircuitBreakers.AdmissionBound | src/vault_search/core/indexer.py:193-228 | any closed interval of window length admits at most twice the maximum minus one attempts of one note, for nondecreasing call times |
| CircuitBreakers.DefaultBound | src/vault_search/core/indexer.py:181-228 | with the values used at most five attempts of one note start within any sixty seconds |
| CircuitBreakers.AdmissionBoundIsTight | src/vault_search/core/indexer.py:181-182 | five attempts do fit with the values used |
| CircuitBreakers.CallsTrackGroups | src/vault_search/core/indexer.py:193-228 | the table's entry for a note is the last of the groups of attempts that one entry counted |
| ReindexQueues.NoLostUpdate | src/vault_search/server/reindex_queue.py:45-57 | an accepted request that no attempt has followed yet is queued, in hand before its attempt, or in hand with a stale version |
| ReindexQueues.RequestIsAttempted | src/vault_search/server/reindex_queue.py:45-106 | whatever the producers do, each request made while the queue accepts, for a key that has a version or with room in the table, is followed by an attempt of its key that starts after it, within four worker moves for each place in the table, also when it arrives while the key is being processed |
| ReindexQueues.PendingIsAttempted | src/vault_search/server/reindex_queue.py:69-106 | the same for any key the worker still owes an attempt |
| ReindexQueues.WorkApproaches | src/vault_search/server/reindex_queue.py:69-106 | each move of the worker attempts the key or brings its attempt nearer |
| ReindexQueues.OthersKeepDistance | src/vault_search/server/reindex_queue.py:45-57 | no producer and no stop takes it further away |
| ReindexQueues.OneWorkerBoundedTable | src/vault_search/server/reindex_queue.py:45-106 | at most one worker is ever started, the table never exceeds its bound, and a taken key always has a version |
| ReindexQueues.RequestKeepsInv | src/vault_search/server/reindex_queue.py:45-57 | enqueueing keeps the versions exactly the queued keys and the key in hand, each once |
| ReindexQueues.WorkKeepsInv | src/vault_search/server/reindex_queue.py:69-106 | so does every move of the worker |
| ReindexQueues.MissingVersionUnreachable | src/vault_search/server/reindex_queue.py:77-81 | the branch for a key without a version is never taken |
| ReindexQueues.StopDrains | src/vault_search/server/reindex_queue.py:118-127 | after stop the worker alone empties the table in a bounded number of moves, by which time no request is owed an attempt |
| ReindexQueues.MoveDecreases | src/vault_search/server/reindex_queue.py:69-106 | each move of a started worker lowers the number of remaining moves by one while no producer interferes |
| ReindexQueues.ReindexQueue.EnqueueKey | src/vault_search/server/reindex_queue.py:45-57 | stopped exactly when not accepting, coalesced exactly when accepting a key that has a version, full exactly when the key has none and the table is full, else queued, with the new versions, queue and worker for each |
| ReindexQueues.ReindexQueue.NextKey | src/vault_search/server/reindex_queue.py:69-74 | the worker takes the oldest key, waits, or ends once stopping with nothing queued |
| ReindexQueues.ReindexQueue.ObserveVersion | src/vault_search/server/reindex_queue.py:76-81 | the version read for the key in hand |
| ReindexQueues.ReindexQueue.Settle | src/vault_search/server/reindex_queue.py:100-106 | an unchanged key is forgotten and a changed one queued again |
| ReindexQueues.ReindexQueue.EnsureWorkerLocked | src/vault_search/server/reindex_queue.py:59-67 | a worker is started only when none is alive |
| NoteTransactions.Serializable | src/vault_search/crud/write.py:290-306 | in every interleaving the files are what the successful operations and the external edits leave when run one after the other in the order of their commits, each success counted once |
| NoteTransactions.SuccessHasEffect | src/vault_search/crud/write.py:290-408 | in every run each success has exactly its effect on the vault as it is at that moment; an append keeps the whole note, whoever wrote it |
| NoteTransactions.ApplyIsEffect | src/vault_search/crud/write.py:290-408 | an operation of the model has this effect and no other: create and write set the text, an append keeps the note and ends it with one separator and the new text, a rewriting does what it says, delete and move touch only their paths |
| NoteTransactions.AppendTextAppends | src/vault_search/crud/write.py:392-396 | the appended text begins with the note, ends with separator and addition, and has no second separator |
| NoteTransactions.RefusedAtFirstLook | src/vault_search/crud/write.py:290-383 | an operation is turned away at its first look exactly for a create of an existing note, a move onto one, or anything but a write on a missing one |
| NoteTransactions.RefusedAfterReading | src/vault_search/crud/write.py:384-399 | and after reading exactly when the appended text would exceed the limit or the rewriting refuses |
| NoteTransactions.OnlyLoggedStepsChangeFiles | src/vault_search/crud/validation.py:262-270 | conflicts, timeouts, refusals and failed writes leave every file as it was |
| NoteTransactions.NoConflictAmongCooperators | src/vault_search/crud/write.py:376-408 | an operation whose notes no other program edits never ends in a conflict |
| NoteTransactions.OvertakenNeverSucceeds | src/vault_search/crud/validation.py:262-270 | an operation whose file was changed behind its back never succeeds, so an edit made before the check survives |
| NoteTransactions.UnseenFileSurvives | src/vault_search/crud/validation.py:262-270 | an operation that found no file and commits when there is one ends in a conflict and leaves the file alone |
| NoteTransactions.CommitNeedsSeenRevision | src/vault_search/crud/validation.py:262-270 | a commit succeeds if and only if the revisions are still the observed ones |
| NoteTransactions.OneCreateWins | src/vault_search/crud/write.py:290-306 | of concurrent creates of an absent note no two succeed, and one does once all have ended without a timeout or a failed write, whatever runs on other notes and while appends and frontmatter updates run on this one |
| NoteTransactions.RefusedAfterSuccess | src/vault_search/crud/write.py:291-296 | a create is refused only because another one has succeeded |
| NoteTransactions.ReplaceIsApply | src/vault_search/crud/validation.py:262-270 | replacing a file whose revision is still the observed one is the operation applied to the current files |
| NoteTransactions.StepKeepsInv | src/vault_search/crud/write.py:441-487 | every step keeps locks, observed revisions and the replay in agreement |
| NoteOperations.NoteStore.SafeWriteText | src/vault_search/crud/validation.py:217-296 | the write succeeds exactly when it does not fail and the revision is the expected one, and otherwise changes nothing |
| NoteOperations.NoteStore.CreateNote | src/vault_search/crud/write.py:288-306 | the verdict for every case, and atomicity over the edits made meanwhile |
| NoteOperations.NoteStore.WriteNote | src/vault_search/crud/write.py:334-349 | succeeds exactly when the write does not fail and nobody touched the note meanwhile |
| NoteOperations.NoteStore.ReadModifyWrite | src/vault_search/crud/write.py:374-408 | the exact verdict for every combination of edits in its three gaps: an edit of the note before the second look, or before the check of a call that writes, is never overwritten; an append is refused exactly when its text would exceed the limit, and success is the whole effect on the vault with every edit made meanwhile, the old note kept by an append |
| NoteOperations.NoteStore.MoveNote | src/vault_search/crud/delete.py:131-151 | the same for a move between two paths |
| NoteOperations.NoteStore.DeleteNote | src/vault_search/crud/delete.py:55-97 | the note goes to the first of ten trash names that was free when looked at, other trashed notes stay, and a failed delete changes nothing |
| NoteOperations.NoteStore.Interfere | src/vault_search/crud/validation.py:262-270 | what edits by other programs do: a touched file never gets back a revision it had before, and the others are as they were |
| PathLocks.MutualExclusion | src/vault_search/crud/locking.py:188-224 | two tasks are never both inside the lock of one path |
| PathLocks.NoWaitCycle | src/vault_search/crud/locking.py:227-247 | no chain of tasks waiting for one another closes |
| PathLocks.SomeoneCanMove | src/vault_search/crud/locking.py:227-247 | whenever a task has not finished, some event other than a timeout changes the state |
| PathLocks.FinishedHoldsNothing | src/vault_search/crud/locking.py:202-224 | a task that has finished holds no lock |
| PathLocks.StepKeepsInv | src/vault_search/crud/locking.py:188-247 | each task holds exactly its first locks in rank order |
| PathLocks.WaitingClimbs | src/vault_search/crud/locking.py:240-247 | a task waits only for a lock ranked above all it holds |
| PathLocks.NestedDeadlineDrift | src/vault_search/crud/locking.py:234-245 | a nested deadline stays within the shared one if and only if no time passes between the two clock reads and the shared deadline is not over, and the excess is exact |
| PathLocks.NestedDeadlineCanExceed | src/vault_search/crud/locking.py:234-245 | so a nested budget can exceed the shared deadline |
| PathLocks.AcquireFlock | src/vault_search/crud/locking.py:141-154 | polling ends, reports what the last poll found, gives up only at the deadline, and ends by it but for the last oversleep |
| PathLocks.AcquireThreadLock | src/vault_search/crud/locking.py:134-138 | the thread lock is had exactly if it is granted by the deadline |
| PathLocks.AcquirePath | src/vault_search/crud/locking.py:188-224 | the same for the two locks of one path under a deadline set anew |
| PathLocks.AcquireInTime | src/vault_search/crud/locking.py:227-247 | a whole acquisition of several paths ends by the shared deadline plus the time spent other than waiting; each path's locks are had in turn, when both are free; it times out no sooner than that deadline and only for a lock that is not to be had, and raises only for a failing call |
| PathLocks.OverheadOfEqual | src/vault_search/crud/locking.py:227-247 | with equal delays the time spent other than waiting is their sum for each path |
| PathLocks.LockTable.EnterPathLock | src/vault_search/crud/locking.py:188-217 | both locks are taken, or none and what was taken is released |
| PathLocks.LockTable.LeavePathLock | src/vault_search/crud/locking.py:218-224 | both locks are released and no other |
| PathLocks.LockTable.EnterAll | src/vault_search/crud/locking.py:238-246 | the locks of the paths are entered in order up to the first that cannot be had, and exactly those are held then |
| PathLocks.LockTable.LeaveAll | src/vault_search/crud/locking.py:238-247 | unwinding from whatever was entered leaves nothing held |
| PathLocks.LockTable.Body | src/vault_search/crud/locking.py:247 | the body may only be run by a task that holds the locks of all the paths |
| PathLocks.LockTable.AdvisoryPathLocks | src/vault_search/crud/locking.py:227-247 | the body runs exactly once under exactly the locks of all paths if each can be had, and not at all otherwise, and on every way out nothing is held |
| Versions.ValueOfDecimal | scripts/release.py:59-64 | printing a number and reading it back gives the number |
| Versions.DecimalOfValue | scripts/release.py:28-32 | reading digits without a leading zero and printing the value gives the digits |
| Versions.TagBijection | scripts/release.py:116-121 | a tag parses to a version exactly when it is that version's tag (item 2 of Semantic Versioning 2.0.0) |
| Versions.ParseTagOfTag | scripts/release.py:65-67 | every version's tag parses back to it |
| Versions.TagOfParseTag | scripts/release.py:116-121 | every tag that parses is the tag of its version |
| Versions.TagExample | scripts/release.py:59-67 | a tag as it is written |
| Versions.NotATag | scripts/release.py:116-121 | a leading zero, a missing prefix or anything after the third number makes a string no release tag |
| Versions.BumpIsNext | scripts/release.py:69-76 | a bump is the least version that differs in the bumped part (items 6-8 and 11) |
| ReleasePlanner.AllReleaseTags | scripts/release.py:177-187 | the list holds every tag that parses, once, by increasing version, and fails exactly for a release tag that is not annotated |
| ReleasePlanner.ListsUnique | scripts/release.py:177-187 | the tags determine the list |
| ReleasePlanner.ValidateReleaseHistory | scripts/release.py:190-195 | validation succeeds exactly when each release is a proper ancestor of the next, and otherwise names what is wrong with the first pair that is not |
| ReleasePlanner.GlobalChain | scripts/release.py:190-195 | the adjacent check implies that any earlier release is a proper ancestor of any later one |
| ReleasePlanner.ReachableIsPrefix | scripts/release.py:221 | the releases reachable from a commit are the first ones of the list |
| ReleasePlanner.GuardsNeverFire | scripts/release.py:221-266 | after validation several head tags, an older recovery and a tag collision never occur, and the remaining error occurs exactly when the source has no release and some release is outside its history |
| ReleasePlanner.ClassifyCommits | scripts/release.py:157-161 | the loop computes the strongest effect |
| ReleasePlanner.MaxEffectIsMaximum | scripts/release.py:138-139 | which is an upper bound that is attained |
| ReleasePlanner.EffectsOfRange | scripts/release.py:198-211 | the classified commits are exactly those reachable from the source and not from the previous release |
| ReleasePlanner.BumpOfRange | scripts/release.py:138-161 | the strongest effect, told of the effects that occur: major before minor before patch |
| ReleasePlanner.RangeSize | scripts/release.py:198-211 | the commit count is the number of commits in the range |
| ReleasePlanner.AncestorIsReachable | scripts/release.py:170-174 | being an ancestor is being led to along parents |
| ReleasePlanner.PlannedVersion | scripts/release.py:245-279 | a new release is planned exactly when some commit since the last release has an effect, with the version the strongest one asks for, above every release |
| ReleasePlanner.PlanRelease | scripts/release.py:214-279 | the planner fails for unannotated tags, then for an invalid history with the error of its first broken pair, then exactly for a release outside the history of a source without release; a release at the source is recovered; otherwise the next major, minor or patch version is planned exactly when a major effect, else a minor one, else a patch one occurs since the last release, and none without effects, with the previous version and the number of commits |
| ReleasePlanner.DecisionFits | scripts/release.py:221-279 | the decision is what the commits and releases call for |
| ReleasePlanner.PlanAtRelease | scripts/release.py:228-240 | planning at a released commit recovers that release |
| ReleasePlanner.PlanKeepsHistory | scripts/release.py:214-279 | tagging the source with the planned version keeps the tags increasing in version and in history |
| ReleasePlanner.AnswerIsDecision | scripts/release.py:214-221 | with annotated tags and a valid history the planner reads back the very releases that were carried out |
| ReleasePlanner.RecoversRelease | scripts/release.py:228-240 | so planning at the commit of any of them recovers it, with the release before it as previous |
| ReleasePlanner.ReleasesStayGood | scripts/release.py:214-279 | so does any sequence of releases carried out as the planner answers from the tags, while commits are added; the release tags stay annotated |
| ReleasePlanner.RecoveryIsStable | scripts/release.py:228-240 | whatever the planner answers for a commit it has released, after any number of later commits and releases, is the recovery of the same tag |
| ReleasePlanner.GrowthKeepsGood | scripts/release.py:190-195 | adding commits keeps a validated history valid |
| Chunker.SplitJoins | src/vault_search/core/chunker.py:71 | splitting at a separator and joining again gives the text |
| Chunker.SplitIsSplit | src/vault_search/core/chunker.py:71 | splitting cuts at every separator from the left and nowhere else |
| Chunker.MergeDecomposes | src/vault_search/core/chunker.py:79-92 | merging loses nothing but separators |
| Chunker.MergeIsMaximal | src/vault_search/core/chunker.py:79-92 | no two neighbouring merged chunks would have fitted together |
| Chunker.MergeParts | src/vault_search/core/chunker.py:78-92 | the loop computes the greedy merge |
| Chunker.ChunkWithSeparators | src/vault_search/core/chunker.py:47-104 | the recursion over separators with its hard cuts |
| Chunker.ChunksDecompose | src/vault_search/core/chunker.py:47-104 | chunks are ordered, disjoint, contiguous parts of the text whose gaps, the leading and trailing ones included, are runs of separators |
| Chunker.ChunksFit | src/vault_search/core/chunker.py:47-104 | no chunk of a nonempty text is empty or longer than the size |
| Chunker.HardCutsFit | src/vault_search/core/chunker.py:66-69 | hard cuts are all of full size but the last |
| Chunker.HardCutsAreEqual | src/vault_search/core/chunker.py:66-69 | hard cuts put together are the text |
| Chunker.FirstSeparatorCuts | src/vault_search/core/chunker.py:71-104 | the first separator that occurs decides: every chunk is some neighbouring parts, or lies inside a part that is too long, and if none is, no two neighbouring chunks would fit together |
| Chunker.ChunksAreCut | src/vault_search/core/chunker.py:47-104 | and if no separator occurs, the text is cut into pieces of the full size |
| Chunker.OverlapPrefix | src/vault_search/core/chunker.py:107-127 | the overlap is the end of the previous chunk of the wanted length, or what follows its first space if that is neither its first nor its last character |
| Chunker.Carried | src/vault_search/core/chunker.py:36-42 | a chunk is given as much as fits |
| Chunker.AddOverlap | src/vault_search/core/chunker.py:33-44 | each later chunk is an end of the previous raw chunk followed by its own raw chunk |
| Chunker.ChunkText | src/vault_search/core/chunker.py:11-44 | all of this for the whole text; each later chunk begins with as much of the overlap as fits, and no chunk exceeds the size even if the overlap does |
| EnrichmentJobs.CountersAccount | src/vault_search/server/frontmatter_jobs.py:205-244 | in every reachable state processed = succeeded + failed = returned + truncated <= total, the results are the first entries and at most the maximum, and a completed status means every path was processed and agrees with failures |
| EnrichmentJobs.TableIsBounded | src/vault_search/server/frontmatter_jobs.py:79-114 | the table never exceeds history + pending + 1 jobs, one worker is ever started, and the branches for a missing job are never taken |
| EnrichmentJobs.TerminalIsFinal | src/vault_search/server/frontmatter_jobs.py:255-264 | a finished job's record never changes again and, once pruned, never returns |
| EnrichmentJobs.PrunedKeepsActive | src/vault_search/server/frontmatter_jobs.py:272-282 | pruning never removes a queued or running job and leaves at most the maximum history |
| EnrichmentJobs.StepKeepsInv | src/vault_search/server/frontmatter_jobs.py:188-263 | every step keeps counters, tickets and worker in agreement |
| EnrichmentJobs.DrainBound | src/vault_search/server/frontmatter_jobs.py:169-186 | left alone, whatever its outcomes and failures, the worker makes a bounded number of moves |
| EnrichmentJobs.StopDrains | src/vault_search/server/frontmatter_jobs.py:143-156 | after stop the worker can move until it has ended, and then no job is queued or running |
| EnrichmentJobs.FrontmatterEnrichmentJobManager.EnqueueJob | src/vault_search/server/frontmatter_jobs.py:47-121 | each answer exactly when its refusal is the first that applies, without a change; an accepted job is queued last with its distinct note paths in order, its record as asked for, and a worker is alive |
| EnrichmentJobs.FrontmatterEnrichmentJobManager.RecordEntry | src/vault_search/server/frontmatter_jobs.py:216-229 | the counters and the bounded result list after one path |
| EnrichmentJobs.FrontmatterEnrichmentJobManager.FinishJob | src/vault_search/server/frontmatter_jobs.py:245-253 | the final status of a job that ran to its end |
| EnrichmentJobs.FrontmatterEnrichmentJobManager.MarkJobFailed | src/vault_search/server/frontmatter_jobs.py:255-264 | the final status of a job whose run raised |
| EnrichmentJobs.FrontmatterEnrichmentJobManager.PruneTerminalJobsLocked | src/vault_search/server/frontmatter_jobs.py:272-282 | exactly the surplus of terminal jobs is removed, none younger than one that is kept |
| EnrichmentJobs.FrontmatterEnrichmentJobManager.NextTicket | src/vault_search/server/frontmatter_jobs.py:169-176 | the worker takes the oldest job, waits, or ends once stopping with nothing queued |
| EnrichmentJobs.NotePaths | src/vault_search/server/frontmatter_jobs.py:49-53 | the paths that name notes, each once |
| EnrichmentJobs.NotePathsInOrder | src/vault_search/server/frontmatter_jobs.py:49-53 | of two listed paths the earlier one occurs first |
| HybridFusion.FuseHybridResults | src/vault_search/core/searcher.py:160-203 | the output is the first distinct keys by the sum of their reciprocal ranks over both lists, then best rank, then order of discovery, as many as the limit allows, each with the row it was first seen with |
| HybridFusion.ScoreIsSum | src/vault_search/core/searcher.py:168-187 | a score is the sum of 1 / (60 + rank) over the places of the key in both lists |
| HybridFusion.AheadIsTotal | src/vault_search/core/searcher.py:189-196 | the order never ties two keys |
| HybridFusion.BestRankIsLeast | src/vault_search/core/searcher.py:187 | the best rank is the least rank of the key |
| HybridFusion.AddResults | src/vault_search/core/searcher.py:172-187 | the dictionary holds one entry for each key seen, in order of discovery |
| HybridFusion.DominantIsAhead | src/vault_search/core/searcher.py:160-203 | a key ahead of another in every list where the other occurs is ahead of it in the fusion |
| DuplicateGroups.GroupDuplicates | src/vault_search/core/searcher.py:1073-1126 | the groups are exactly the leaders that have followers with all of these, each once, with the rounded mean similarity to the leader, by descending average and then in order of discovery |
| DuplicateGroups.GroupAverage | src/vault_search/core/searcher.py:1114-1123 | the reported average is the mean of the members' similarities to their leader |
| Sorting.SortByStable | src/vault_search/core/searcher.py:1126 | sorting keeps the order of equal elements |
| DuplicateGroups.SimilarTo | src/vault_search/core/searcher.py:1081-1087 | the inner loop finds exactly the notes that this leader gets |
| DuplicateGroups.MemberMeetsLeader | src/vault_search/core/searcher.py:1081-1087 | a member meets the threshold with its leader and with no earlier leader |
| DuplicateGroups.LeadersApart | src/vault_search/core/searcher.py:1077-1087 | no two notes that lead themselves meet it |
| DuplicateGroups.GroupsAreDisjoint | src/vault_search/core/searcher.py:1077-1120 | two groups share no note |
| DuplicateGroups.GroupsSeparate | src/vault_search/core/searcher.py:1077-1120 | members meet the threshold with their leader, and leaders and ungrouped notes do not meet it with one another |
| WatchEvents.TokensBounded | src/vault_search/watching/event_handler.py:124-133 | the token table never exceeds 2048 entries and has one for each path |
| WatchEvents.SuppressionHasRegistration | src/vault_search/watching/event_handler.py:137-151 | an event is dropped only for the exact revision that the last operation on its path registered, within thirty seconds of it |
| WatchEvents.OneEventEach | src/vault_search/watching/event_handler.py:137-151 | after an event of a path was looked at, none is dropped before the next registration of that path |
| WatchEvents.RegistrationIsHonoured | src/vault_search/watching/event_handler.py:103-151 | the next event of a registered revision is dropped, unless the token expired or 2048 registrations came between |
| WatchEvents.VaultEventHandler.IgnoreNextChange | src/vault_search/watching/event_handler.py:103-134 | a registration is recorded exactly when the revision can be read |
| WatchEvents.VaultEventHandler.CheckAndClearIgnore | src/vault_search/watching/event_handler.py:137-151 | the token is consumed either way and the event ignored exactly when it matches |
| WatchEvents.VaultEventHandler.Enqueue | src/vault_search/watching/event_handler.py:191-217 | an event that is not dropped replaces the pending one of its path |

## Left out

- VaultIndexing.VaultIndexer.FullReindex: does not cover the death of the process between two publishes, which leaves the tables published so far; a dry run, progress reports, durations and the creation of search indexes are not modelled.
- VaultIndexing.VaultIndexer.ReindexNote: starts after the path and extension checks and the circuit breaker; generating a missing identifier counts as an edit of the file before the call reads it; the optional result fields are not modelled.
- IncrementalIndex.IncrementalEqualsFull: says nothing of a table whose rollback failed, or of the links after an update lost a row, until the next completed rebuild.
- ReindexQueues.StopDrains: bounds the worker's moves, not the time; the join timeout of stop is not modelled.
- EnrichmentJobs.StopDrains: likewise counts moves; get_status and the copies it returns are not modelled, nor is the reindexing that follows an enriched path.
- EnrichmentJobs.FrontmatterEnrichmentJobManager.PruneTerminalJobsLocked: says nothing of the order in which jobs of the same age are removed.
- NoteTransactions.Serializable: an external edit between the revision check and the replacement is not protected by the source and is not a step of the model; the model is on values, and the calls of NoteOperations.NoteStore, which update files in place, share its meaning of an operation but are not proved to be runs of it.
- NoteTransactions.OneCreateWins: not for a note that is also written over, moved or deleted at the same time, where a write can make every create be refused and a delete can let two succeed; serializability covers these.
- PathLocks.NoWaitCycle: the interleavings are a state machine on values; re-entering a thread lock, the variant without file locks on systems that lack them, the recovery when the lock directory is replaced and the registry of weak references are not modelled, and lock identity is the canonical path.
- PathLocks.LockTable.AdvisoryPathLocks: waiting for a lock is one look at whether the others hold it, and there is no time; PathLocks.AcquireInTime has the deadlines. The class is not proved to take the steps of the state machine beside it.
- PathLocks.LockTable.EnterPathLock: likewise.
- ReleasePlanner.PlanRelease: git is a commit graph and a set of tags; git failures, the message parser, tag creation and pushing, artifacts, checksums and workflow checks are not modelled.
- NoteOperations.NoteStore.DeleteNote: does not promise that a trash name taken by another program after it was found free is spared; the move overwrites it.
- Chunker.ChunkText: the configured separators are a parameter and must not be empty, as splitting by an empty separator raises in the source.
- HybridFusion.FuseHybridResults: the rounding of the displayed score is not modelled.
- DuplicateGroups.GroupDuplicates: reading notes, mean vectors and the similarity matrix are not modelled.
- WatchEvents.VaultEventHandler.Enqueue: path resolution, the extension filter and the debounce worker are not modelled.
- LinkClusters.FindLinkClusters: titles, the cut to twenty notes and twenty clusters and the rounding of densities are not modelled.
- Building nodes and edges in graph_data, link suggestions, searching, reranking, caches and metrics: little to prove beyond their bodies.
- Crash safety below the operations: fsync, temporary files, symbolic links and signals.
- Parsing, embedding, storage formats, full-text and vector indexes, compaction, MCP registration, configuration and logging.
