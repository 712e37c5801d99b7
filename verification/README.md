# Verification of ATHENA AI-BRAIN's stateful core

This project models the stateful middle of ATHENA AI-BRAIN as state machines over maps and
sequences, together with its self-contained algorithms, and proves what they keep. The database
tables, the vector store, the vault on disk and the timers of the watcher are plain Dafny state.
Code that updates state step by step is a class or a method with loops, proved against a
specification function or relation. The properties of whole runs are proved about those.

- `Ingest`, `Reconcile`, `Convergence`: the disk against the `notes` table. One job per path
  (created, updated, moved, deleted, noop, blocked, scan failure), and the two-phase sweep, whose
  move detection re-paths other rows while it goes on.
- `Knowledge`, `Lineage`, `KnowledgeRuns`, `KnowledgeEffects`: lifecycle transitions, duplicate review,
  the confirm-then-merge protocol and the supersession graph, over every sequence of operations, and when
  each operation goes through and what it then does.
- `Duplicates`, `DuplicateScan`, `DuplicateResults`, `DuplicateRows`: the dictionary of pair signals that
  the scan's legs fill, and the rows that come of it, told from the answers.
- `Indexing`, `IndexRuns`: chunk rows in SQLite and points in Qdrant, with an exception at any step.
- `Watcher`, `Debounce`, `DebounceRuns`: the debouncing watcher as interleaved steps of event threads, timer
  threads and `stop`.
- `Splitter`, `SplitterPattern`, `SplitRoundTrip`, `SplitContents`, `Migrate`, `MigrationRuns`,
  `MigrationProgress`: the statement splitter with its regular expression, and the transactional,
  resumable migration runner.
- `Redaction`, `Substitution`, `RedactionLines`, `RedactionOrder`, `RedactionTies`, `RedactionCover`,
  `RedactionSelection`: which findings count, and span redaction per line.
- `Paths`, `PathProofs`, `PathOutcomes`: path resolution over a tree with symbolic links.
- `Fusion`, `FusionBound`, `FusionHits`, `KeywordSearch`, `SearchRows`: reciprocal rank fusion, FTS5 quoting, the tag filter.
- `Evaluation`, `Metrics`, `EvaluationFigures`: the evaluation harness and its nDCG, recall, precision and MRR.
- `Dispatch`, `DispatchTotals`: the daily dispatch ceiling under concurrent reservations.
- `Seqs`, `Text`, `Wrappers`: shared definitions (stable sort, filters and groups, Python whitespace, Option, Result).

Readings of the code where its documentation says something else, or where a property needs a
condition:

- A file at a tombstoned path is reported as updated on every sweep and stays a tombstone
  (`src/athena/vault/ingest.py:323`, `:383`). So a second sweep reports exactly those buried paths,
  and zero discrepancies if and only if there are none (`Convergence.ReconcileTwice`).
- One sweep does not always settle the table. The walk lists only Markdown files, but the watcher
  also ingests others, and the second phase refreshes their rows. A vanished row that comes before
  such a refresh is kept for a twin that the same sweep takes away (`Convergence.OneSweepIsNotEnough`).
  A sweep settles if and only if the rows at risk come late enough (`Convergence.SweepSettlesIff`),
  every order does if and only if no hash is at risk (`Convergence.EveryOrderSettlesIff`), and the
  second of two sweeps always does (`Convergence.TwoSweepsSettle`).
- The watcher's documentation promises no callback after `stop`. The code claims under its lock and
  calls back outside it, so a callback for an earlier claim can still come
  (`Debounce.CallbackAfterStop`). Without a late event there is none if and only if no claim was on its
  way when `stop` cleared the maps (`Debounce.StoppedIsSilentIff`). `stop` waits for the observer with
  a timeout, so an event can still come after the clear, and it is claimed and called back like any
  other (`Debounce.LateEventIsClaimed`); the numbers issued before the clear never are
  (`Debounce.StopIsFinal`).
- `get_lineage` also answers the sources of `provenance_derivations` as ancestors, which have no
  descendant in return (`Lineage.DerivationIsOneWay`, `Lineage.LineageConverseIff`). No operation writes
  that table, so in every run the relations are converse (`KnowledgeRuns.LineageConverse`).
- `merge_notes` documents that a failing file write leaves nothing to repair. Writing empties the file
  first, so the failure can leave any text in the kept file (`KnowledgeRuns.BrokenWriteDamages`);
  texts survive every run without such a failure on the file that holds them
  (`KnowledgeRuns.RunKeepsText`).
- A duplicate scan skips a file that it cannot read, but one that is not UTF-8 raises an exception that
  the lexical leg does not catch. A scan raises if and only if it comes to such a file, or the threshold is
  zero or less and Qdrant fails after naming a pair that no other leg found
  (`DuplicateScan.ScanRaisesIff`, `DuplicateScan.UndecodableNoteRaises`, `DuplicateScan.ZeroThresholdRaises`).
- `index_state = 'current'` means that the two stores agree, not that the text is fresh. The
  guarantee needs the failure record to be written; `IndexRuns.LostFailureRecord` says exactly when
  it survives without.
- A migration file with a version at or below the current one is skipped silently, for ever
  (`MigrationRuns.SkippedForever`, `MigrationRuns.CompleteIff`).
- A whole-line redaction loses a line break that is neither a newline nor a carriage return with
  a newline (`RedactionLines.LineCountKeptIff`).
- Spans that start at the same place can make the redacted text depend on the order of the findings.
  For one text it does if and only if two findings tie, when a plugin reports at most one finding at a
  place (`RedactionTies.ThisTextAnyOrderIff`). Without that proviso ties are not always seen: two spans
  of one plugin may both be longer than their placeholder (`RedactionTies.LongTiesAgree`), and a long
  finding listed twice takes a tie to its right away (`RedactionTies.EatenConflict`). Over all texts and
  all selections of the findings, the order is immaterial if and only if no two conflict
  (`RedactionTies.OrderImmaterialIff`).
- The redaction is documented as replacing exactly the ranges of the findings. With overlapping spans a part
  of a covered range can be left: a finding that starts in another one, ends before it and is shorter than
  its placeholder pushes the tail of the outer one out of reach. Nothing covered is left in any selection of
  the findings if and only if there is no such pair (`RedactionCover.ErasedIff`).
- `resolve_vault_pathspec` is idempotent exactly when what the path resolves to is missing or has no
  control character in a name below the root (`PathProofs.PathspecIdempotentIff`). The exceptions reach
  such a node through links outside the vault (`PathProofs.BreakIsRefused`); a path written inside the
  root without ".." is none (`PathProofs.PathspecIdempotent`).
- The dispatch ceilings hold in every run if and only if every caller whose ceiling is not zero is counted
  on the day of its `created_at` (`Dispatch.CeilingsKeptIff`, `Dispatch.OtherDayOvershoots`). The separate
  check and insert keep them if and only if no two callers have one job type, one day and a ceiling that is
  not zero (`Dispatch.LooseKeptIff`).
- Two-list chunks precede one-list chunks for ranks up to k + 1, and not beyond
  (`FusionBound.TwoListsFirst`, `FusionBound.BoundIsTight`).

## Model

| member | source | states |
|---|---|---|
| `Ingest.Database.GetByPath` | src/athena/db/repository/notes.py:69-76 | Answers a row at the path, tombstones included, or none exactly when no row has the path. |
| `Ingest.Database.FindByContentHash` | src/athena/db/repository/notes.py:219-231 | Answers all active rows with the hash and only those. |
| `Ingest.Database.HandleVanishedPath` | src/athena/vault/ingest.py:150-196 | A path without a file tombstones its active row unless another active row with the same hash has its file on disk; every other case leaves the table alone. |
| `Ingest.Database.IngestNote` | src/athena/vault/ingest.py:199-438 | One job is one step of the classification relation: noop, update (also at a tombstone), move of some row whose file has gone, creation, or the error outcomes; one event is appended exactly for created, updated, moved and deleted. |
| `Ingest.StoppedIff` | src/athena/vault/ingest.py:206-302 | A job is blocked, fails its scan or raises exactly for the kinds of files that make it do so, and then it changes nothing and names no note. |
| `Ingest.StepReplays` | src/athena/vault/ingest.py:150-438 | Replaying the event of a job, with its note and its path, makes of the table before what the job made of it. |
| `Reconcile.ReconcileOne` | src/athena/vault/reconcile.py:100-160 | A path is a discrepancy exactly when its job reported a change, and counts as enqueued exactly when its job did not raise. |
| `Reconcile.Phase1Step` | src/athena/vault/reconcile.py:162-165 | While the walk goes on, each row is kept, updated, or moved to a walked new path, whatever rows earlier steps re-pathed. |
| `Reconcile.Phase1Balanced` | src/athena/vault/ingest.py:338-381 | Per hash, rows are created only once every vanished row has been moved, and moves plus creations are the new paths. |
| `Reconcile.TwinsDuring` | src/athena/vault/ingest.py:162-173 | At every moment of the second phase a vanished row has a twin exactly as the paths done so far decide, whatever was tombstoned or refreshed. |
| `Reconcile.Phase2Step` | src/athena/vault/reconcile.py:167-169 | The second phase refreshes the rows of unwalked clean files and tombstones the vanished rows that have no twin at their turn, in any order. |
| `Reconcile.Phase2IsRun` | src/athena/vault/reconcile.py:167-169 | Every order of the remaining paths is a possible run of jobs. |
| `Reconcile.SettledStep` | src/athena/vault/reconcile.py:100-160 | On a settled table a job at a walked or active path changes nothing, and reports exactly at a tombstone with a clean file. |
| `Reconcile.FirstPhase` | src/athena/vault/reconcile.py:162-165 | The walk loop keeps the row, balance and event accounts, for any order of the walk. |
| `Reconcile.SecondPhase` | src/athena/vault/reconcile.py:167-169 | The loop over the remaining active paths keeps its account for any order of the set. |
| `Reconcile.ReconcileVault` | src/athena/vault/reconcile.py:79-195 | The sweep's summary counts its walked paths, events and jobs that did not raise; replaying its events on the table before gives the table after; the events agree with the rows per hash; active rows after plus deletions equal active rows before plus creations; a settled table is left unchanged and reports exactly its buried paths. |
| `Convergence.OnDiskView` | src/athena/vault/ingest.py:321-389 | After a sweep every clean walked file has a row with exactly the disk's hash, a tombstone exactly if there was one before. |
| `Convergence.UnwalkedView` | src/athena/vault/reconcile.py:167-169 | A clean file that the walk does not list has its active row refreshed in place; a tombstone there stays as it is. |
| `Convergence.UncleanRowsUntouched` | src/athena/vault/ingest.py:246-290 | Rows of files that cannot be ingested come out of the sweep unchanged, walked or not. |
| `Convergence.TwinAfterIff` | src/athena/vault/ingest.py:162-173 | During the second phase a vanished row has a twin if and only if its hash is held throughout, or not all rows that lose the hash have had their turn, or one that gains it has. |
| `Convergence.TwinAtEnd` | src/athena/vault/ingest.py:162-173 | After a sweep an active row without a file has an active twin of equal hash on disk if and only if its hash is held at the end. |
| `Convergence.SweepSettlesIff` | src/athena/vault/reconcile.py:97-169 | One sweep leaves nothing to repair if and only if every vanished row at risk has its turn after all the twins that are refreshed away; the buried paths stay the same. |
| `Convergence.EveryOrderSettlesIff` | src/athena/vault/reconcile.py:167-169 | A sweep settles the table in every order of its second phase if and only if no hash is at risk. |
| `Convergence.OneSweepIsNotEnough` | src/athena/vault/reconcile.py:167-169 | A vanished note and an unwalked text file with its recorded hash: noop, updated, and deleted only by the next sweep. |
| `Convergence.TwoSweepsSettle` | src/athena/vault/reconcile.py:97-169 | The second of two sweeps always settles the table, from any state and in any orders. |
| `Convergence.ReconcileTwice` | src/athena/vault/reconcile.py:79-195 | Two sweeps always settle the table; when no hash is at risk the second changes nothing and reports exactly the buried paths. |
| `Convergence.ReconcileThrice` | src/athena/vault/reconcile.py:79-195 | A third sweep over the same files changes nothing and reports exactly the buried paths, always. |
| `Convergence.MoveAccounting` | src/athena/vault/ingest.py:338-381 | Per hash, moves are the minimum of new paths and vanished rows, and creations are the new paths minus the moves. |
| `Convergence.DeleteAccounting` | src/athena/vault/ingest.py:150-196 | If a hash is held, or no row comes to it or leaves it, its vanished rows are tombstoned all together, or not at all if it is held. |
| `Convergence.DeletedIff` | src/athena/vault/ingest.py:150-196 | A row is tombstoned if and only if it lost its file, its hash is not held, and at its turn all rows that lose the hash have done so and none that gains it has. |
| `Convergence.DeletionsIndependentIff` | src/athena/vault/reconcile.py:167-169 | Every order of the second phase tombstones the same rows of a hash if and only if the hash has no vanished row, is held throughout, or no row comes to it or leaves it. |
| `Convergence.OrderIndependent` | src/athena/vault/reconcile.py:97-169 | Two sweeps in any orders and with any choices of moves do the same number of moves, creations and updates per hash, delete the same rows of every hash that cannot depend on the order, and leave the same on-disk view. |
| `Convergence.RenameDestinationFirst` | src/athena/vault/ingest.py:338-381 | A rename whose new path is ingested first keeps the note's id. |
| `Convergence.RenameSourceFirst` | src/athena/vault/ingest.py:162-196 | The other way round the note is tombstoned and a new id created, exactly when no other copy is on disk. |
| `Knowledge.KnowledgeBase.TransitionStatus` | src/athena/vault/lifecycle.py:92-116 | The status and its history row are written together. |
| `Knowledge.KnowledgeBase.PromoteOnFirstIndex` | src/athena/intelligence/lifecycle.py:41-66 | Only drafts become active; other notes are left alone and a missing one is an error. |
| `Knowledge.KnowledgeBase.IngestAgain` | src/athena/vault/ingest.py:323-409 | The job at the path of a known note takes the new digest, at a tombstone always, records the activity and leaves status and deletion alone. |
| `Knowledge.KnowledgeBase.ListStaleCandidates` | src/athena/db/repository/notes.py:247-261 | Lists exactly the active or verified live notes older than the cutoff, each once. |
| `Knowledge.KnowledgeBase.RunStaleSweep` | src/athena/intelligence/lifecycle.py:75-125 | Marks the listed candidates stale, one by one, except those under duplicate review, and counts both kinds. |
| `Knowledge.KnowledgeBase.UpsertCandidate` | src/athena/db/repository/duplicates.py:65-128 | One row per unordered pair; a resolved row is frozen against rescans; a self pair is refused. |
| `Knowledge.KnowledgeBase.ResolveDuplicate` | src/athena/intelligence/merge.py:65-89 | Accepts only confirmed or rejected for an existing pair and writes it without looking at the current status. |
| `Knowledge.KnowledgeBase.ListPendingDuplicates` | src/athena/intelligence/merge.py:44-62 | Lists exactly the pending pairs of two live notes. |
| `Knowledge.KnowledgeBase.Merge` | src/athena/intelligence/merge.py:106-220 | Refused, in the code's order of checks and without any effect; or the write fails and leaves any text in the kept file and all rows alone; or done: the kept file and row rewritten, the absorbed row superseded and tombstoned, lineage and review recorded. |
| `KnowledgeEffects.MergeHappensIff` | src/athena/intelligence/merge.py:129-159 | A merge goes through if and only if the pair is confirmed, both notes are live with their files in place, and the write works; a refused one changes nothing. |
| `KnowledgeEffects.MergeWrites` | src/athena/intelligence/merge.py:153-159 | The kept file starts with its old text, trimmed at the end, and ends with the whole absorbed text; between them stands exactly the heading with the absorbed path; no other file changes. |
| `KnowledgeEffects.MergeRows` | src/athena/intelligence/merge.py:161-194 | The kept row takes the digest of the new text and the time, and becomes active if it was a draft and is indexed; the absorbed row is superseded and tombstoned; no other row changes, and the history has just these transitions. |
| `KnowledgeEffects.MergeRecords` | src/athena/intelligence/merge.py:177-207 | One activity that supersedes the absorbed note, the pair marked as merged with its score, and no derivation. |
| `KnowledgeEffects.ReviewToMerge` | src/athena/intelligence/merge.py:65-220 | Any two live notes with files, found as an undecided pair and confirmed, can be merged either way round; the merge then does all that and answers the kept note as a descendant. |
| `KnowledgeEffects.NewNotesAreMergeable` | src/athena/vault/lifecycle.py:31-67 | Two notes created at free paths are ready for that at once. |
| `KnowledgeEffects.SweepIff` | src/athena/intelligence/lifecycle.py:75-125 | A sweep makes stale exactly the live active or verified notes that are older than the cutoff and that no undecided candidate names; every other row stays. |
| `KnowledgeEffects.DeletedAndPromotedForever` | src/athena/vault/lifecycle.py:85-116 | In every run after it, a deleted note stays deleted and a promoted one is never a draft again. |
| `KnowledgeEffects.ResolveIff` | src/athena/intelligence/merge.py:65-89 | A known pair can be confirmed or rejected and nothing else; its score stays, and a rejected pair cannot be merged either way round. |
| `Lineage.GetLineage` | src/athena/db/repository/provenance.py:94-138 | Answers the notes that a note's activities supersede and the sources of their derivations, and the notes whose activities supersede it. |
| `Lineage.LineageConverseIff` | src/athena/db/repository/provenance.py:107-136 | Two notes are ancestor and descendant of each other, or neither, if and only if no derivation links them without a supersession. |
| `Lineage.DerivationIsOneWay` | src/athena/db/repository/provenance.py:117-127 | A derivation gives an ancestor that has no descendant. |
| `Lineage.AtMostOneDescendant` | src/athena/db/repository/provenance.py:107-136 | In a forest of merges a note has at most one descendant and never itself. |
| `Lineage.BecameLater` | src/athena/intelligence/merge.py:134-207 | Along the supersession edges the merges get strictly later. |
| `Lineage.Acyclic` | src/athena/intelligence/merge.py:134-207 | No note becomes itself by any number of merges. |
| `Lineage.RootIsLive` | src/athena/db/repository/provenance.py:107-136 | Following the merges leads every note to a note that has not been absorbed. |
| `KnowledgeRuns.ApplyKeeps` | src/athena/vault/lifecycle.py:31-116 | Creation, re-ingestion, deletion, promotion, stale sweep, rescan, resolution and merge each keep the history, table and lineage invariants. |
| `KnowledgeRuns.HistoryReplays` | src/athena/vault/lifecycle.py:48-67 | In every run each note's history starts from nothing to draft, each row continues the one before, never from superseded, and ends in the note's status. |
| `KnowledgeRuns.MergesFormForest` | src/athena/intelligence/merge.py:134-207 | In every run the supersession graph is an acyclic forest with at most one descendant per note, and exactly the absorbed notes are superseded. |
| `KnowledgeRuns.AbsorbedForever` | src/athena/intelligence/merge.py:185-194 | Whatever happens next, an absorbed note keeps its path, status and tombstone; re-ingesting the file that the merge leaves changes the digest and the time of its row, and nothing else changes it. |
| `KnowledgeRuns.MergeAgainRefused` | src/athena/intelligence/merge.py:134-149 | After any run, a merge that names an absorbed note on either side is refused. |
| `KnowledgeRuns.ResolutionFrozen` | src/athena/db/repository/duplicates.py:87-91 | In every run a resolved pair is never pending again, and nothing but a resolution or a merge of it changes its row. |
| `KnowledgeRuns.MergedCanBeConfirmed` | src/athena/intelligence/merge.py:77-89 | A merged pair can be confirmed again, and a merge of it is then refused on either side. |
| `KnowledgeRuns.LineageConverse` | src/athena/db/repository/provenance.py:107-136 | In every run, ancestors and descendants as get_lineage answers them are converse relations. |
| `KnowledgeRuns.JoinedKeeps` | src/athena/intelligence/merge.py:153-159 | The joined text contains every right-trimmed part of either text, although the kept one is right-trimmed. |
| `KnowledgeRuns.RunKeepsText` | src/athena/intelligence/merge.py:153-159 | Through any run in which no write fails on the file that holds it by then, the right-trimmed text of every note is a contiguous part of the file of the note it has ended up in. |
| `KnowledgeRuns.BrokenWriteDamages` | src/athena/intelligence/merge.py:159 | A write that fails leaves the kept file with whatever text it got to, and every row as it was. |
| `KnowledgeRuns.BrokenWriteIff` | src/athena/intelligence/merge.py:159 | A text survives every outcome of a failing write if and only if another file holds it or nothing but whitespace is in it. |
| `KnowledgeRuns.AbsorbedTextSurvives` | src/athena/intelligence/merge.py:106-220 | What a merge absorbs is, up to trailing whitespace, in its root's file after any later chain or tree of merges without such a failure. |
| `Duplicates.ChooseMethod` | src/athena/intelligence/duplicates.py:336-358 | The detection method is undefined exactly for an empty method set, and names a single method only if it is the only one. |
| `Duplicates.FailedLegRestores` | src/athena/intelligence/duplicates.py:237-276 | After a failure at any note, the old pairs have their old signals and order, and the new ones are blank. |
| `Duplicates.SemanticLegAllOrNothing` | src/athena/intelligence/duplicates.py:223-276 | For a positive threshold, the rows after a failed semantic leg are the rows without one. |
| `DuplicateScan.PairDict.RecordExactMatches` | src/athena/intelligence/duplicates.py:111-136 | Records exactly the keys of the exact leg, which `DuplicateScan.ExactKeysMember` names, in the order of the groups. |
| `DuplicateScan.PairDict.RecordLexicalMatches` | src/athena/intelligence/duplicates.py:139-220 | Reads every scanned note, raising at a file that is not UTF-8 and skipping one that cannot be read; then keeps the best lexical score of every answered pair. |
| `DuplicateScan.PairDict.RecordSemanticMatches` | src/athena/intelligence/duplicates.py:223-276 | Fills semantic scores note by note and on an exception takes them all back. |
| `DuplicateScan.PairDict.AnnotateMetadataMatches` | src/athena/intelligence/duplicates.py:279-293 | Adds the metadata ratio to every pair of known notes. |
| `DuplicateScan.GroupByHash` | src/athena/intelligence/duplicates.py:111-136 | Groups the notes by hash, groups and members in order of first appearance. |
| `DuplicateScan.ExactKeysMember` | src/athena/intelligence/duplicates.py:111-136 | The exact leg records two notes if and only if they share a hash and at least one is scanned. |
| `DuplicateScan.ScanForDuplicates` | src/athena/intelligence/duplicates.py:296-360 | Answers the rows of the whole scan, which `DuplicateRows.ScanTells` and `DuplicateRows.ScanInOrder` tell from the answers, and raises exactly at a scanned file that is not UTF-8, or for a threshold of zero or less with a failed semantic leg that had found a pair of its own. |
| `DuplicateScan.ScanRaisesIff` | src/athena/intelligence/duplicates.py:158-345 | A scan raises if and only if some scanned file is not UTF-8, or the threshold is not positive, Qdrant fails, and an answer before the failure names a pair that the exact and lexical legs did not find. |
| `DuplicateScan.ChoiceRaisesIff` | src/athena/intelligence/duplicates.py:336-345 | Choosing a method raises if and only if the threshold is not positive, Qdrant fails, and an answer before the failure names a pair that the exact and lexical legs did not find. |
| `DuplicateScan.UndecodableNoteRaises` | src/athena/intelligence/duplicates.py:158-171 | One scanned file that is not UTF-8 makes the scan raise at any threshold and whatever else is answered. |
| `DuplicateScan.ZeroThresholdRaises` | src/athena/intelligence/duplicates.py:343-345 | Two notes that only Qdrant pairs, before it fails, make a scan with threshold zero raise. |
| `DuplicateScan.RecordedKeys` | src/athena/intelligence/duplicates.py:237-263 | The semantic leg adds exactly the pairs that its answers before the first exception name. |
| `DuplicateResults.ScoresAreBest` | src/athena/intelligence/duplicates.py:209-263 | At the end of a scan the lexical score of a pair is the greatest that any answer gave it, and so is the semantic one unless that leg failed; a score is missing exactly if there was no answer. |
| `DuplicateResults.UpsertedIff` | src/athena/intelligence/duplicates.py:336-358 | In a scan that returns, a pair has a row if and only if some leg found it and its combined score reaches the threshold; each row tells its pair's signals, and no pair has two. |
| `DuplicateResults.RowsOnce` | src/athena/intelligence/duplicates.py:336-358 | No pair has two rows. |
| `DuplicateRows.SignalsTold` | src/athena/intelligence/duplicates.py:111-293 | At the end of the legs a pair has signals exactly if an answer or a shared hash names it, and they are the greatest scores answered, the shared hash and the ratio of known notes. |
| `DuplicateRows.ScanTells` | src/athena/intelligence/duplicates.py:336-358 | A pair has a row if and only if some leg found it and its figure reaches the threshold: 1 for a shared hash, else the greater of its greatest lexical and its greatest counted semantic score; the row tells that figure, the scores, the ratio and the legs that found it. |
| `DuplicateRows.ScanInOrder` | src/athena/intelligence/duplicates.py:336-358 | Of two pairs with rows, the one that the legs come across first has the earlier row. |
| `DuplicateScan.FailedScanEqualsScanWithout` | src/athena/intelligence/duplicates.py:296-360 | A whole scan whose semantic leg fails anywhere writes the same rows as one without that leg. |
| `Indexing.IndexStore.DeletePointsForNote` | src/athena/indexing/qdrant_store.py:140-148 | Removes the note's points and no other. |
| `Indexing.IndexStore.UpsertChunks` | src/athena/indexing/qdrant_store.py:96-137 | Adds one fresh point per chunk with its index in the payload. |
| `Indexing.IndexStore.DeleteRowsForNote` | src/athena/db/repository/chunks.py:75-82 | Removes the note's chunk rows and no other. |
| `Indexing.IndexStore.IndexNote` | src/athena/indexing/index_note.py:100-203 | The protected sequence with an exception at any step, a request to Qdrant being carried out in any part, the failed state recorded if that succeeds, and nothing for a missing or deleted note. |
| `Indexing.IndexedIff` | src/athena/indexing/index_note.py:113-203 | A live note is answered as indexed and marked as current with all its chunks if and only if no step that the call takes raises; else it is marked as failed, if that can be recorded. |
| `Indexing.IndexStore.ListIdsNeedingIndex` | src/athena/db/repository/notes.py:197-205 | Lists exactly the live notes that are not current, each once. |
| `Indexing.IndexStore.IndexBootstrap` | src/athena/indexing/index_note.py:212-238 | Tries every live note that is not current once: afterwards each is current with its chunks, or failed, exactly as the fault planned for it strikes or not; the failures are exactly the struck notes, and other notes are untouched. |
| `Indexing.IndexKeeps` | src/athena/indexing/index_note.py:113-203 | With an exception at any step, every current note has the same chunks in both stores, and other notes' rows and points are untouched. |
| `IndexRuns.CurrentMeansAgreement` | src/athena/indexing/index_note.py:113-203 | In every run a current note's chunk rows and points have the same ids, indices from 0 and the recorded count. |
| `IndexRuns.NoteOfRun` | src/athena/indexing/index_note.py:100-203 | In every run a note is deleted exactly if a deletion followed its insertion, and current, with the chunks of that call counted, exactly if the last call that found it live went through. |
| `IndexRuns.LostFailureRecord` | src/athena/indexing/index_note.py:189-203 | If the failure is not recorded, the stores still agree on a current note if and only if the failing step had nothing to do, or undid and stored nothing of the note. |
| `Watcher.VaultWatcher.Start` | src/athena/vault/watcher.py:219-228 | Starting leaves the debounce maps alone. |
| `Watcher.VaultWatcher.RecordEvent` | src/athena/vault/watcher.py:258-280 | Takes the next sequence number for the path and answers the superseded one, if any. |
| `Watcher.VaultWatcher.FireTimer` | src/athena/vault/watcher.py:282-301 | Claims if and only if the number is still the pending one of its path, and then clears the path. |
| `Watcher.VaultWatcher.Stop` | src/athena/vault/watcher.py:230-249 | A running watcher drops all its pending entries; one that is not running is left alone. |
| `Watcher.StepKeeps` | src/athena/vault/watcher.py:230-301 | Every step of every thread keeps the maps, the fates of the numbers, the timers and the callbacks consistent. |
| `Debounce.Conservation` | src/athena/vault/watcher.py:258-301 | In every interleaving, per path: recorded events equal superseded plus claimed plus dropped by stop plus pending. |
| `Debounce.LastSeenMatchesPending` | src/athena/vault/watcher.py:243-248 | The pending and last-seen maps have the same keys in every reachable state. |
| `Debounce.ClaimsNewestOnce` | src/athena/vault/watcher.py:282-301 | A claim takes the newest number of its path, once, and never one that was superseded or dropped. |
| `Debounce.NoLostEvent` | src/athena/vault/watcher.py:258-280 | A pending event always has a timer that is yet to start, waiting or running, and not cancelled. |
| `Debounce.QuietMeansSettled` | src/athena/vault/watcher.py:258-301 | When all timers have run out nothing is pending. |
| `Debounce.CalledOncePerClaim` | src/athena/vault/watcher.py:290-301 | Each claim is called back at most once and only claims are. |
| `Debounce.StopSilencesTimers` | src/athena/vault/watcher.py:230-249 | After the clear, as long as no event arrives, nothing is claimed, and nothing is called back if no claim was on its way. |
| `Debounce.StopIsFinal` | src/athena/vault/watcher.py:243-248 | Once the maps are cleared, no number issued so far is ever claimed again, whatever happens next. |
| `Debounce.StoppedIsSilentIff` | src/athena/vault/watcher.py:243-301 | After the clear, no run without a late event calls back if and only if no claim was on its way. |
| `Debounce.LateEventIsClaimed` | src/athena/vault/watcher.py:242-301 | An event that the observer delivers after the clear is claimed and called back as any other. |
| `Debounce.CallbackAfterStop` | src/athena/vault/watcher.py:290-301 | A concrete interleaving in which a callback comes after stop has returned. |
| `DebounceRuns.StartedIff` | src/athena/vault/watcher.py:219-249 | The watcher runs if and only if the last of its calls of start and stop was a start. |
| `DebounceRuns.LastSeenIsLatest` | src/athena/vault/watcher.py:258-280 | In every run the time kept for a pending path is that of its last event. |
| `DebounceRuns.CancelledNeverRuns` | src/athena/vault/watcher.py:230-280 | A timer that was cancelled before it ran out never runs its callback. |
| `DebounceRuns.PendingIsCalled` | src/athena/vault/watcher.py:258-301 | From any reachable state, a pending event that no later event of its path and no stop disturbs is claimed and called back once its timer has run out, and its path is then clear. |
| `Splitter.SplitAtSemicolons` | src/athena/db/migrate.py:63-67 | The trimmed non-empty parts between semicolons. |
| `Splitter.SplitStatements` | src/athena/db/migrate.py:55-68 | The loop over the matches yields each trigger block whole and the pieces of what lies between. |
| `SplitRoundTrip.RoundTrip` | src/athena/db/migrate.py:24-68 | Splitting a printed list of plain and trigger statements gives the list back, for every list and every filler of whitespace and semicolons. |
| `SplitterPattern.MatchAtIff` | src/athena/db/migrate.py:24 | The matcher finds at a place exactly the shortest text there that the regular expression describes: the two words in either case with whitespace between and a word edge after, anything, an edge, the last word, whitespace and a semicolon. |
| `SplitterPattern.FirstMatchIff` | src/athena/db/migrate.py:61 | The next block is the leftmost such match. |
| `SplitContents.LastStatement` | src/athena/db/migrate.py:61-68 | After any leading filler and any printed statements, a last plain statement may end the file without its semicolon. |
| `SplitContents.SplitKeepsText` | src/athena/db/migrate.py:55-68 | Of any text at all, the statements keep every character but whitespace and semicolons, in order. |
| `SplitContents.SplitsIntoStatements` | src/athena/db/migrate.py:55-68 | Of any text at all, every statement is trimmed, not empty, and either one whole trigger block or free of semicolons. |
| `Migrate.DiscoverSorts` | src/athena/db/migrate.py:75-83 | Discovery is a sorted permutation of the numbered files. |
| `Migrate.DiscoverAnyListing` | src/athena/db/migrate.py:75-83 | With distinct versions, the order in which the directory is listed makes no difference. |
| `MigrationProgress.MigrationNameIff` | src/athena/db/migrate.py:78-80 | A file counts if and only if its name is a number, an underscore, anything, and ".sql". |
| `MigrationProgress.ValueOfDecimal` | src/athena/db/migrate.py:81 | A version is the number that its digits write, whatever the leading zeros. |
| `MigrationProgress.ListedUnderItsNumber` | src/athena/db/migrate.py:77-81 | A file so named is listed under that number with its name and text. |
| `Migrate.FirstDrift` | src/athena/db/migrate.py:100-121 | No drift is found exactly when every recorded row has a file of its version with its checksum. |
| `MigrationProgress.DriftStops` | src/athena/db/migrate.py:100-121 | A run refuses to start, and then changes nothing and names the first such row, if and only if some recorded row has no file of its version with its checksum. |
| `Migrate.Connection.ApplyOne` | src/athena/db/migrate.py:178-195 | One transaction: statements, record and version all together, or the state before; `MigrationProgress.CommitsIff` says when which. |
| `Migrate.Connection.ApplyPending` | src/athena/db/migrate.py:154-197 | Verification first, then every file above the version read at the start, in order, up to the first failure. |
| `MigrationProgress.CommitsIff` | src/athena/db/migrate.py:182-195 | A file commits if and only if each of its statements is accepted on what the schema and the statements before it make, no step raises, the record has a table to go to, and no row has its version. |
| `MigrationProgress.RunProgress` | src/athena/db/migrate.py:168-197 | After any earlier runs, a run applies the files one by one as long as they are accepted and stops exactly at the first that is not; it returns exactly if there is none, with all the records. |
| `MigrationProgress.ReturnsOnceFaultsStop` | src/athena/db/migrate.py:154-197 | However often it failed before, a run without faults returns if and only if the statements of all files are accepted in order, and then every file is applied and recorded. |
| `MigrationRuns.CommitsTheSame` | src/athena/db/migrate.py:182-195 | A transaction that commits despite the faults of its run commits what it would without them. |
| `MigrationRuns.PrefixAlways` | src/athena/db/migrate.py:168-197 | After any failed and resumed runs, the records are a prefix of the sorted files, the version is the last recorded one, the schema is their statements, and a failure names the next file. |
| `MigrationRuns.ResumedEqualsClean` | src/athena/db/migrate.py:154-197 | Runs that fail and resume while only higher versions are added, and finally return, leave and return what one clean run does. |
| `MigrationRuns.RerunChangesNothing` | src/athena/db/migrate.py:154-197 | Repeating a run that returned changes nothing and returns the same, from any database and whatever faults it meets. |
| `MigrationRuns.CompleteIff` | src/athena/db/migrate.py:172-176 | A run that returns has recorded every file if and only if every file at or below the starting version was recorded before. |
| `MigrationRuns.SkippedForever` | src/athena/db/migrate.py:172-176 | An unrecorded version at or below the current one is never recorded by any later runs. |
| `Redaction.RedactOne` | src/athena/security/secrets.py:326-355 | The rewriting of one line: whole-line placeholder if a span is missing, else the spans from right to left with clamped offsets. |
| `Redaction.GroupByLine` | src/athena/security/secrets.py:313-321 | The findings by line, each line's in list order. |
| `Redaction.RedactHighConfidenceSpans` | src/athena/security/secrets.py:287-357 | Rewrites the lines with redactable findings, ignores line numbers out of range and joins the lines; `RedactionSelection.RedactedByFields` tells the new text from the fields of the findings. |
| `RedactionSelection.GroupByFields` | src/athena/security/secrets.py:313-321 | A finding is taken for a line if and only if it names the line, is of high confidence and not allowlisted, and in the order of the list. |
| `RedactionSelection.UncountedDropped` | src/athena/security/secrets.py:313-317 | A finding that is low or allowlisted can be dropped from any list without changing the redacted text. |
| `RedactionSelection.RedactedByFields` | src/athena/security/secrets.py:311-357 | Line by line, a line without a high finding that is not allowlisted comes out unchanged; a line with one and no other has its span replaced by the placeholder of its plugin; a line with one that has no span becomes a placeholder of the sorted distinct plugins, joined by "+", with its ending. |
| `Substitution.SpliceAllIsSub` | src/athena/security/secrets.py:349-353 | The right-to-left loop over disjoint spans in range is the position-by-position substitution. |
| `Substitution.RedactionIsSubstitution` | src/athena/security/secrets.py:339-353 | For disjoint spans in range, in any list order, every span becomes its placeholder and every other character is kept. |
| `RedactionLines.SplitConcat` | src/athena/security/secrets.py:311-357 | Joining lines and splitting again gives back as many lines as end in a break, and the very lines if all do. |
| `RedactionLines.RedactedLine` | src/athena/security/secrets.py:326-355 | A redacted line is one line again and keeps its break exactly unless a whole-line redaction does not recognise it. |
| `RedactionLines.LineCountKeptIff` | src/athena/security/secrets.py:311-357 | The number of lines is kept if and only if no line but the last loses its break; then the new text's lines are the redacted lines one by one. |
| `RedactionLines.NewlineTextsKeepLines` | src/athena/security/secrets.py:326-335 | In texts whose breaks are newlines, alone or after a carriage return, lines are always kept, wherever the spans lie. |
| `RedactionOrder.AnyOrder` | src/athena/security/secrets.py:313-353 | When no two different spans of a line start together, the order of the findings makes no difference to the text. |
| `RedactionTies.SameStartOrderMatters` | src/athena/security/secrets.py:349-353 | Two findings of different plugins that start at the same place, anywhere in a line, give different lines in the two orders. |
| `RedactionTies.ThisTextAnyOrderIff` | src/athena/security/secrets.py:349-353 | For one text, spans that are disjoint or tied and at most one finding of a plugin at a place: every order redacts alike if and only if no two findings tie. |
| `RedactionTies.OrderImmaterialIff` | src/athena/security/secrets.py:349-353 | Every text of a length and every selection of the findings is redacted alike in every order if and only if findings that start together have the same placeholder and are equal or both as long as it. |
| `RedactionTies.LongTiesAgree` | src/athena/security/secrets.py:349-353 | Two tied spans of one plugin, both as long as the placeholder, give the same line in both orders though they differ. |
| `RedactionTies.EatenConflict` | src/athena/security/secrets.py:349-353 | A tie of two plugins is not seen in a line where a long finding listed twice takes both placeholders. |
| `RedactionCover.LeftExplains` | src/athena/security/secrets.py:349-353 | Followed on positions, the loop says of every character of the redacted line where it comes from. |
| `RedactionCover.LeakFreeErases` | src/athena/security/secrets.py:349-353 | For spans that overlap or not, nothing that a finding covers is left if no finding starts in another one, ends before it and is shorter than its placeholder. |
| `RedactionCover.ErasedIff` | src/athena/security/secrets.py:349-353 | In every selection of the findings nothing covered is left, if and only if there is no such pair. |
| `Paths.CheckNoSymlinksInChain` | src/athena/safety/paths.py:168-217 | Passes if and only if no literal prefix below the root is a link. |
| `Paths.ResolveCreateMode` | src/athena/safety/paths.py:307-371 | The nearest existing ancestor resolved and checked, with the remainder appended, and its error cases. |
| `Paths.ResolveVaultPath` | src/athena/safety/paths.py:374-436 | The three modes with their checks in the code's order. |
| `PathProofs.AcceptedIsBelow` | src/athena/safety/paths.py:374-436 | Every accepted path is strictly below the root, over every tree and in every mode. |
| `PathOutcomes.CandidateIs` | src/athena/safety/paths.py:300-304 | A relative path goes below the root, an absolute one stands for itself, and two leading slashes are kept apart. |
| `PathOutcomes.LinkIsItsTarget` | src/athena/safety/paths.py:374-436 | Resolving through a link is resolving its target, from its directory or from the root, for one step of the budget. |
| `PathOutcomes.ParentStep` | src/athena/safety/paths.py:374-436 | Resolving ".." goes to the parent of a directory, and the parent of the root is the root. |
| `PathOutcomes.ExistingIff` | src/athena/safety/paths.py:374-436 | EXISTING gives each of its errors exactly for its way of not being a plain place below the root, and else accepts what the path resolves to. |
| `PathOutcomes.CreateIff` | src/athena/safety/paths.py:307-371 | CREATE gives each of its errors exactly for its way of not being writable below the root as it stands, and else accepts the path as it is written. |
| `PathOutcomes.PathspecIs` | src/athena/safety/paths.py:439-449 | A pathspec is the accepted path below the root with its components joined, and an error is passed on. |
| `PathProofs.CreateIsLexical` | src/athena/safety/paths.py:307-371 | CREATE accepts exactly the link-free, not hardlinked paths below the root without "..", and answers root plus the raw components. |
| `PathProofs.ModesAgree` | src/athena/safety/paths.py:374-436 | For an existing target inside the root without "..", the three modes give the same answer or the same error. |
| `PathProofs.ModesAgreeIff` | src/athena/safety/paths.py:374-436 | A path that EXISTING accepts is accepted alike by CREATE if and only if it is written inside the root without "..". |
| `PathProofs.MissingTarget` | src/athena/safety/paths.py:405-436 | For a missing target EXISTING refuses, and the other two modes agree. |
| `PathProofs.ParseUndoesJoin` | src/athena/safety/paths.py:439-449 | Parsing the POSIX string of a list of components gives the list back. |
| `PathProofs.PathspecIdempotentIff` | src/athena/safety/paths.py:439-449 | Resolving a pathspec's answer again gives it back if and only if what the path resolves to is missing or has no control character in a component below the root. |
| `PathProofs.BreakIsRefused` | src/athena/safety/paths.py:439-449 | A link outside the vault to a file whose name has a line break: the answer is that name, and resolving it is refused. |
| `PathProofs.PathspecIdempotent` | src/athena/safety/paths.py:439-449 | For a pathspec written inside the root without "..", resolving is idempotent. |
| `Fusion.Scoreboard.Add` | src/athena/retrieval/fusion.py:33-60 | The two dictionaries and their key order stay the tally of the votes so far. |
| `Fusion.Fuse` | src/athena/retrieval/fusion.py:25-67 | Hits without a chunk are dropped, title hits count for their note's first chunk, and the result is the stable descending sort of the tallied scores. |
| `FusionBound.FusedRanking` | src/athena/retrieval/fusion.py:62-67 | The output is a descending permutation of the named chunks, each with its score and last note. |
| `FusionHits.FusedTells` | src/athena/retrieval/fusion.py:33-67 | A chunk has a result if and only if some hit of the three lists stands for it; its score is the sum of the shares of its hits, and its note is that of its last hit. |
| `FusionBound.TiesByFirstVote` | src/athena/retrieval/fusion.py:62-67 | Chunks with equal scores come in the order of their first hits. |
| `FusionBound.ScoreOfLists` | src/athena/retrieval/fusion.py:36-60 | A score is the sum of what the three lists give. |
| `FusionBound.ScorePermutes` | src/athena/retrieval/fusion.py:36-60 | The order in which a list is processed makes no difference to a score. |
| `FusionBound.TwoListsFirst` | src/athena/retrieval/fusion.py:36-67 | If each list names a chunk at most once with ranks up to k + 1, a chunk in two or three lists precedes every chunk in one. |
| `FusionBound.BoundIsTight` | src/athena/retrieval/fusion.py:36-67 | With lists of k + 2 hits, ranked by position, a chunk in one list can precede a chunk in two in the fused ranking. |
| `KeywordSearch.WordsKeepText` | src/athena/retrieval/keyword_search.py:22 | The words hold every character that is not whitespace, in order. |
| `KeywordSearch.SanitizeRoundTrip` | src/athena/retrieval/keyword_search.py:21-25 | Read by section 3.1 of the SQLite FTS5 documentation, the query of every input is exactly its words, all quoted strings. |
| `KeywordSearch.EmptyQueryIff` | src/athena/retrieval/keyword_search.py:22-24 | The query is empty if and only if the input is all whitespace. |
| `SearchRows.WordsOfSpaced` | src/athena/retrieval/keyword_search.py:22 | Words with whitespace between them come apart again as they were. |
| `KeywordSearch.SearchChunks` | src/athena/retrieval/keyword_search.py:45-97 | The first rows that carry all tags, up to the limit, ranked from 1, out of the over-fetched matches. |
| `SearchRows.SearchFinds` | src/athena/retrieval/keyword_search.py:45-97 | A search with any words answers, ranked from 1, the first rows of the over-fetched pool that carry all tags, as many as asked for and at least one; no such row before the last answered one is left out. |
| `KeywordSearch.SearchFitsFusion` | src/athena/retrieval/keyword_search.py:45-97 | With a pool of at most k + 1, its hits satisfy what the fusion bound asks of a list. |
| `Evaluation.FirstRelevant` | src/athena/retrieval/evaluation.py:129-134 | The reciprocal rank loop computes the specification from the first index. |
| `Evaluation.RunEvaluation` | src/athena/retrieval/evaluation.py:94-161 | The accumulating loop reports the averages over the answerable questions and the counts of the others. |
| `Evaluation.SearchRankedNotePaths` | src/athena/retrieval/search.py:105-140 | The paths of the ranked chunks' notes, each note at its first rank only, missing rows skipped. |
| `EvaluationFigures.SearchAnswers` | src/athena/retrieval/search.py:129-140 | The search answers the paths of exactly the notes that some ranked chunk shows, each once, a note whose first chunk ranks higher first. |
| `EvaluationFigures.RatesCount` | src/athena/retrieval/evaluation.py:107-127 | Recall and precision are the number of relevant paths among the first k, as shares of all relevant paths and of k. |
| `EvaluationFigures.ExchangeNeighbours` | src/athena/retrieval/evaluation.py:90-91 | Exchanging two neighbours in a ranked list changes its gain by the difference of their grades times that of their discounts. |
| `EvaluationFigures.OneMoreQuestion` | src/athena/retrieval/evaluation.py:94-161 | One more question with a relevant judgment moves every average by the share of its figure; one without moves only the false positive rate. |
| `Metrics.RankedExcess` | src/athena/retrieval/evaluation.py:136-138 | Distinct ranked paths collect no more grade above any threshold than all judgments hold. |
| `Metrics.PrefixDominates` | src/athena/retrieval/evaluation.py:136-138 | The first n ranked grades sum to at most the n highest grades, for every n. |
| `Metrics.LeadsWeighted` | src/athena/retrieval/evaluation.py:90-91 | Under any positive decreasing discount, a list that leads in every prefix has the higher sum, with equality only for equal entries. |
| `Metrics.NdcgInRange` | src/athena/retrieval/evaluation.py:136-140 | nDCG@10 lies in [0, 1] for distinct ranked paths and non-negative grades. |
| `Metrics.NdcgIsOneIff` | src/athena/retrieval/evaluation.py:136-140 | For an answerable question nDCG@10 is 1 if and only if the first ten grades are the ideal ones, in order. |
| `Metrics.RepeatsExceedOne` | src/athena/retrieval/evaluation.py:136-140 | With a path ranked twice nDCG exceeds 1. |
| `Metrics.RankOfFirst` | src/athena/retrieval/evaluation.py:129-134 | The reciprocal rank is that of the first relevant path. |
| `Metrics.RankInRange` | src/athena/retrieval/evaluation.py:129-134 | It is zero if and only if no relevant path is ranked, and at most 1. |
| `Metrics.ReportInRange` | src/athena/retrieval/evaluation.py:142-161 | Every averaged figure and the false positive rate lie in [0, 1]. |
| `Metrics.SearchIsDistinct` | src/athena/retrieval/search.py:129-140 | With one path per note, the search never returns a path twice, which is what the evaluation needs. |
| `Dispatch.Jobs.CountDispatchedToday` | src/athena/db/repository/research_jobs.py:221-228 | Counts the rows of one job type on one day. |
| `Dispatch.Jobs.ReserveDispatchSlot` | src/athena/db/repository/research_jobs.py:251-305 | Reserved if and only if the count is below the ceiling and no step raises; in every other case the table is unchanged. |
| `Dispatch.CeilingHolds` | src/athena/db/repository/research_jobs.py:286-305 | In every interleaving of concurrent callers, the committed rows of a job type and day never exceed the shared ceiling. |
| `DispatchTotals.NoSlotIsLost` | src/athena/db/repository/research_jobs.py:286-305 | In every interleaving, the rows of a job type and day are those from before and exactly one for each caller that committed. |
| `DispatchTotals.EverySlotIsTaken` | src/athena/db/repository/research_jobs.py:286-305 | Once all callers of a job type and day are answered, its rows are as many as were asked for or as the ceiling allows, in whatever order they came. |
| `DispatchTotals.FailedWasStruck` | src/athena/db/repository/research_jobs.py:286-305 | A caller fails only if an exception or a timeout strikes it. |
| `DispatchTotals.NeverStuck` | src/athena/db/repository/research_jobs.py:286-305 | As long as some caller has no answer, some step without an exception is possible. |
| `Dispatch.RefusedAtCeiling` | src/athena/db/repository/research_jobs.py:286-305 | A refusal comes only when the committed rows equal the ceiling, and leaves them alone. |
| `Dispatch.CheckThenInsertOvershoots` | src/athena/db/repository/research_jobs.py:231-248 | With the separate check and insert, any number of callers that find room add all their rows, from any table. |
| `Dispatch.LooseKeptIff` | src/athena/db/repository/research_jobs.py:231-248 | The separate pair keeps every ceiling in every run from every table if and only if no two callers have one job type, one day and a positive ceiling. |
| `Dispatch.OtherDayOvershoots` | src/athena/db/repository/research_jobs.py:286-305 | A reservation counted on another day than it writes passes a ceiling that its own day has reached. |
| `Dispatch.CeilingsKeptIff` | src/athena/db/repository/research_jobs.py:286-305 | The ceilings hold in every interleaving from every table if and only if every caller counts on the day that it writes or has ceiling zero. |

## Left out

- SQL text, async plumbing, Huey and its per-path lock: a committed repository call is one step, and only the dispatch ceiling and the watcher are modelled with concurrency.
- Two ingestion or index jobs racing on one note, and a process kill between commits: the code claims nothing there.
- Ingest.Database.IngestNote: the rows that the job also writes beside the note and its `vault.note_*` event (job events, provenance, tags, secret findings) are not modelled.
- Reconcile.ReconcileOne: the `reconciliation.discrepancy_found` event repeats what the answer says, and the chained indexing call is modelled in `Indexing` only.
- Which files a walk lists: `walk` is an arbitrary list of distinct existing files.
- Parsing, embedding, chunking, MinHash-LSH, Qdrant search, reranking, detect-secrets and the row order of unordered queries: arbitrary inputs of the shape that the callers use.
- SHA-256: taken to be injective in `Knowledge`, an arbitrary function in `Migrate`, an opaque value elsewhere.
- Floating-point rounding: scores, weights and averages are exact reals, and the base-2 logarithm of the discount is any positive strictly decreasing weight.
- Knowledge.KnowledgeBase.ResolveDuplicate: names a candidate by its ordered pair, which is unique, instead of by its row id.
- DuplicateScan.ScanForDuplicates: the candidates are answered as rows; upserting one is `Knowledge.KnowledgeBase.UpsertCandidate`. The MinHash signatures that the lexical leg stores are part of the arbitrary answers.
- Knowledge.KnowledgeBase.Merge: an exception between the row writes that follow the file write is not modelled.
- KnowledgeRuns.RunKeepsText: edits and moves of files between the operations are not part of the runs.
- Indexing.IndexStore.IndexNote: the status write of the promotion is only a step that can raise there; what it does to the status is modelled in `Knowledge`. A SQLite step that raises is taken to have had no effect.
- Indexing.IndexStore.IndexBootstrap: every failure record is taken to be written; what a lost one costs is `IndexRuns.LostFailureRecord`.
- `move_note` and `update_note_content`: single-row writes outside the merge.
- Splitter.SplitStatements: letters are folded and word characters recognised over ASCII only.
- Migrate.Connection.ApplyOne: versions are unbounded, while SQLite keeps `user_version` in a signed field of 32 bits; a file with a version of 2147483648 or more is not modelled.
- Migrate.Connection.ApplyPending: a migration whose own statements edit `schema_migrations`, `user_version` or the transaction is not modelled, nor are timestamps or digits beyond ASCII in file names.
- Redaction.RedactHighConfidenceSpans: scanning itself and its timeout are not modelled; findings are arbitrary.
- RedactionTies.ThisTextAnyOrderIff: for one text, overlapping spans and several findings of one plugin at a place are covered by the sufficient condition of `RedactionOrder.AnyOrder` and by `RedactionTies.OrderImmaterialIff`, which ranges over all texts; whether such a tie shows in a given text depends on the text itself.
- Paths.ResolveVaultPath: the tree is static and accessible; the number of links followed is a parameter, and whether resolving ".." after a plain file succeeds is another, because Python versions differ. On Python 3.12 a loop of links outside the vault makes resolving raise a RuntimeError that the code does not catch; the model answers an error value.
- Fusion.Fuse: k is not negative and ranks are positions from 1, as every caller has them.
- KeywordSearch.SanitizeRoundTrip: the documented string rule is read over all characters; that a C string ends at a NUL character is not modelled.
- `search_notes`: the same loop as `search_chunks` over notes.
- Evaluation.RunEvaluation: the two latency percentiles of the report are not modelled, nor is reading the corpus from JSON.
- Dispatch.Jobs.ReserveDispatchSlot: a failing COMMIT is not modelled.
- MCP tools, CLI, diagnostics, configuration, logging, Git, HTTP and LLM calls: wiring and foreign processes.
- `build_context`, `find_related`, provenance inference, permissions and the serializer check: easy members beside the ones above.
