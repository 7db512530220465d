# Verification of the publication, index and verification algorithms

This project models the algorithmic core of a public SEC research pipeline in Dafny and proves what the
pipeline relies on. The object store is a map with a conditional put; digests are an abstract function
(collision-free only where a lemma says so); texts are sequences of characters.

| module | what it models |
|---|---|
| `Publication` | create-only publication by many writers, interleaved and crashing anywhere, as a step system |
| `Publishing` | the budget, the verified read, `pin`, the pinning loop and the research publisher's `write`, as classes and methods proved against `Publication` |
| `Recovery` | every crash point of a publisher, exactly which write orders survive them, the strict publisher that cannot start over, and starting everyone else over |
| `Materialization` | the checkpointed issuer loop with its worker threads, deaths and resumes, as a step system |
| `BlockCaches` | the two block caches over a remote range, the opportunistic hash and the archive pass |
| `HistorySignature` | the signature of a financial history up to source identifiers, across snapshots that renamed them |
| `ScreenShards` | the catalog builder's and the update's per-metric shards |
| `CrspIndex` | span segmentation of the daily table and the per-security index |
| `CanonicalJson`, `AsciiNames`, `CheckpointIdentity` | the canonical encoder, the escaping one, and the identity streamed over checkpoint files |
| `Supersession` | the memoized and the naive latest-filing checks |
| `ReadinessIndex` | the screening buckets and CIK shards against the record scan |
| `JsoncReader` | the comment-tolerant JSON scanner, against a token grammar (strings as in section 7 of RFC 8259) |
| `RangePlan` | the balanced partition of issuers among workers |
| `ControlledPromotion` | staged activation, verification and rollback over an arbitrary environment |
| `PrefetchWriter` | the bounded prefetch and row-group writer |
| `DecimalSum` | the DECIMAL(38) guard, the engine's sum and the exact sum |
| `Sequences`, `Sorting`, `Text`, `Wrappers` | concatenation of lists, insertion sort as a normal form, stability, Python's string order, and an option type |

Code that updates state step by step is a class or a method with loops; its contract ties the result to a
specification function or predicate whose properties the lemmas prove. Concurrency is a step system with
arbitrary action lists: a run is any sequence of begins, puts that return or are lost before or after taking
effect, read-backs, crashes and restarts.

## What the proofs found

- **A memo that is stricter than the check it caches.** Both supersession checks compute the midnight after
  a filing date, and a date such as 9999-12-31 overflows. The naive check computes only dates of the row's own
  context; the memo table computes all eligible dates of the tag and unit. `Supersession.MemoizedCheck` states
  the exact condition and `Supersession.OverflowSeparates` the separating company.
- **A stage receipt can be missing for good.** A process that dies between saving a stage's last checkpoint
  and writing the receipt is resumed by a loop that skips that issuer before the receipt code
  (`Materialization.ReceiptCanBeMissing`). The exact condition can be read before a resume: the receipt will be
  there exactly when it already is or the stage's last issuer has no checkpoint
  (`Materialization.ReceiptsExactly`, and over any number of deaths `Materialization.ReceiptMissingExactly`).
- **A receipt can be torn, and then nothing resumes.** Receipts are written in place and every start parses them
  all; a death exactly between opening and closing the file (`Materialization.DeathTears`) stops every later
  start (`Materialization.TornReceiptBlocks`), so the materialization cannot be completed any more
  (`Materialization.CompletableExactly`).
- **A caught fault is permanent.** An evaluation error turned into a quarantine checkpoint is never retried
  (`Materialization.CaughtFaultIsPermanent`, with a run in `CaughtFaultDiverges`);
  `Materialization.ResumesConverge` is therefore an if and only if, and `Materialization.FaultlessRunsAgree`
  says that runs without such faults always agree.
- **A resume pays again.** Each process reserves anew the bytes of every usable checkpoint it finds;
  `Materialization.CompletableExactly` says which storage and spend limits still let a resume complete.
- **The report writer can suppress the rollback.** An activation that did not pass is rolled back exactly when
  the record announcing ROLLING_BACK can be written; `RunControlled` gives that record's number and
  `ControlledPromotion.SuppressedRollback` a run that loses the rollback. A verified rollback is reported as
  ROLLBACK_UNVERIFIED exactly when the record after it raises (`ControlledPromotion.UnreportedRollback`).
- **The streamed identity depends on the names.** With names of different lengths file order and key order can
  differ, and the streamed keys escape non-ASCII characters while the published document keeps them;
  `CheckpointIdentity.StreamedEqualsWhole` is the exact condition, which ten-digit CIKs meet, and
  `CheckpointIdentity.UnequalLengthsDiffer` a pair of names that does not.
- **The catalog sharder has no row budget**, unlike the update: its shards are re-readable exactly when no row
  is too long (`ScreenShards.CatalogShardsReread`), and `ScreenShards.LongRowUnreadable` has a row that is.
- **The range reader with a cache capacity of zero** evicts the block it just fetched and then fails on it, a
  read to the end from past the end raises, and a read from a negative offset asks for bytes before the range;
  none of this disturbs later reads or the hash (`BlockCaches.Replay`).
- **Writing the manifest first** leaves a dangling manifest after a crash unless everything it lists is already
  there (`Recovery.ManifestFirstExactly`); `Recovery.CrashSafeExactly` is the exact condition for a whole write
  order. The readiness index is published that way by a publisher that fails on an existing object, so it cannot
  be re-run past its manifest: after a death it can finish exactly when its first object was not stored yet or its
  last read-back had returned (`Recovery.StrictRecoversExactly`), and what dangles, dangles for good
  (`Recovery.DanglesForGood`).
- **Torn metadata stops the security index.** What a scan found is kept in a file written in place; a death there
  leaves a file every later run fails on (`CrspIndex.Index`, `CrspIndex.TornMetadataBlocks`).
- **The decimal guard counts terms, not coefficients**: it protects every list of values exactly when the
  absolute coefficients sum to at most ten to the length of the term count (`DecimalSum.GuardProtectsExactly`).
  That it is needed, not that it suffices, rests on the engine refusing sums of 10^38 units or more, which is
  assumed of the engine here.

## Model

| member | source | states |
|---|---|---|
| `Publication.StepKeepsInvariant` | scripts/sec_publish_update_release.py:54-67 | Every step of every writer (begin, put that returns or is lost, read-back, crash, restart) keeps the store closed under references, keeps what each publisher has pinned stored with its bytes, and changes no stored object. |
| `Publication.NextRefsResolve` | scripts/sec_publish_update_release.py:372-429 | When a publisher that pins in plan order reaches an object, every reference inside that object already resolves. |
| `Publication.JustifiedInherits` | scripts/sec_publish_update_release.py:236-262 | References copied from a verified parent of a closed store resolve, so inheritance is sound by induction on the parent. |
| `Publication.NothingChangesNothingDangles` | scripts/sec_publish_update_release.py:54-67 | For any number of writers and any interleaving with crashes, no stored object ever changes and no stored reference ever dangles. |
| `Publication.PresentRootIsComplete` | scripts/sec_publish_update_release.py:372-429 | An object that appeared during a run was some plan's write: all earlier writes of that plan are stored with exactly their bytes, and everything the object refers to resolves to any depth. |
| `Publication.ReleaseWellOrdered` | scripts/sec_publish_update_release.py:372-429 | Writing payloads, then the shards that list them, then metric shards, then the implementation, then the manifest is an order in which every object refers only to inherited objects and earlier pins; the manifest is last. |
| `Publication.PresentRootImpliesRelease` | scripts/publish_unified_research_release.py:387-422 | If publishers assemble releases this way, a root manifest that appeared during a run implies that a whole release is stored and everything reachable from its root resolves. |
| `Publication.Converges` | scripts/sec_publish_update_release.py:54-67 | Two runs of the same compatible plans, however interleaved, crashed and restarted, end with the same store once everyone is done. |
| `Publication.RerunCompletes` | scripts/sec_publish_update_release.py:54-67 | A publisher that starts over alone after a crash completes if and only if its parents verify and no key it writes holds other bytes, or, for one that fails on existing objects, none of its keys is taken or used twice. |
| `Publication.ManifestFirstDangles` | scripts/sec_readiness_index.py:214-240 | A publisher that writes its manifest before an absent object the manifest lists leaves, if it dies in between, a store whose manifest dangles. |
| `Recovery.CrashSafeExactly` | scripts/sec_readiness_index.py:214-240 | For a publisher, tolerant of existing objects or strict as this one, about to begin on a closed store with room for its objects: no crash point leaves a dangling reference if and only if, for every object in write order, whatever it refers to resolves once it is stored. |
| `Recovery.ManifestFirstExactly` | scripts/sec_readiness_index.py:214-240 | The crash right after a manifest written first leaves a closed store exactly when everything the manifest lists was already stored or is the manifest itself. |
| `Recovery.StrictFinishesExactly` | scripts/sec_readiness_index.py:221-226 | After any history, a publisher whose create-only put raises on an existing object, not running and with verified parents, can be made to finish by some later actions, of anyone, exactly when it is done already or none of its keys is taken, nor used twice. |
| `Recovery.StrictRecoversExactly` | scripts/sec_readiness_index.py:221-229 | Having died at any point, after a read-back or between a put and its read-back, such a publisher can be made to finish, by anything anyone does later, exactly when its first object was not stored yet or its last read-back had returned. |
| `Recovery.DanglesForGood` | scripts/sec_readiness_index.py:221-229 | After such a death the manifest stays stored and an object it lists that was not stored yet is never there, whatever anyone does later, as long as nobody but processes of the same publication would write that object. |
| `Recovery.UnreadLeavesSame` | scripts/sec_publish_update_release.py:54-67 | Dying between a put and its read-back leaves the same store as dying after the read-back. |
| `Recovery.RerunFinishes` | scripts/sec_publish_update_release.py:54-67 | After any history of a compatible system, starting a tolerant publisher over makes it done exactly when it was done already or its parents verify by then. |
| `Recovery.RecoveryConverges` | scripts/sec_publish_update_release.py:54-67 | From any two histories, however interleaved and wherever crashed, starting every publisher over in turn makes everyone done, with one and the same store, also when a publisher inherits from what an earlier one writes. |
| `Publishing.Budget.Reserve` | scripts/sec_publish_update_release.py:23-38 | A reservation is granted exactly when bytes and creates both fit, and then both counters advance; the maxima are never exceeded. |
| `Publishing.Read` | scripts/sec_publish_update_release.py:41-51 | A read succeeds exactly when the declared size is within the limit, the service answers and the stored object has the declared length and digest, and then returns the stored bytes. |
| `Publishing.Pin` | scripts/sec_publish_update_release.py:54-67 | A pin succeeds exactly when the budget allows it, the put and the read-back are answered and the key is absent or already holds these bytes; a put or read-back that raises may leave the object stored, and nothing stored ever changes. |
| `Publishing.PinAll` | scripts/sec_publish_update_release.py:372-429 | Pinning a release completes if and only if nothing fails outside (between the pins, in a put or in a read-back), the whole release fits the budget and no object conflicts; in every case the references returned are the pins of a prefix and the store is the old one plus that prefix and at most the object whose pin failed. |
| `Publishing.AfterMeans` | scripts/sec_publish_update_release.py:54-67 | What is stored after the first i writes is exactly the old objects and those writes. |
| `Publishing.NoConflictStep` | scripts/sec_publish_update_release.py:54-67 | One more write conflicts exactly when its key holds other bytes once the earlier writes are in. |
| `Publishing.PinsLeaveAfter` | scripts/sec_publish_update_release.py:372-429 | The protocol's publisher, run alone, has after any number of pins the store and the position the pinning loop has. |
| `Publishing.ReleasePublisher.Write` | scripts/publish_unified_research_release.py:62-92 | Exact success condition, store and counters of a create-and-read-back: the budget counts answered attempts, a create that raises counts nothing even if it took effect, existing objects are accepted only with equal bytes, and an object over the 2 MiB read limit is stored before its read-back is refused. |
| `Materialization.StepKeepsInvariant` | scripts/sec_universe_pipeline.py:299-306 | Every step of the loop, the worker threads, a death or a resume keeps: a checkpoint is the expected one or a caught failure, a usable checkpoint's object is stored with the bytes of its ref, receipt files, whole or not, exist only for covered stages, pending tasks are distinct issuers without a checkpoint. |
| `Materialization.CheckpointsAreBacked` | scripts/sec_universe_pipeline.py:81-100 | At every moment of every run a usable checkpoint's reference resolves to the issuer's object, a stage-k receipt file implies that the first k selected issuers have checkpoints, and at most four tasks are pending. |
| `Materialization.NothingIsUndone` | scripts/sec_universe_pipeline.py:67-78 | No object, checkpoint or whole receipt is changed or lost by anything that happens later, deaths included, although receipts are written in place. |
| `Materialization.ResumesConverge` | scripts/sec_universe_pipeline.py:318-417 | However often the process died, a completed run has a checkpoint for exactly the selected issuers, and the map of statuses and refs equals the uninterrupted one if and only if no caught fault changed a verdict. |
| `Materialization.FaultlessRunsAgree` | scripts/sec_universe_pipeline.py:318-417 | Any two completed runs in which no evaluation met a fault, however often each was killed and resumed, have the same checkpoints: those of an uninterrupted run. |
| `Materialization.CaughtFaultDiverges` | scripts/sec_universe_pipeline.py:379-385 | A concrete run completes with a quarantine checkpoint for an issuer whose evaluation is usable, because one evaluation met a fault: its map differs from the uninterrupted one. |
| `Materialization.CaughtFaultIsPermanent` | scripts/sec_universe_pipeline.py:320-324 | A checkpoint that came from a caught fault stays that quarantine after every further action, deaths and resumes included. |
| `Materialization.CompletableExactly` | scripts/sec_universe_pipeline.py:318-417 | A stopped materialization can be completed by fault-free resumes if and only if no receipt file is incomplete, no remaining issuer's key holds other bytes, and every usable issuer's bytes, reserved anew by each process, fit the storage and spend limits on top of all earlier ones; then one more process is enough. |
| `Materialization.ReceiptsExactly` | scripts/sec_universe_pipeline.py:320-324 | After one process that completes, a stage has its receipt exactly when it had it before or the stage's last issuer had no checkpoint when the process started. |
| `Materialization.FirstRunReceipts` | scripts/sec_universe_pipeline.py:405-415 | A first process that completes ends with exactly the receipts at 2000 and 5000 issuers, as far as these are below the total, and at the total, each only if that many issuers were selected. |
| `Materialization.SkippedForGood` | scripts/sec_universe_pipeline.py:320-324 | Once a stage's last issuer is checkpointed without the receipt being due, the receipt is never written by any later actions, deaths and resumes included. |
| `Materialization.ReceiptMissingExactly` | scripts/sec_universe_pipeline.py:320-324 | A completed run, over any number of deaths, lacks a stage's receipt exactly when some process was started with the stage's last issuer checkpointed and no receipt. |
| `Materialization.DeathTears` | scripts/sec_universe_pipeline.py:405-415 | A death leaves an incomplete receipt file exactly when it falls between opening and closing the file. |
| `Materialization.UnansweredNeverCompletes` | scripts/sec_universe_pipeline.py:299-306 | A process in which a put, a read-back or the write of a temporary file was not answered does not complete, whatever it still does. |
| `Materialization.TornReceiptBlocks` | scripts/sec_universe_pipeline.py:243-254 | With an incomplete receipt file every later start fails on reading it: nothing changes any more. |
| `Materialization.ReceiptCanBeTorn` | scripts/sec_universe_pipeline.py:405-415 | A concrete run that dies while the receipt is open. |
| `Materialization.ReceiptCanBeMissing` | scripts/sec_universe_pipeline.py:320-324 | A concrete run (save, die, resume) in which a fully checkpointed stage never gets its receipt, because the resumed loop skips the issuer before the line that writes it. |
| `BlockCaches.RangeReader.Block` | scripts/sec_universe_readiness.py:188-215 | A block returned is exactly the slice of the range, whether held or fetched; recency order, counters and evictions are those of an LRU of the given capacity; a cache of capacity zero fails. |
| `BlockCaches.RangeReader.Admit` | scripts/sec_universe_readiness.py:205-214 | A fetched block is counted, hashed only if it is the next of the prefix, joins as the youngest, and at most `cached` blocks are held, each equal to its slice. |
| `BlockCaches.RangeReader.Seek` | scripts/sec_universe_readiness.py:173-180 | The three ways of seeking, and only the offset changes. |
| `BlockCaches.RangeReader.ReadInto` | scripts/sec_universe_readiness.py:217-231 | A read returns exactly the requested slice clipped at the end, whatever was cached or evicted and however many blocks it spans, and advances the offset by its length; from a negative offset it returns as many bytes as asked for, ending with the range from its start; a failed read moves nothing. |
| `BlockCaches.RangeReader.Read` | scripts/sec_universe_readiness.py:233-238 | As ReadInto, with no size meaning to the end; that raises exactly when the offset is past the end. |
| `BlockCaches.RangeReader.ContiguousMeansWhole` | scripts/sec_universe_readiness.py:261-262 | Under every access pattern the contiguity test holds exactly when the bytes hashed are the whole range. |
| `BlockCaches.Replay` | scripts/sec_universe_readiness.py:145-238 | For every sequence of seeks and reads, whatever reads failed before, each read from an offset in or past the range that does not fail returns what the plain bytes return and raises where they do; with answered requests and a positive capacity none of them fails. |
| `BlockCaches.TouchBounded` | scripts/sec_universe_readiness.py:212-214 | The recency list never exceeds the capacity, stays free of repetition, and ends with the block just used. |
| `BlockCaches.ArchiveStatus` | scripts/sec_universe_readiness.py:241-264 | The sequential pass ends; when every request is answered it has hashed the whole object once in order with zero gaps, one request per block, and reports contiguity. |
| `BlockCaches.GlueWhole` | scripts/sec_universe_readiness.py:261-262 | Joining the first n blocks gives the whole object exactly when n is the number of blocks. |
| `BlockCaches.SplitCount` | scripts/sec_universe_readiness.py:262-262 | The rounded-up quotient the code computes is the number of blocks. |
| `BlockCaches.CachedRangeArchive.GetObject` | scripts/sec_universe_pipeline.py:112-138 | Every range request is answered with exactly the bytes of start..end the object has, none for an empty range, at most three blocks are held afterwards, and at most one request is made per block touched; with answered requests only a range that reaches past the last block can fail. |
| `BlockCaches.CachedRangeArchive.Load` | scripts/sec_universe_pipeline.py:118-134 | A miss holds the fetched block; with three already held, the oldest leaves. |
| `HistorySignature.SourceTermsNormalForm` | scripts/sec_publish_update_release.py:178-195 | Two lists of signed terms get the same `source_terms` exactly when the net coefficient of every financial context agrees. |
| `HistorySignature.PermutationKeepsNet` | scripts/sec_publish_update_release.py:181-191 | The order of the terms does not matter. |
| `HistorySignature.SplittingKeepsNet` | scripts/sec_publish_update_release.py:189-191 | A term may be split into several of its context, and cancelling terms may be added, without changing any net. |
| `HistorySignature.LastWins` | scripts/sec_publish_update_release.py:148-150 | The source table gives an identifier the financial context of its last observation. |
| `HistorySignature.FinancialContextMeans` | scripts/sec_publish_update_release.py:153-169 | Two observations have the same context exactly when they agree on concept, unit, currency, value, both period ends, availability, accession, form and filing date. |
| `HistorySignature.CleanObjectsMean` | scripts/sec_publish_update_release.py:146-196 | Two objects clean alike exactly when every field but the four citation fields and the term list is in both or neither and cleans alike, and both cite terms of one normal form or neither cites any. |
| `HistorySignature.RenamedSnapshotTracks` | scripts/sec_publish_update_release.py:142-170 | When a snapshot's identifiers are renamed injectively and each observation keeps its financial context, every new identifier resolves to the old one's context and no identifier appears or disappears. |
| `HistorySignature.GrownSnapshotTracks` | scripts/sec_publish_update_release.py:142-170 | The same resolution holds for a later snapshot with distinct identifiers that contains every old observation in any order among any new ones. |
| `HistorySignature.RenamingKeepsTerms` | scripts/sec_publish_update_release.py:178-195 | Terms renamed along with their sources resolve to the same contexts and get the same `source_terms`. |
| `HistorySignature.EqualSourceTermsEqualSums` | scripts/sec_publish_update_release.py:178-195 | Equal `source_terms` force equal evaluated sums, for every valuation of contexts. |
| `HistorySignature.MergeTerms` | scripts/sec_publish_update_release.py:179-195 | The merging loop, keyed by encoded context, fails exactly when a source is missing and otherwise produces that normal form. |
| `HistorySignature.CleanNormalForm` | scripts/sec_publish_update_release.py:171-198 | Two nested values clean to the same value exactly when they agree up to citation fields and, term list by term list, context by context. |
| `HistorySignature.SignatureNormalForm` | scripts/sec_publish_update_release.py:197-200 | Two signatures are equal exactly when the multisets of cleaned rows are, for observations and for coverage gaps. |
| `HistorySignature.SignatureMeans` | scripts/sec_publish_update_release.py:137-200 | Two histories have the same signature exactly when their rows can be matched one for one up to equivalence. |
| `HistorySignature.SnapshotSignatureMeans` | scripts/sec_publish_update_release.py:202-214 | The reproduction check between two snapshots passes exactly when the rows of the two histories match one for one, every term read through the snapshot it came from. |
| `HistorySignature.EqualSignaturesEqualSums` | scripts/sec_publish_update_release.py:178-200 | When two snapshots' histories have the same signature, their observations match one for one and matched observations cite terms that evaluate to the same sum under every valuation. |
| `HistorySignature.RenamedSnapshotReproduces` | scripts/sec_publish_update_release.py:142-200 | A history over the renamed snapshot, its terms cited under the new identifiers and its rows in any order, has exactly the signature of the original, and fails exactly when the original fails. |
| `HistorySignature.GrownSnapshotReproduces` | scripts/sec_publish_update_release.py:142-200 | So has one over a later snapshot that still holds every old observation, once the original could be signed. |
| `ScreenShards.Chunks` | scripts/sec_publish_update_release.py:87-101 | Fails exactly on a row over the budget; otherwise the chunks are non-empty, concatenate to the input, hold at most maximum-513 bytes if of several rows and maximum+1 if of one, and no chunk could have taken the next row. |
| `ScreenShards.ChunksMean` | scripts/sec_publish_update_release.py:87-101 | The bounds of the chunks, in lengths of their encodings: at most maximum-513 for several rows and maximum+1 for one, and over maximum-513 with the next chunk's first row added. |
| `ScreenShards.ChunksUnique` | scripts/sec_publish_update_release.py:87-101 | The update's cut is the only one of the rows that meets those bounds. |
| `ScreenShards.SizeIsLength` | scripts/sec_publish_update_release.py:87-101 | The running size is the exact length of the encoded list. |
| `ScreenShards.CatalogChunks` | scripts/sec_universe_pipeline.py:563-577 | The catalog sharder's chunks concatenate to the input, exceed the limit only as single rows, and are as full as possible. |
| `ScreenShards.CatalogMeans` | scripts/sec_universe_pipeline.py:563-577 | The bounds of the catalog's chunks, in lengths of their encodings: over two MiB less one KiB only as a single row, and over it with the next chunk's first row added. |
| `ScreenShards.CatalogUnique` | scripts/sec_universe_pipeline.py:563-577 | The catalog's cut is the only one of the rows that meets those bounds. |
| `ScreenShards.PlaceInCatalog` | scripts/sec_universe_pipeline.py:566-575 | At every row the running `size` equals the true encoded length of the chunk held. |
| `ScreenShards.UpdateShardsReread` | scripts/sec_publish_update_release.py:379-414 | Every wrapped shard an update emits fits the 4 MiB limit the next update reads with. |
| `ScreenShards.CatalogShardsReread` | scripts/sec_universe_pipeline.py:563-593 | The catalog sharder has no row budget: all its shards fit that limit if and only if no single row is too long for it. |
| `ScreenShards.LongRowUnreadable` | scripts/sec_universe_pipeline.py:563-593 | A row as long as the re-read limit makes the catalog sharder publish a shard the next update cannot read. |
| `ScreenShards.UpdateMetric` | scripts/sec_publish_update_release.py:379-414 | Exactly when an update of one metric fails on its memory budget, on an old shard, on a duplicate company or on a row, and otherwise that its shards concatenate to the sorted kept rows plus replacements. |
| `ScreenShards.ReadShards` | scripts/sec_publish_update_release.py:382-391 | Old shards are read in order; the first that cannot be read or is of another release or registry decides the failure; otherwise the rows kept are those of companies not replaced. |
| `ScreenShards.UpdateIsRebuild` | scripts/sec_publish_update_release.py:378-414 | Updating shards of an index gives shards that concatenate to what the full builder emits for the index with the replacements put in, whatever the chunk boundaries. |
| `ScreenShards.SortedListingsAgree` | scripts/sec_universe_pipeline.py:536-563 | Any listing of the same companies, each once, sorts to the same index. |
| `ScreenShards.RebuildMeans` | scripts/sec_universe_pipeline.py:536-563 | The built index lists each company exactly once and nothing else: those with a value first, by ascending value, then those without one, and equal ones by CIK. |
| `ScreenShards.OrderedRowsMean` | scripts/sec_publish_update_release.py:82-82 | Sorting rows keeps each of them; those with a value come first and ascend by it, and those with the same value, or without one, ascend by CIK. |
| `CrspIndex.GroupSpans` | scripts/build_crsp_stock_index.py:142-159 | The spans of a row group run from its first row to its last, each is one security in one year with exact date bounds and monotonicity flag, and no two neighbours could be joined. |
| `CrspIndex.Scan` | scripts/build_crsp_stock_index.py:129-161 | Scanning a part fails exactly on a null identity or date or an empty row group; otherwise the spans tile 0..rows, describe their rows exactly, and are group by group, with group number and base offset, runs no two neighbours of which could be joined. |
| `CrspIndex.ScanPart` | scripts/build_crsp_stock_index.py:112-177 | A part is taken from what an earlier run kept of exactly this source, or scanned; it fails exactly when it was not kept and the kept file is torn, its length, row count, a group or an identity is wrong, or the process dies keeping it; a file is torn afterwards exactly when it was or the process died, and what is kept is sound. |
| `CrspIndex.PartCovers` | scripts/build_crsp_stock_index.py:179-185 | Adding a part's spans in order extends, for every security, the rows its fragments fetch by exactly its rows of that part. |
| `CrspIndex.AddPart` | scripts/build_crsp_stock_index.py:181-185 | The fold keeps, for every security, its fragments in part order and lists only securities that have fragments. |
| `CrspIndex.Index` | scripts/build_crsp_stock_index.py:112-200 | Whatever earlier runs kept, indexing succeeds exactly when every part is readable, no death cuts a kept file short and the declared row total is the table's; then, for every security, concatenating its fragments in index order is the order-preserving filter of the whole table, and every fragment states the security, year and exact date bounds of its rows; every part is kept for the next run. |
| `CrspIndex.TornMetadataBlocks` | scripts/build_crsp_stock_index.py:113-116 | A kept file cut short by a death lets no later run succeed. |
| `CrspIndex.TileCount` | scripts/build_crsp_stock_index.py:198-200 | Spans that tile a range hold as many rows as the range, so the count check compares the table's rows with the declared number. |
| `CanonicalJson.EncodePrefix` | deploy/cloudflare-query/src/sec_engine.py:109-112 | Canonical text determines its value and where the value ends. |
| `CanonicalJson.EncodeInjective` | deploy/cloudflare-query/src/sec_engine.py:109-112 | Two values have the same canonical text exactly when they are equal, so the text can stand for the value as a key. |
| `CanonicalJson.EscapedReadsBack` | deploy/cloudflare-query/src/sec_engine.py:109-112 | Taking an escaped text apart by the rules of section 7 of RFC 8259 gives the text back. |
| `AsciiNames.AsciiQuotedPrefix` | scripts/sec_universe_basin.py:55-56 | A name written by the escaping encoder reads as a canonical name only if it is the same name and has no character the two encoders write differently. |
| `AsciiNames.AsciiMembersPrefix` | scripts/sec_universe_basin.py:154-163 | Members written with escaped names and canonical values read as canonical members only if they are the same members in the same order under names both write alike. |
| `CheckpointIdentity.SourceInventory` | scripts/sec_universe_basin.py:127-185 | The pass accepts exactly when the manifest is the pinned one, names the receipt's publication and this release, and is public, the receipt is complete, no checkpoint is of another release, unverified or out of scope, the digest of the streamed text is the receipt's release, and the counts and revision total are the receipt's; the usable checkpoints are returned in order, and each has the CIK of its file, status PASS, and a non-empty object of at most 16 MiB of this release. |
| `CheckpointIdentity.RaisesMeans` | scripts/sec_universe_basin.py:150-174 | A checkpoint is accepted exactly when it has a status, is of this release and, if usable, has the CIK of its file, status PASS, and a non-empty object of at most 16 MiB of this release. |
| `CheckpointIdentity.RevisionsAdd` | scripts/sec_universe_basin.py:181-185 | The revisions of two lists are the sum of theirs, and missing when one is missing. |
| `CheckpointIdentity.SelectedCounts` | scripts/sec_universe_basin.py:165-175 | A checkpoint is among the usable ones as often as its file is visited if it is usable, and otherwise not. |
| `CheckpointIdentity.PathOrderMeans` | scripts/sec_universe_basin.py:148-148 | Every checkpoint file is visited once, by ascending file name. |
| `CheckpointIdentity.StreamedEqualsWhole` | scripts/sec_universe_basin.py:147-176 | The streamed text equals the whole document's canonical text if and only if sorted file paths visit the names in key order and neither a name nor the release has a character the two encoders write differently. |
| `CheckpointIdentity.StreamedIsDocument` | scripts/sec_universe_basin.py:147-176 | Streaming some names gives the canonical text of some document exactly when it is the document of these checkpoints and this release, visited in key order, with plain names. |
| `CheckpointIdentity.EqualLengthsInOrder` | scripts/sec_universe_basin.py:148-148 | Names of equal length, such as ten-digit CIKs, are visited in key order. |
| `CheckpointIdentity.UnequalLengthsDiffer` | scripts/sec_universe_basin.py:148-148 | Two names of unequal length for which the streamed identity differs from the published one. |
| `CheckpointIdentity.CheckedInventoryIsPublished` | scripts/sec_universe_pipeline.py:455-456 | With a collision-free digest, the identity check passes exactly when the checkpoints read are the ones published, under the same run, visited in key order, with plain names. |
| `Supersession.TableMeans` | scripts/verify_sec_engine_independent.py:120-150 | A memo table answers the naive question for every context at once: its latest date, whether one exists, and whether some date does not parse. |
| `Supersession.LatestIsLast` | scripts/verify_sec_history_independent.py:110-110 | The latest of some dates is one of them and none of them is later. |
| `Supersession.AcceptedIsLatest` | scripts/verify_sec_history_independent.py:89-111 | The naive check accepts a row exactly when it is available by the cutoff and has a period end, every filing date of an annual or quarterly row of the same period parses, one of those rows was filed the same day, and none of those available by the cutoff was filed later. |
| `Supersession.OverflowsMeans` | scripts/verify_sec_engine_independent.py:124-141 | A table overflows exactly when some annual or quarterly row with a filing date has one whose next day does not exist. |
| `Supersession.BuildTable` | scripts/verify_sec_engine_independent.py:121-150 | Building a table fails exactly when an eligible date overflows; otherwise it is the table of the rows, and the shared date memo holds only computed values. |
| `Supersession.TableRefinesNaive` | scripts/verify_sec_engine_independent.py:151-154 | On a table without overflowing dates the memoized decision is the naive one. |
| `Supersession.MemoizedCheck` | scripts/verify_sec_engine_independent.py:111-154 | Across all tags, units and cutoffs, the memoized check accepts exactly when the naive per-row check accepts every observation and no eligible row of a consulted table has a date that overflows. |
| `Supersession.OverflowSeparates` | scripts/verify_sec_history_independent.py:89-114 | A company the naive check accepts and the memoized one does not: another context has a filing date whose next day does not exist. |
| `ReadinessIndex.RowKeepsVerdicts` | scripts/sec_readiness_index.py:84-110 | Filtering a compact row decides exactly as the full record does, for every conjunctive query without a CIK. |
| `ReadinessIndex.NamesInjective` | scripts/sec_readiness_index.py:113-119 | No two filters share a bucket name. |
| `ReadinessIndex.IndexEqualsScan` | scripts/sec_readiness_query.py:86-116 | The rows of any one applicable bucket that satisfy the remaining predicates are the compact rows of the matching records in the same order, if and only if no match names that filter twice. |
| `ReadinessIndex.PublishedIndexEqualsScan` | scripts/sec_readiness_query.py:86-116 | For records that list each missing input once, every applicable bucket answers every query exactly as the scan does. |
| `ReadinessIndex.Build` | scripts/sec_readiness_index.py:122-150 | One pass fills every bucket with exactly the rows that name it, in release order, every shard with the rows of its CIK remainder, and the four counters with exactly the lengths of the buckets of those names; unused names do not appear. |
| `ReadinessIndex.Update` | scripts/sec_readiness_index.py:141-144 | Counting names adds to each name its number of occurrences and nothing else. |
| `ReadinessIndex.FilterOccurrences` | scripts/sec_readiness_index.py:113-119 | A row names a filter exactly as often as the matching list of the row, the one its counter counts, holds the name. |
| `ReadinessIndex.CountItem` | scripts/sec_readiness_index.py:141-144 | Counting a row keeps each of the four counters equal to the bucket lengths of its names. |
| `ReadinessIndex.ShardIsLastTwo` | scripts/sec_readiness_index.py:138-140 | For a ten-digit CIK the numeric remainder names the shard by its last two digits. |
| `ReadinessIndex.ShardsPartition` | scripts/sec_readiness_index.py:138-140 | Every row is in the shard of its CIK as often as in the release and in no other shard. |
| `JsoncReader.Jsonc` | scripts/publish_sec_companyfacts.py:73-101 | The scanning loop ends on every text and computes the stripping function. |
| `JsoncReader.StripsExactlyComments` | scripts/publish_sec_companyfacts.py:73-101 | On any token list the scanner removes exactly the comments: every string literal (with `//` and escaped quotes inside), every other character and every newline stays. |
| `JsoncReader.StripMeans` | scripts/publish_sec_companyfacts.py:73-101 | Every text is a token list, and stripping it is rendering that list without its comment tokens. |
| `JsoncReader.CommentFreeUnchanged` | scripts/publish_sec_companyfacts.py:73-101 | Stripping changes nothing exactly when the text has no comment. |
| `JsoncReader.StripIdempotent` | scripts/publish_sec_companyfacts.py:73-101 | Stripping twice is stripping once. |
| `RangePlan.PlanRanges` | scripts/sec_universe_readiness.py:624-640 | No workers is a division by zero; otherwise the ranges concatenate to the offset-sorted selection, none is empty, there are at most `workers`, all but the last reach the share, all but the last worker's reach it only with their last member, and each holds fewer bytes than share + max(largest member, workers). |
| `RangePlan.PlanUnique` | scripts/sec_universe_readiness.py:624-640 | There is only one plan of the ordered issuers in which every range but the last reaches the share and every range but the last worker's would not without its last member. |
| `RangePlan.OrderedByOffset` | scripts/sec_universe_readiness.py:626-626 | The plan is a stable offset-sorted permutation of the selection. |
| `RangePlan.LastRange` | scripts/sec_universe_readiness.py:634-639 | What is left for the last worker is below share + workers. |
| `ControlledPromotion.SingleActiveVersion` | scripts/controlled_research_promotion.py:20-29 | A version is returned only if it is valid and some newest deployment serves it alone at 100 percent, and is returned whenever all newest deployments do; no deployments is a different failure. |
| `ControlledPromotion.Promotion.ActiveVersion` | scripts/controlled_research_promotion.py:126-145 | At most three listings, the first that settles the question decides: a version, or an exception that is not retried. |
| `ControlledPromotion.ReadActiveMeans` | scripts/controlled_research_promotion.py:126-145 | A reading of the control plane returns a version exactly when one of three listings shows it active and those before it failed, were not JSON or were refused, each with its diagnostic written. |
| `ControlledPromotion.Promotion.WaitForActive` | scripts/controlled_research_promotion.py:32-38 | At most thirty consecutive readings of the control plane; success exactly when the expected version is among them, and giving up only after all thirty or when a reading fails. |
| `ControlledPromotion.Promotion.WaitForEdge` | scripts/controlled_research_promotion.py:231-239 | The same for the edge, where any answer but a 200 reads as no version. |
| `ControlledPromotion.Promotion.RunPreflight` | scripts/controlled_research_promotion.py:182-215 | Preflight passes exactly when configuration, publication, manifest and committed sources agree, the previous version is the active one and the history can be read, and then that history is the baseline. |
| `ControlledPromotion.GatesMean` | scripts/controlled_research_promotion.py:182-215 | The gates hold exactly when the worker, the published status, the manifest digest, both configured pins, every listed source digest and the committed state are these, one by one. |
| `ControlledPromotion.Promotion.CheckRoutes` | scripts/controlled_research_promotion.py:241-295 | The four routes, each at most five times while it answers 404, pass exactly when all four settle on a 200 of the release; the replies are the outside's, and the first bad one ends the check. |
| `ControlledPromotion.ReadRouteMeans` | scripts/controlled_research_promotion.py:258-275 | A route passes exactly when one of five requests is answered 200 from this release and those before it were answered 404 with the diagnostic written. |
| `ControlledPromotion.Promotion.Verify` | scripts/controlled_research_promotion.py:237-311 | Verification succeeds exactly when the candidate was observed on both planes, the routes answered, the baseline history was reproduced, the cohort run did not fail, and this is no drill; the evidence is genuine and read after everything before. |
| `ControlledPromotion.Promotion.VerifyPrevious` | scripts/controlled_research_promotion.py:326-332 | Succeeds exactly when the previous version was observed on both planes and the baseline was reproduced. |
| `ControlledPromotion.Promotion.Recover` | scripts/controlled_research_promotion.py:65-75 | After a failure: the rollback is attempted, once, exactly when announcing it could be recorded; the flag says exactly what was observed; a verified rollback is reported as one exactly when the next record can be written. |
| `ControlledPromotion.Promotion.RunControlled` | scripts/controlled_research_promotion.py:41-77 | For every environment: activation attempted exactly when the preflight passed and could be announced; PASS exactly for a verified candidate whose PASS could be recorded, never for a drill, and only after the version was seen on both planes, four routes settled on a 200 of the release and the baseline was reproduced; anything else undone exactly when the record that announces the rollback, whose number is given, can be written; everything observed is what the outside answered; a healthy version is observed. With a report writer that never raises: returned, one of six event trails, and exit code zero exactly for a verified candidate or a drill that rolled back. |
| `ControlledPromotion.SuppressedRollback` | scripts/controlled_research_promotion.py:61-66 | For any two versions, an environment in which activation fails, announcing the rollback raises, and no rollback is attempted. |
| `ControlledPromotion.UnreportedRollback` | scripts/controlled_research_promotion.py:67-75 | For any two versions, an environment in which the rollback is verified and the run ends ROLLBACK_UNVERIFIED. |
| `ControlledPromotion.TrailsEnd` | scripts/controlled_research_promotion.py:44-47 | The event list of a rolled-back run is one of the four possible ones. |
| `PrefetchWriter.BatchesCut` | scripts/sec_universe_basin.py:361-365 | The cut of a row list has no empty batch, only full ones before the last, and concatenates to the rows. |
| `PrefetchWriter.BatchesUnique` | scripts/sec_universe_basin.py:361-365 | It is the only such cut. |
| `PrefetchWriter.Basin.Consume` | scripts/sec_universe_basin.py:339-347 | The oldest fetch is taken, the next one is started, and the company is noted, with at most four started and not consumed. |
| `PrefetchWriter.Basin.Take` | scripts/sec_universe_basin.py:348-363 | The rows of one company are digested and buffered in order and flushed exactly when the buffer is full. |
| `PrefetchWriter.Basin.WriteGroup` | scripts/sec_universe_basin.py:316-365 | A group that ends well consumed each issuer once, in order, and wrote the cut of exactly the rows digested; a fetch that raises ends it with nothing of that or a later issuer used; in every case only full batches and what is still held account for what was digested. |
| `PrefetchWriter.Basin.Prepare` | scripts/sec_universe_basin.py:307-367 | A build ends well if and only if every CIK is well formed, every fetch succeeds and every check of the disk guard passes; then it consumed every record given exactly once and wrote the files determined by the rows alone; never more than four fetches were ahead. |
| `PrefetchWriter.EveryRecordOnce` | scripts/sec_universe_basin.py:307-313 | Over the sixteen groups every record is selected exactly as often as it was given. |
| `PrefetchWriter.SelectedOrdered` | scripts/sec_universe_basin.py:308-311 | A group holds only its own issuers in ascending order of CIK. |
| `PrefetchWriter.CompaniesReported` | scripts/sec_universe_basin.py:345-347 | The report lists the selected records one for one with row count and own group. |
| `PrefetchWriter.FilesWritten` | scripts/sec_universe_basin.py:307-367 | One file for each group that has issuers, in group order, its batches the cut of the rows it digested. |
| `DecimalSum.GuardCovers` | scripts/build_sec_metric_certification.py:142-146 | No value has more fraction or integer digits than the guard computes. |
| `DecimalSum.UnitsExact` | scripts/build_sec_metric_certification.py:147-147 | A value scaled to the common scale is an integer that denotes the same number. |
| `DecimalSum.UnitsBounded` | scripts/build_sec_metric_certification.py:143-147 | A scaled value is below 10^(integer+scale) in absolute value. |
| `DecimalSum.EngineExact` | scripts/build_sec_metric_certification.py:147-152 | Whatever the engine returns is the exact sum, in units of the scale. |
| `DecimalSum.EngineBounded` | scripts/build_sec_metric_certification.py:145-152 | Every running sum stays within the largest scaled value times the absolute coefficients seen. |
| `DecimalSum.GuardSuffices` | scripts/build_sec_metric_certification.py:141-152 | Values that pass the guard, with absolute coefficients summing to at most ten to the term count's length, are summed without overflow and exactly. |
| `DecimalSum.GuardNeeds` | scripts/build_sec_metric_certification.py:145-146 | For any larger sum of absolute coefficients there are values that pass the guard and overflow an engine that range-checks its sum at 10^38. |
| `DecimalSum.GuardProtectsExactly` | scripts/build_sec_metric_certification.py:145-146 | The exact condition on the coefficients under which no values that pass the guard can overflow. |
| `DecimalSum.TermsAreProtected` | scripts/build_sec_metric_certification.py:145-146 | In particular, absolute coefficients summing to at most the number of terms. |
| `DecimalSum.CrossCheckIsExact` | scripts/build_sec_metric_certification.py:181-190 | Wherever the engine answers, its sum is the exact one, and the check's verdict is the comparison of the value with it. |

## Left out

- Network, object-store, subprocess, Iceberg, DuckDB, Arrow and Parquet calls: replaced by a map, by scripted or arbitrary answers, and by tables of rows. Hash functions are abstract; deflate and ZIP are not modelled.
- UTF-8: text is a sequence of characters, and byte lengths are text lengths.
- `sec_engine`, `equity_claims`, `sec_screener`, `temporal_core` and `financial_certification` are not part of this model; an issuer's evaluation is an arbitrary verdict.
- Clock and disk limits of the materialization loop: a nondeterministic stop. The limit of a million writes, which the number of issuers never reaches, a spend limit changed between runs, the checkpoint's context check on loading, and the reclassification of quarantined issuers after the loop are not modelled.
- Checkpoint fields other than status and reference, and determinism of release identifiers across runs.
- The projection of a company's screening row onto one metric: rows are per-metric rows from the start.
- CrspIndex.Index: the totals of index entries and the fields of a source record beside its key, digest, length and row count are not modelled.
- Checkpoint file names are taken without dots, as the ten-digit names are.
- CheckpointIdentity.SourceInventory: the spend estimate after the checks is left out.
- The benchmark rows, quality counts and byte totals of `prepare`.
- The readiness API's choice of the narrowest bucket and its paging; queries that name a CIK.
- `range-*.jsonl` recovery after a torn line, and the acceptance, benchmark, CLI and API scripts.
- Arithmetic reconciliation of the two verifiers beside their supersession check.
- ControlledPromotion.Promotion.Verify: the pauses between attempts are not modelled, and a cohort run is one answer.
- HistorySignature.MergeTerms: a malformed term list and a missing source are both a failure, not two error codes; a `source_record` that is not an object reads as having no filing date.
- HistorySignature.SnapshotSignatureMeans: observation identifiers are strings; an observation without one makes the signature fail.
- BlockCaches.RangeReader.ReadInto: what the service answers for a range before the reader's own is arbitrary, so of a read from a negative offset only the length and the part inside the range are stated.
- BlockCaches.CachedRangeArchive.GetObject: both ends are non-negative numbers; a range header that does not parse raises.
- DecimalSum.EngineExact: the engine is modelled as exact integer units with a range check on every cast, product and running sum.
- DecimalSum.GuardNeeds: the overflow is of that modelled engine; its range check on sums is an assumption about the engine, not read from the repository.
- DecimalSum.GuardProtectsExactly: the necessity half rests on the same assumption; stated for fewer than 10^18 terms and 64-bit coefficients, the type the query casts them to.
- RangePlan.PlanRanges: a negative worker count is not modelled.
