# Verified model of the benchmark database

A Dafny 4.11 project that models the stateful core of the benchmark database -
artifact store, run listing, model registry, grouped results, change
notifications, log importer, and the converters between snapshots, names,
filters and their stored forms - and proves what that core promises.

`dafny verify dfyconfig.toml` checks everything.

## How the model is built

| Module | Models |
|---|---|
| `Prelude`, `Sorting`, `Decimal`, `Domain` | options and results; sorting by a total preorder and the lexicographic orders behind `ORDER BY`; signed 64-bit decimal text; the stable enumerations |
| `Content`, `ArtifactProtocol`, `ArtifactInvariants`, `ReadBack`, `Integrity` | uploads as a step protocol: one event is the code between two awaits, a run is any sequence of events, so every interleaving of any number of uploads, crashes, failures, cleanups and out-of-band deletions is a run |
| `SlowUploads` | what becomes of an upload whose temporary file a cleanup takes |
| `ArtifactStore`, `Upload` | the same store as an object updated in place, one method per statement, with whole uploads, read-back and integrity checks built from them; the size limit and the hashing copy |
| `HostRules`, `Runs`, `Pagination`, `CursorToken`, `Base64Url` | host snapshots and their columns; the `runs` table, its filters and order; keyset paging over a growing table; the token a page's cursor travels as, in the encoding of section 5 of RFC 4648 |
| `ModelRegistry`, `RegistryRaces`, `ModelStorage` | the model registry as interleaved statements over a disk that anybody edits, and as an object |
| `ConfigKeys`, `Statistics`, `Results`, `ResultTheorems`, `RowColumns` | the streaming fold, ranking and truncation of grouped results, against a plain group-by, and what each column of a row is |
| `Events`, `EventBus` | sequence numbers, the bounded broadcast, and the stream cut at the first lag |
| `LiveUpdates`, `LiveStream`, `Coalescer` | the dashboard's reconnecting client as a state machine and as an object; the trailing coalescer |
| `LogText`, `LogParser`, `LogMeaning`, `LogRoundTrip`, `ImportPlan`, `ImportTheorems`, `ImportColumns`, `ImportedLogs`, `ImportedRuns`, `Importer` | the benchmark-log parser, which texts it reads and why it refuses the others; the import loop, what it adds column by column, importing from the text of a log, and what imported rows add to the results |
| `Utf8`, `DownloadName`, `DispositionParser` | download names, their header, and a recipient that parses it by section 4.1 of RFC 6266 and section 3.2 of RFC 5987 |
| `Filters`, `LinkTheorems` | URL-backed filters and the link from a results row to its runs |

SHA-256 is a function assumed injective and Zstandard a function with a left
inverse (`Codec.Lawful`; `ReadBack.LawfulCodecsExist` shows the assumptions can
be met). A table is a map or sequence with atomic statements and the unique keys
of `migrations/20260901180000_widen_artifacts_kind_and_compression.up.sql:20` and
`migrations/20260901180001_create_model_assets.up.sql:3`. Clocks, generated ids,
file metadata and whether a system call succeeds are parameters, so a proof
covers every value they can take. A crash may follow any statement of an upload;
it also stands for the failures that end an upload between two of the modelled
statements.

Each class that models a state machine carries a ghost field with everything that has happened to the
object, and its `Valid()` says that the object is where the state machine is after
the same events. So what is proved of every run holds of the object between any two
calls, and its methods say so.

Where a method is specified by a function, that function is tied down by a law that
does not mention it: column by column for filters, keys, result rows, imported rows
and host snapshots, character by character for log lines, numbers and names, and
entry by entry of the log for the waits of the live stream.

## Where code and documentation differ

The model follows the code. In each case the exact condition is proved.

- `src/runs.rs:800-804` says that new runs sort above any cursor handed out.
  Callers choose `started_at`, so they need not: a late run is shown by the rest
  of the walk if and only if it sorts below the cursor (`LateRunShownIffBelow`).
  What the walk owes is delivered exactly once all the same
  (`FinishedWalkIsExact`).
- `src/artifact_store.rs:438-460` reads a blob back by its row's compression, but
  the blob may have been written by another upload of the same content under a
  kind with the other compression. Reading back is safe if and only if the kinds
  agree or compression leaves the content alone (`ReadBackExactly`).
- `src/artifact_store.rs:462-467` calls a temporary file older than the retention
  abandoned. An upload may be slower than that and lose its file while under way
  (`CleanupFailsALiveUpload`). Whatever runs beside it, it then gets behind the move,
  unless it crashes, if and only if its second look at the final path finds another
  upload's file (`StrandedLandsIff`). Left alone, it returns if and only if it was about to rename,
  or had failed to, and a file is there (`StrandedUploadReturnsIff`, with
  `CleanupSparesASecondUpload` for a run in which it does); otherwise it fails. No
  row loses its file in any case (`CommittedRowsHaveCompleteBlobs` allows a cleanup
  anywhere).
- `src/model_registry.rs:350-357` takes a refused insert for a lost race, and the
  winner's row for granted. The winner's row can be rehashed to another content
  before it is looked up (`LostRaceFindsNothing`). With a fresh id, no row is found if
  and only if the digest was forgotten in that way and not registered again
  (`FindsNothingIff`, `ForgettingIsARehash`).
- `src/events_api.rs:28-29` promises increasing ids. Taking a number and sending
  are two steps, so two publishers can cross (`OvertakingReorders`); ids increase
  if and only if no publish overtakes another (`IncreasingIffInOrder`).
- `dashboard/src/lib/live.ts:101-102` says that `close()` closes the stream and
  cancels any pending reopen. Called from the `connecting` report of a reopen it does
  not stop that reopen from connecting: nothing is called back after `close()` if and
  only if that never occurs (`SilentIffNotClosedWhileReopening`). Called from either
  callback of a reopen it leaves the new source open (`LeaksExactly`). Called from an
  `off` report it leaves the reopen pending: no reopen is ever pending behind
  `close()` if and only if that never occurs (`CancelsTheReopenIff`, with
  `ReopenOutlivesClose` for a run in which it does). Once the event in which
  `close()` was called is over, nothing is called back at all
  (`NothingAfterTheClosingEvent`).
- `dashboard/src/lib/filters.ts:189` says the link selects exactly one
  configuration's runs. It omits the device class always, and every absent or
  empty dimension; the exact condition is `LinkIsExactIffPinned`. Nor does it list
  the runs that the row counts when the results are filtered by branch: within a
  device class, list and count agree whatever the table holds if and only if the row
  is pinned and there is no such filter (`LinkListsTheCountIff`).
- `src/bin/import_observer_log.rs:13-14` calls the import idempotent per
  `(log, tag, repetition)`. Running a completed import again inserts nothing, but a
  log that repeats a pair imports it twice in one run (`RepeatedPairIsImportedTwice`):
  at most one row per key is left if and only if the keys to insert are distinct
  (`OneRowPerKeyIff`), which is a condition on the markers of the text
  (`KeysAreTheMarkers`). It also decides whether an import that can complete may be
  interrupted anywhere and run again without a trace (`LogImportsOnceIff`).
- `src/bin/import_observer_log.rs:607-610` says that the exit status keeps a
  repetition without output out of every statistic. A manifest may list it as a
  success, and then its rate of zero is a sample (`MistakenSuccessIsASample`). The
  statistics stay as they were if and only if the filter leaves the run out or the
  manifest lists no success (`UnmeasuredStaysOutIff`).

## Model

| member | source | states |
|---|---|---|
| ArtifactProtocol.PathsAreInjective | src/artifact_store.rs:189-193 | different digests never share a path |
| Upload.StreamReader.Read | src/artifact_store.rs:232-235 | a read returns the next bytes of the body, and nothing only at its end, however the body was split into chunks |
| Upload.LimitedReader.Read | src/artifacts_api.rs:73-91 | a read fails if and only if more than the limit has been read in all |
| Upload.CopyHashing | src/artifact_store.rs:219-245 | over the limited reader: succeeds if and only if the body is within the limit, and then file, digest and size are the body's; on overflow at most the limit was written |
| ArtifactStore.ArtifactStore.constructor | src/artifact_store.rs:257-268 | an empty store, which is where the protocol starts |
| ArtifactStore.ArtifactStore.Begin | src/artifact_store.rs:269-271 | a new upload with an empty temporary file of its own, blobs and rows as they were; the object stays where the protocol is, here and below |
| ArtifactStore.ArtifactStore.CopyChunk | src/artifact_store.rs:231-239 | one turn of the copy; whatever part has reached the disk, no blob, row or other upload changes, and a file that was unlinked does not come back |
| ArtifactStore.ArtifactStore.CopyFails | src/artifact_store.rs:279-282 | a failed copy ends the upload, with or without its temporary file removed |
| ArtifactStore.ArtifactStore.FinishCopy | src/artifact_store.rs:240-244 | shutting the writer down leaves the content in the temporary file, compressed for the five text kinds and plain for the others, unless the file was unlinked meanwhile |
| ArtifactStore.ArtifactStore.TestFinal | src/artifact_store.rs:285-291 | a file is seen if and only if one is at the final path and the look succeeds |
| ArtifactStore.ArtifactStore.DropTemp | src/artifact_store.rs:291-293 | exactly the redundant temporary file is removed, or the upload fails; an upload that lands has a file at its path unless it was deleted out of band |
| ArtifactStore.ArtifactStore.Rename | src/artifact_store.rs:294 | the upload's own content, compressed for the five text kinds and plain for the others, atomically replaces what is at the final path; without a temporary file, or if the call fails, nothing changes |
| ArtifactStore.ArtifactStore.TestFinalAgain | src/artifact_store.rs:294-301 | a failed rename is forgiven if and only if a file is there now |
| ArtifactStore.ArtifactStore.Select | src/artifact_store.rs:195-212 | finds the one row of a digest and size, if there is one |
| ArtifactStore.ArtifactStore.FindExisting | src/artifact_store.rs:310-318 | ends the upload if and only if the content has a row, with a reply that names that row and its blob |
| ArtifactStore.ArtifactStore.Insert | src/artifact_store.rs:320-347 | adds exactly the row with the content's digest, size and path and the upload's kind and compression, and replies with it, or is refused, changing no row, if and only if the id or the content has one |
| ArtifactStore.ArtifactStore.FindAgain | src/artifact_store.rs:347-366 | after a refusal replies with the content's row, or with the "no matching row" error if and only if there is none |
| ArtifactStore.ArtifactStore.StoreArtifact | src/artifact_store.rs:257-367 | a whole upload: it loses no file and adds at most the content's row, of its own kind, under the drawn id, and that exactly when it returns and the content had none; what it returns names the content's row, whose blob is in place and complete; if every call succeeds and the id is fresh it returns; "no matching row" needs a taken id |
| ArtifactStore.ArtifactStore.OpenContent | src/artifact_store.rs:443-460 | the file is missing if and only if it was deleted out of band and never put back; without deletions, and with kinds that agree on compression, the content uploaded is read |
| ArtifactStore.ArtifactStore.CheckIntegrity | src/integrity.rs:192-204 | uninterrupted, in whatever state it is made: missing are the rows whose file was deleted out of band and not put back, orphaned the blobs that await their row |
| ArtifactStore.ArtifactStore.CleanupAbandonedTempFiles | src/artifact_store.rs:468-499 | a temporary file is removed if and only if it is readable, can be unlinked, and was last written at least the retention ago, or there is no retention; the number removed is returned, a younger file survives, every row keeps its blob, every reply its row |
| ArtifactInvariants.StepKeepsInv | src/artifact_store.rs:257-367 | every step of every upload, failure, crash, cleanup and deletion keeps the relation between disk, rows and program counters |
| ArtifactInvariants.CommittedRowsHaveCompleteBlobs | src/artifact_store.rs:247-256 | in every run without out-of-band deletion each row's path holds the whole plain or compressed encoding of the one content with the row's digest and size |
| ArtifactInvariants.RowsPersist | src/artifact_store.rs:323-337 | no run changes or removes a row |
| ArtifactInvariants.RowsSayTheirUpload | src/artifact_store.rs:323-337 | in every run each row has the kind, the compression and the path of one of the uploads of its content |
| ArtifactInvariants.UploadsConverge | src/artifact_store.rs:310-366 | all uploads of one content that return got the same id, and no other row holds that content |
| ArtifactInvariants.ReturnedIdsStayValid | src/artifact_store.rs:340-346 | a returned id names that content's row after any continuation |
| ArtifactInvariants.NoMatchingRowNeedsTakenId | src/artifact_store.rs:350-356 | the "no matching row" error is reached only by an upload that drew an id already in use |
| ArtifactInvariants.TakenIdReachesNoMatchingRow | src/artifact_store.rs:347-356 | with a repeated id it is reached, so fresh ids are needed |
| ArtifactInvariants.UninterruptedUploadReturns | src/artifact_store.rs:257-367 | from any reachable state an upload that nothing interrupts returns, with blob and row in place and its temporary file gone |
| SlowUploads.StrandedLandsIff | src/artifact_store.rs:462-467 | whatever runs beside it, an upload that lost its temporary file gets behind the move if and only if its second stat finds a file |
| SlowUploads.StrandedUploadReturnsIff | src/artifact_store.rs:291-301 | left alone, it returns if and only if it had seen no file yet one is there by its second stat; otherwise it fails and leaves rows and files as they were |
| SlowUploads.CleanupFailsALiveUpload | src/artifact_store.rs:462-467 | a run in which a cleanup takes a finished temporary file and the upload fails |
| SlowUploads.CleanupSparesASecondUpload | src/artifact_store.rs:294-301 | a run in which it takes one and the upload returns another upload's row |
| ReadBack.AgreementReadsBack | src/artifact_store.rs:443-460 | uploads of one content under kinds that agree on compression: its row reads back as the content in every reachable state, and replies report the row's compression |
| ReadBack.RaceSeparatesRowFromBlob | src/artifact_store.rs:291-308 | two uploads under kinds that disagree can leave a plain row over a compressed blob |
| ReadBack.ReadBackExactly | src/artifact_store.rs:456-459 | a content reads back in every run if and only if its kinds agree on compression or compressing leaves it unchanged |
| Integrity.FindArtifactsMissingFiles | src/integrity.rs:84-107 | lists each row whose file is absent when it is looked for, once, and no other |
| Integrity.WalkContentAddressedFiles | src/integrity.rs:126-151 | lists exactly the files two levels below the root; a missing root has none |
| Integrity.BlobsAreWalked | src/artifact_store.rs:189-193 | a blob is where the walk looks: under its digest, in the directory of the digest's first two characters |
| Integrity.MissingReportIsExact | src/integrity.rs:93-105 | in every run a row is reported missing if and only if its file was deleted out of band and no later upload put it back |
| Integrity.NothingMissing | src/integrity.rs:93-105 | without out-of-band deletion nothing is ever reported missing |
| Integrity.OrphanReportIsExact | src/integrity.rs:153-169 | deletions or not, the files no row names are the blobs that some upload placed, that are still there, and whose content has no row yet |
| Integrity.FindOrphanedArtifactFiles | src/integrity.rs:153-169 | lists exactly the files two levels below the root that no row names |
| Integrity.Check | src/integrity.rs:192-204 | with uploads going on between its reads: missing are, once each, the rows whose file was deleted and not put back when it was looked for, orphaned the blobs that were there when their path was seen and whose content had no row at the second query |
| Integrity.NoFalseAlarms | src/integrity.rs:192-204 | without out-of-band deletion, whatever runs beside it: nothing is reported missing, and what is reported orphaned still awaits its row at the second query |
| Integrity.NoOrphanIsMissed | src/integrity.rs:153-169 | an orphan that was there when its path was seen is reported |
| HostRules.SnapshotsRoundTrip | src/runs.rs:352-405 | reading back the columns written for any snapshot returns it |
| HostRules.StoredRowsRoundTrip | src/runs.rs:349-405 | every row the table can hold reads back to a snapshot of its platform that writes the same columns |
| HostRules.AcceptedIffTableAccepts | migrations/20260901210000_add_device_class_and_relax_external_hosts.up.sql:41-165 | validation accepts an input if and only if the table's CHECK accepts its columns |
| HostRules.AcceptedIsStoredVerbatim | src/host_rules.rs:96-202 | an accepted input is stored field by field, nothing lost or invented, and the guard at `src/runs.rs:484-492` never fires on it |
| HostRules.RejectionsAreTrue | src/host_rules.rs:94-202 | a rejection names a field that really breaks the rule it names; a field it requires is missing and demanded by the platform and device class |
| HostRules.AcceptedMeans | src/host_rules.rs:94-202 | which inputs are accepted, field by field and with the limits of every range |
| HostRules.StoredColumnsAre | src/runs.rs:498-560 | each column of an accepted input is the field of that name; flags are 0, 1 or NULL |
| HostRules.GuardMeans | src/runs.rs:484-492 | the guard of the insert fires if and only if an internal phone lacks one of ten columns |
| Runs.QueryBuilder.PushWhereClauses | src/runs.rs:626-675 | the clauses appended select, of the runs selected before, exactly those that the filter selects |
| Runs.SelectsMeans | src/runs.rs:626-675 | which runs those are: for each of the sixteen fields that is set, the column has that value, which NULL never is |
| Runs.BelowIsStrictOrder | src/runs.rs:824-833 | the cursor clause is the strict total order of the listing |
| Runs.BelowMeans | src/runs.rs:824-833 | the cursor clause in words: an earlier start, or the same start and an id that is a proper prefix or smaller at the first difference |
| Pagination.ListRuns | src/runs.rs:805-853 | returns the first `limit` matching runs below the cursor, newest first, and the position of the last one if and only if there are more |
| Pagination.QueryIsExact | src/runs.rs:811-833 | a query returns exactly the matching runs below the cursor, strictly descending by start and id |
| Pagination.EachFieldNarrows | src/runs.rs:626-675 | for each of the sixteen fields and any page size: setting it narrows the listing to exactly the runs, of those listed without it, that have the value in its column; a NULL column never does |
| Pagination.UnfilteredListsAll | src/runs.rs:805-853 | without a filter every run is listed |
| Pagination.FinishedWalkIsExact | src/runs.rs:800-853 | with inserts between pages and any page sizes: a finished walk emitted, strictly descending and once each, exactly the matching runs present at its first page or inserted later below the cursor last handed out |
| Pagination.WalkSoFarIsExact | src/runs.rs:842-850 | an unfinished walk has emitted exactly the owed runs that are not below its cursor |
| Pagination.LateRunShownIffBelow | src/runs.rs:800-804 | a run inserted between pages is shown by the rest of the walk if and only if it sorts below the cursor |
| Pagination.PagesAreTheListing | src/runs.rs:833-850 | without inserts the pages concatenate to the sorted, filtered table |
| Pagination.PageCountIsCeiling | src/runs.rs:842-850 | there are max(1, ceil(n / limit)) of them |
| CursorToken.CursorsRoundTrip | src/runs.rs:697-722 | the token of a position decodes to that position |
| CursorToken.TokensDecodeExactly | src/runs.rs:707-722 | a token is accepted as a position if and only if it spells it: the encoding of a readable time, a separator and a readable id |
| CursorToken.RefusalsAreTrue | src/runs.rs:707-722 | the reason a token is refused for holds: no encoding of bytes, bytes of no text, no separator, an unreadable time, or a readable time and an unreadable id |
| Base64Url.DecodesExactly | src/runs.rs:704-710 | a text decodes to bytes if and only if it is their one canonical encoding |
| Base64Url.EncodingIsTheBits | src/runs.rs:704 | each four symbols, by the table of section 5 of RFC 4648, have the 24 bits of their three bytes in order |
| Base64Url.SymbolIsTabled | src/runs.rs:704 | the symbols are those of that table |
| Base64Url.EncodingLength | src/runs.rs:704 | there are ceil(4n / 3) symbols: no padding |
| Utf8.DecodesExactly | src/runs.rs:711 | bytes decode to a string if and only if they are its encoding |
| Utf8.EncodedCharMeans | src/artifacts_api.rs:327 | each character is encoded in the shortest of the forms of section 3 of RFC 3629 |
| ModelStorage.ExternalModelStorage.HashFile | src/model_registry.rs:151-163 | reading in buffers hashes the whole file |
| ModelStorage.ExternalModelStorage.MarkAssetUnavailable | src/model_registry.rs:243-254 | clears the row's availability and nothing else |
| ModelStorage.ExternalModelStorage.RehashAndReconcile | src/model_registry.rs:261-295 | the row and the reply are those of the specified update, over the digest read in buffers |
| ModelStorage.ExternalModelStorage.RegisterModel | src/model_registry.rs:299-362 | no file: refused; content registered already: its row, the table as it was; an empty file: the database's error; a taken id: "no matching row"; else exactly one new row, with the file's digest, size, path and time, verified now and available. What it returns is the only row of its digest |
| ModelStorage.ExternalModelStorage.VerifyCheaply | src/model_registry.rs:364-390 | a missing file, or content registered under another id, makes the row unavailable and changes nothing else; an available row whose file has its size and time is returned as it is; else the row gets the file's digest, size and time, the verification time, and is available; an empty file is the database's error. If every edit so far showed in size or time, an answer of available names the file's current content |
| ModelStorage.ExternalModelStorage.VerifyFull | src/model_registry.rs:392-410 | the same without the cheap comparison: an answer of available names the file's current content, however the file was edited |
| ModelStorage.VerifyMeans | src/model_registry.rs:256-295 | the specified verification, outcome by outcome and column by column |
| ModelStorage.RegisterMeans | src/model_registry.rs:299-362 | the specified registration, outcome by outcome and column by column |
| ModelRegistry.StepKeepsInv | src/model_registry.rs:256-410 | every statement of every interleaved operation, each read-back of a row included, and every edit, deletion and rename of a file, keeps digest, size and time of a row together |
| ModelRegistry.CacheIsSound | src/model_registry.rs:382-387 | over every history whose edits show in size or time: a row that matches its file's size and time has the digest of the file's content |
| ModelRegistry.CachedAnswerIsSound | src/model_registry.rs:374-387 | so does a row loaded any number of events before the comparison |
| ModelRegistry.OneRowPerContent | src/model_registry.rs:347-361 | one digest has at most one row in every history |
| ModelRegistry.RegisteringAgainReuses | src/model_registry.rs:317-319 | registering a registered content from any path returns the same row and changes nothing |
| ModelRegistry.VerifyAgreesExactly | src/model_registry.rs:364-410 | cached and full verification of a fresh row agree on all but the time of verification if and only if the file was not edited silently |
| ModelRegistry.VerifyAgreesInEveryHistory | src/model_registry.rs:364-410 | so they agree in every history whose edits show in size or time |
| ModelRegistry.VerifyIsItsSteps | src/model_registry.rs:364-410 | the uninterrupted operation is its statements one after the other |
| ModelRegistry.RegisterIsItsSteps | src/model_registry.rs:299-362 | so is a registration |
| ModelRegistry.RowsNeverDisappear | src/model_registry.rs:252-253 | the "disappeared" errors are unreachable: a row that was written is there when it is read back |
| RegistryRaces.NoMatchingRowNeeds | src/model_registry.rs:350-357 | a registration that finds no matching row drew a taken id, or was refused for a digest that was registered then and no longer when it looked again |
| RegistryRaces.FindsNothingIff | src/model_registry.rs:350-357 | with a fresh id, the second lookup finds nothing if and only if the digest was forgotten since the refusal and is not registered now |
| RegistryRaces.ForgettingIsARehash | src/model_registry.rs:271-287 | only a rehash that finds another content makes the table forget a digest |
| RegistryRaces.LostRaceFindsNothing | src/model_registry.rs:350-357 | a history with fresh ids in which that happens |
| ModelRegistry.SilentEditGoesUnnoticed | src/model_registry.rs:382-387 | an edit that keeps size and time goes unnoticed |
| Statistics.FromSamples | src/results.rs:90-107 | count, extremes and median of the samples, none for no samples |
| Statistics.MedianSplitsInHalf | src/results.rs:96-100 | at least half the samples are at most the median, at least half at least it, and it lies between the extremes |
| Statistics.MediansAreUnique | src/results.rs:96-100 | the two middle samples whose midpoint is the median are determined by the samples |
| Statistics.StatsForgetOrder | src/results.rs:94-106 | any permutation of the samples gives the same statistics |
| ConfigKeys.KeyImageInjective | src/results.rs:63-78 | the key's derived order never ties two keys |
| ConfigKeys.SameKeyMeans | src/results.rs:63-78 | runs are of one configuration if and only if they agree on the thirteen columns |
| Results.Accumulate | src/results.rs:221-257 | adding one run to a group's accumulator gives the summary of the group with that run |
| Results.FirstSetIsFirst | src/results.rs:222-239 | metadata is the first value that is set, in order of start |
| Results.Fold | src/results.rs:187-258 | the streaming fold is the group-by: its keys are those of the runs, each with the summary of exactly its runs |
| Results.CollectRows | src/results.rs:260-284 | one row per group, whatever order the groups are taken in |
| Results.Results | src/results.rs:162-298 | the page is the ranked group-by of the matching runs, truncated, in whatever order the groups are taken; the rows below say what that is, column by column |
| RowColumns.GroupMeans | src/results.rs:162-187 | a configuration's runs are exactly those of the table with its key and with the column value of each of the eleven filter fields that is set, oldest first |
| RowColumns.MetadataMeans | src/results.rs:221-239 | on every page: device, branch, commit time and subject are each the value at the first of the row's runs that sets it, none if none does; model name and input token count are those of its first run |
| RowColumns.CountsMean | src/results.rs:240-257 | on every page: runs, failures, failed checks of succeeded runs and throttled runs are counted over exactly the row's runs |
| RowColumns.StatisticsMean | src/results.rs:247-257 | on every page: prefill and decode statistics summarise one sample per succeeded run that recorded the rate, and there are none if and only if no such run did |
| RowColumns.KeyOrderMeans | src/results.rs:63-78 | the last tie-break in words: the thirteen fields in declaration order, nothing recorded before any value |
| ResultTheorems.RowsAreTheGroups | src/results.rs:260-284 | one row per configuration, computed from exactly its own runs |
| ResultTheorems.EveryRunHasARow | src/results.rs:221-240 | every matching run is one of those that its configuration's row counts |
| ResultTheorems.RunsAreConserved | src/results.rs:240 | the rows' run counts add up to the number of matching runs |
| ResultTheorems.CountsAddUp | src/results.rs:240-257 | prefill samples plus failures are the runs; decode samples and failed checks are at most the prefill samples |
| ResultTheorems.FirstAndLastAreExtremes | src/results.rs:244-246 | first and last start are the earliest and latest of the row's runs |
| ResultTheorems.PageIsTheBest | src/results.rs:286-296 | the page is strictly ranked, every configuration left out ranks after it, and it is truncated if and only if there are more configurations than it may hold |
| ResultTheorems.RankingMeans | src/results.rs:286-293 | the ranking in words: newest commit (or first run) first, then model name, device serial and key |
| Sorting.LexMeans | src/results.rs:63-78 | the order of texts: a prefix first, else the smaller at the first difference |
| ResultTheorems.OtherGroupsUnchanged | src/results.rs:182-221 | a new run, wherever it sorts, leaves every other configuration's group as it was |
| ResultTheorems.ResultsIgnoreStorageOrder | src/results.rs:182-297 | the results depend on the runs stored, not on how they are stored |
| EventBus.EventBus.constructor | src/events.rs:109-115 | an empty channel with the counter at zero, refused for no capacity |
| EventBus.EventBus.TakeNumber | src/events.rs:120 | takes a number that no event has had, sent or in flight |
| EventBus.EventBus.Publish | src/events.rs:119-123 | uninterrupted, sends the event under the counter's next number, right behind everything sent before, and keeps consecutive numbers consecutive |
| EventBus.EventBus.NewReceiver | src/events.rs:125-127 | a receiver that starts at the end of what was sent |
| EventBus.EventBus.TryReceive | src/events_api.rs:60-69 | one receive yields the message at the receiver's position, or, if and only if it is more than the capacity behind, how many it missed, and moves on behind it or to the oldest retained; the stream goes on or ends accordingly; no other receiver moves |
| Events.StreamsAreSegments | src/events_api.rs:60-69 | in every interleaving a subscriber is sent a contiguous segment of the send order from its subscription on, complete while it has not lagged |
| Events.LagsSkipMessages | src/events_api.rs:61-69 | a stream that has not ended goes on with the next message or, if and only if the receiver is more than the capacity behind, ends; behind the cut messages are missing |
| Events.IdsAreDistinct | src/events.rs:119-123 | no number is given to two events, none is skipped |
| Events.IncreasingIffInOrder | src/events_api.rs:28-29 | once nothing is in flight, numbers went out increasing if and only if no publish overtook another, and then consecutively |
| Events.StreamIsConsecutive | src/events.rs:119-123 | while no publish overtakes another, a subscriber is sent consecutive numbers |
| Events.OvertakingReorders | src/events.rs:120-121 | two publishers whose steps cross: 2 is sent before 1 |
| LiveStream.LiveStream.constructor | dashboard/src/lib/live.ts:111-149 | reports and connects; from then on the promises of the state machine hold between any two events: one of source and timer, others closed, backoff, silence under its condition |
| LiveStream.LiveStream.OnTimer | dashboard/src/lib/live.ts:118-139 | a pending reopen of a stream that is not closed reports `connecting` and opens one source, which is the current one; a closed stream makes no callback |
| LiveStream.LiveStream.OnOpen | dashboard/src/lib/live.ts:124-128 | the current source resets the backoff and reports `live`; any other, or a closed stream, changes nothing |
| LiveStream.LiveStream.OnError | dashboard/src/lib/live.ts:129-141 | a source closed for good is closed, `off` reported and a reopen set after the delay for the attempts so far, in this order; one that the browser retries is reported as `connecting`; a source that is not current, or a closed stream, changes nothing |
| LiveStream.LiveStream.OnRunCreated | dashboard/src/lib/live.ts:142-146 | delivers what parses, for the current source of a stream that is not closed, and otherwise changes nothing |
| LiveStream.LiveStream.Close | dashboard/src/lib/live.ts:155-161 | called from outside any callback: exactly the pending reopen is cancelled and the current source closed; no source is left open, no reopen pending, and no callback made |
| LiveUpdates.StepKeeps | dashboard/src/lib/live.ts:111-163 | what every event keeps, and which event breaks the silence after `close()` |
| LiveUpdates.OneOfSourceAndTimer | dashboard/src/lib/live.ts:113-139 | while not closed exactly one of source and reopen is set, `off` is reported last exactly while a reopen is pending, and every other source is closed |
| LiveUpdates.BacksOffOneAtATime | dashboard/src/lib/live.ts:68-72 | the k-th wait in a row is the delay of attempt k - 1, and no source is opened before all earlier ones are closed |
| LiveUpdates.WaitsDouble | dashboard/src/lib/live.ts:68-72 | over every run, from the waits in its log: none is longer than the cap; the first since the stream began or was last live is the base, or the cap if that is smaller; each further one is twice the one before, or the cap if that is smaller |
| LiveUpdates.BacksOffMeans | dashboard/src/lib/live.ts:68-72 | the backoff property, position by position of the log |
| LiveUpdates.SilentMeans | dashboard/src/lib/live.ts:155-161 | the silence property, position by position of the log |
| LiveUpdates.SilentIffNotClosedWhileReopening | dashboard/src/lib/live.ts:118-123 | over every run: no connect, state or run callback after `close()` if and only if no reopen was closed from its own report |
| LiveUpdates.LeaksExactly | dashboard/src/lib/live.ts:121-123 | an event leaves a source open behind `close()` if and only if it is a reopen closed by one of its own callbacks |
| LiveUpdates.ConnectsAfterClose | dashboard/src/lib/live.ts:118-123 | a run in which that happens |
| LiveUpdates.NothingAfterTheClosingEvent | dashboard/src/lib/live.ts:118-146 | once the event in which `close()` was called is over, no callback is ever made, whatever happens |
| LiveUpdates.CancelsTheReopenIff | dashboard/src/lib/live.ts:136-140 | over every run: no reopen is ever pending behind `close()` if and only if no failure for good was closed from its own `off` report |
| LiveUpdates.ReopenOutlivesClose | dashboard/src/lib/live.ts:136-140 | a run in which one is |
| Coalescer.Coalescer.Trigger | dashboard/src/lib/live.ts:22-30 | puts the pending callback off to a delay from now and makes none |
| Coalescer.Coalescer.Tick | dashboard/src/lib/live.ts:25-29 | makes one callback for everything pending, if and only if the delay since the last trigger has passed |
| Coalescer.Coalescer.Cancel | dashboard/src/lib/live.ts:35-39 | makes no callback, and none follows until the next trigger |
| Coalescer.TriggersAreConserved | dashboard/src/lib/live.ts:16-40 | whatever is triggered and cancelled when, each trigger is covered by one callback, pending, or cancelled; a callback is due exactly while triggers are pending |
| Coalescer.OneCallbackPerBurst | dashboard/src/lib/live.ts:16-30 | one callback per burst, a delay after its last trigger, and together they cover every trigger |
| LogParser.ParseLog | src/bin/import_observer_log.rs:208-260 | accepts exactly the logs whose every line is acceptable where it stands, with one record per marker; otherwise reports the first line that is not, and why |
| LogMeaning.ReadsExactly | src/bin/import_observer_log.rs:208-260 | said of the characters of the lines: read are the logs of which each line is a marker with a number, a trailer, blank, or an observer line with a readable payload behind a marker; the first line that is none of these is reported, with a reason that holds of it |
| LogMeaning.LinesAre | src/bin/import_observer_log.rs:211 | the lines of a text are what it is made of once each is ended by a newline, with or without a carriage return; the last may go without |
| Decimal.ParsesExactly | src/bin/import_observer_log.rs:225-227 | a text is read as a number if and only if it is that number's decimal text, a sign and leading zeros allowed, within 64 bits |
| LogParser.RecordsAreMarkers | src/bin/import_observer_log.rs:213-232 | the records are the markers in order, line numbers strictly increasing |
| LogParser.ObserversAreOwned | src/bin/import_observer_log.rs:233-245 | in an accepted log every observer line belongs to exactly one record, which carries its text and payload |
| LogParser.AnswersAreNearest | src/bin/import_observer_log.rs:213-222 | only blank lines stand between a record's marker and its observer line, so there is at most one, and no nearer marker |
| LogRoundTrip.PrintedLogsReadBack | src/bin/import_observer_log.rs:223-229 | reading a printed log gives back its records, also for tags that contain the separator |
| LogRoundTrip.PrintedLogParses | src/bin/import_observer_log.rs:208-260 | a printed log is accepted, with the records printed |
| ImportTheorems.CompletedRunsAddUp | src/bin/import_observer_log.rs:432-468 | records = inserted + already present + skipped, and one row is appended per record inserted |
| ImportTheorems.ImportIsIdempotent | src/bin/import_observer_log.rs:326-347 | importing a fully imported log again inserts nothing and changes nothing |
| ImportTheorems.ResumeAfterKill | src/bin/import_observer_log.rs:437-454 | killed before any record and run again: the rows, models and outcome of one uninterrupted run, errors included, if no later record repeats an inserted key |
| ImportTheorems.ResumeAfterKillInside | src/bin/import_observer_log.rs:459-462 | the same when the record's model was registered before the kill |
| ImportTheorems.ResumableIff | src/bin/import_observer_log.rs:437-454 | for an import that can complete, resuming at a record equals one run if and only if no record from there on repeats a key inserted before |
| ImportTheorems.ResumableEverywhereIff | src/bin/import_observer_log.rs:437-454 | resuming anywhere equals one run if and only if the inserted keys are distinct |
| ImportTheorems.OneRowPerKeyIff | src/bin/import_observer_log.rs:437-454 | from a table with at most one row per (log, tag, repetition), a completed import leaves at most one if and only if the keys it inserts are distinct |
| ImportedLogs.KeysAreTheMarkers | src/bin/import_observer_log.rs:223-232 | the records of a log have distinct keys to insert if and only if no marker of its text repeats one that is to be imported |
| ImportedLogs.LogImportsOnceIff | src/bin/import_observer_log.rs:437-454 | for a text read and imported to its end: one row per key, and resumable anywhere, if and only if no marker repeats one that was to be imported |
| ImportedLogs.RepeatedPairIsImportedTwice | src/bin/import_observer_log.rs:437-454 | the text of two markers of one pair, each with its observer line, is accepted with records for lines 1 and 3; both are inserted, and stay |
| ImportTheorems.ErrorsAreStable | src/bin/import_observer_log.rs:446-488 | a failed import run again fails the same way and adds nothing |
| ImportTheorems.LastSeenIsNearest | src/bin/import_observer_log.rs:578-588 | a missing time is the end of the nearest observed repetition before |
| ImportColumns.RowIs | src/bin/import_observer_log.rs:566-661 | which row a record has, column by column: an observed repetition's times, counts and rates, or the first listed failure's status, summary and time, or else the end of the nearest observed repetition before; there is no other |
| ImportColumns.StepMeans | src/bin/import_observer_log.rs:437-663 | when a record is skipped, known or inserted, and as what row; and for every error what is wrong, and which models are registered by then |
| ImportColumns.ImportAdds | src/bin/import_observer_log.rs:437-663 | over a whole import: the old rows, then the row of each record that was neither skipped nor imported before, in order, up to the one that ends it, and the models of those |
| ImportColumns.RunCounts | src/bin/import_observer_log.rs:433-454 | the counters: records that were due, and records of skipped tags |
| ImportedRuns.UnmeasuredStaysOutIff | src/bin/import_observer_log.rs:606-611 | in whatever table and under whatever filter, the run of a repetition without output leaves its configuration's statistics as they were if and only if it is filtered out or not listed as a success; else it is one more prefill sample, of zero |
| ImportedRuns.MistakenSuccessIsASample | src/bin/import_observer_log.rs:573-611 | the text of one marker with nothing behind it, and a manifest that lists that repetition as killed and as a success: its configuration reports a prefill rate of zero |
| ImportedRuns.ObservedRunsAreSamples | src/bin/import_observer_log.rs:600-606 | the run of an observed repetition is one more prefill sample, of the observed rate, and a decode sample if and only if something was generated and the rate reported |
| Importer.Resolve | src/bin/import_observer_log.rs:293-322 | finds the model by digest or registers the file, which is refused if empty and stays registered even if its digest is wrong |
| Importer.HandleRecord | src/bin/import_observer_log.rs:441-663 | one record is skipped, found, inserted or refused as specified, and an inserted row refers to the asset of its model |
| Importer.Run | src/bin/import_observer_log.rs:432-668 | the loop, with its cache of models, is the specified import on every database, manifest and record list |
| Utf8.RoundTrips | src/artifacts_api.rs:327 | UTF-8 decoding recovers every string |
| DownloadName.DirectoriesAreDropped | src/artifacts_api.rs:290-299 | a plain name behind any directories, with or without a slash behind it, is offered exactly |
| DownloadName.NamesArePlain | src/artifacts_api.rs:285-289 | no uploaded name yields a name with a slash, or one that is a directory reference |
| DownloadName.QuotedNameIsSafe | src/artifacts_api.rs:301-321 | the quoted name is not empty and has no quote, backslash, semicolon, control or non-ASCII character |
| DownloadName.AsciiNameMeans | src/artifacts_api.rs:305-321 | the quoted name keeps every character that may stand in it and has an underscore for any other, unless that leaves nothing but underscores around spaces |
| DownloadName.OfferedNameMeans | src/artifacts_api.rs:290-299 | without a usable name, the kind and twelve digits of the digest |
| DownloadName.EncodedByteMeans | src/artifacts_api.rs:327-333 | an unreserved byte stands for itself, any other as two upper-case digits |
| DownloadName.PercentEncodeUtf8 | src/artifacts_api.rs:325-335 | encodes the UTF-8 bytes one by one |
| DownloadName.ContentDisposition | src/artifacts_api.rs:340-351 | builds the header for the base name or the fallback name |
| DispositionParser.PercentReadsBack | src/artifacts_api.rs:325-335 | decoding an extended value recovers the bytes |
| DispositionParser.NameIsRecovered | src/artifacts_api.rs:337-351 | for every name, a recipient that parses the header recovers exactly the base name |
| DispositionParser.HeaderIsPrintable | src/artifacts_api.rs:301-304 | the header is printable ASCII, whatever was uploaded |
| Filters.Parse | dashboard/src/lib/filters.ts:77-84 | keeps exactly the known keys with a text that is not empty |
| Filters.Serialize | dashboard/src/lib/filters.ts:86-93 | keeps exactly the known keys with a text that is not empty |
| Filters.SerializedParsesBack | dashboard/src/lib/filters.ts:77-93 | what was serialized parses back to itself |
| Filters.QueryOfDeviceMeans | dashboard/src/lib/filters.ts:147-167 | what the query asks of device and build: each parameter's own text, or the value that its text names |
| Filters.QueryOfLabMeans | dashboard/src/lib/filters.ts:147-167 | what it asks of software, clocks and prompt |
| Filters.QueryOfOutcomeMeans | dashboard/src/lib/filters.ts:147-167 | what it asks of the outcome, text by text |
| Filters.FollowLink | dashboard/src/lib/filters.ts:190-206 | the link's parameters, parsed back, make the query of the specification |
| LinkTheorems.LinkFilterIs | dashboard/src/lib/filters.ts:147-206 | that query asks for every key field but the device class, except empty texts |
| LinkTheorems.LinkSelectsTheRow | dashboard/src/lib/filters.ts:190-206 | the link of a row selects every run of the row |
| LinkTheorems.LinkIsExactIffPinned | dashboard/src/lib/filters.ts:189-206 | over runs that obey the host rules it selects only runs that agree on every key field but the device class, if and only if no key text is empty and the row is a Linux row or has a lab configuration and an accelerator |
| LinkTheorems.LinkListsTheCountIff | dashboard/src/lib/filters.ts:189-206 | among runs of the row's device class the link lists those that a filtered row counts, whatever the table holds, if and only if the row is pinned and the results are not filtered by branch |
| LinkTheorems.LinkListsTheGroupIff | src/results.rs:39-54 | on one table, the link of a pinned row lists exactly the runs the row counts if and only if no run that agrees with it is of the other device class or of a branch left out |
| LinkTheorems.DeviceClassIsNotPinned | dashboard/src/lib/filters.ts:168-183 | a Linux run of the other device class is selected along with the row's |

## Left out

- The text form of timestamps and UUIDs: their parsers are parameters with the law
  that a printed value parses back, and positions are compared as values.
- Integrity.Check: each path of the blob root is seen, or not, as the disk is at one
  instant of the walk; read errors, which end the check, are not modelled.
- HTTP routing, request parsing, authentication, the error envelope, OpenAPI, and
  the server-side parsing of query parameters.
- SQLite itself, migrations, and row columns that no modelled property mentions;
  a statement is atomic and succeeds or fails as a whole.
- Facets, model listings, the unreferenced-artifact and unavailable-model lists,
  and orphaned managed model files: single queries.
- Partial file contents during a copy are any bytes at all, so nothing about the
  compressor's intermediate output is used.
- A write to a model file between the reading of its metadata and its hashing:
  both are one observation.
- Widths: sizes, counters and timestamps are unbounded, except that log
  repetitions are parsed as signed 64-bit; subtracting one from the smallest of
  them is not wrapped.
- Floating-point rounding and NaN: throughputs are reals.
- UTF-16 and JavaScript details: texts are sequences of Unicode scalar values,
  query strings are maps from key to text, and clock values beyond 2^53 are
  excluded by `ClocksAreSafe` because the browser rounds them
  (`LinkTheorems.LawfulNumbersExist` shows the assumed number texts exist).
- Case-insensitive parameter names and obsolete line folding in the header parser:
  the header as emitted has neither.
- trimToFirstPage and the invalidation of queries on the dashboard.
- ModelStorage.ExternalModelStorage.RegisterModel: runs without interruption; the
  race with another registration is in `ModelRegistry`, statement by statement.
- Importer.Resolve: does not model failures of the database, nor rows that another
  process adds to it during an import.
- Importer.HandleRecord: leaves out the stored prompt and stdout artifacts and the
  provenance columns, which are the same for every run of the import.
- Events.StreamsAreSegments: leaves out the rendering of a message as text; the
  channel's capacity is the number of messages it retains, while the library
  rounds the configured number up to a power of two.
- Coalescer.OneCallbackPerBurst: a callback due at the instant of a trigger is
  taken to be made before it.
