# Verified model of the application data framework

The framework keeps application data in three places: rows of a query in a shared memory block, key/value preferences
in a file, and tables behind a pool of SQLite connections. This project models the parts of it whose correctness
depends on state that many calls share, and proves what they keep.

* **Shared block** (`Memory`, `BlockLayout`, `BlockRows`, `BlockSteps`, `SharedBlock`, `BlockSpace`). One byte array
  holds a header, a chain of groups with 100 row slots each, a directory of 12-byte cell units per row, and string and
  blob payloads behind them. The class works on the bytes; its abstract value is a plain table, and every call is
  proved to act on that table. The ghost layout (group offsets, directory offsets) ties the two together.
* **Filling and reading the block** (`Statements`, `FillBlock`, `SharedCursor`, `SharedCursorRuns`). A statement is a
  finite sequence of rows whose steps may answer busy, locked or a fault in any pattern. The fill slides a window of
  rows through the block; the cursor reads from it.
* **Preferences** (`PreferencesDisk`, `PreferencesCrash`, `PreferencesMemory`, `PreferencesEdits`,
  `PreferencesGenerations`, `PreferencesFaults`, `PreferencesRestarts`). File operations one at a time, crashes
  between any two of them, and write-back requests that run in any order and may fail.
* **Task pool** (`TaskPool`, `TaskPoolSafety`, `TaskPoolCalls`, `TaskPoolDraining`, `TaskPoolRuns`,
  `TaskPoolMonitor`). A transition system whose steps are the critical sections under the mutex, an invariant of every
  reachable state, and a class whose methods are those steps.
* **Predicates** (`Conditions`, `ClauseText`, `FieldNames`, `Predicates`, `PredicateMeaning`, `PredicateGrammar`,
  `PredicateFields`, `PredicateBuilder`, `PredicateParcel`, `PredicateGroups`, `PredicateResumed`,
  `PredicateSettings`, `Patterns`). The grammar of search conditions (section 8.12 of ISO/IEC 9075:1992) with a
  printer and a parser, a lexer for the characters, the calls with the text they write, what that text and the bind
  arguments mean, and the parcel form.
* **Cursor, connections, transactions** (`StepCursor`, `ConnectionPool`, `ConnectionPoolMonitor`, `ConnectionRoutes`,
  `Transactions`, `SharedTransactions`, `SharedCommits`).

Results worth knowing before using the code:

* A row allocated in a block without columns is refused, but the row count stays raised (`SharedBlock.AllocRow`).
* A getter of the block-backed cursor reads block row `rowPos`, whatever result row the block starts with. For a
  result whose rows do not fit one block, its answers are right exactly as long as the last fill was for a position in
  the first third of the first block (`AnswerIsExpectedIff`, `VisitAndRead`, `ReadsAnotherRow`); and a fill after the
  first overwrites the row count with how far it saw (`Fill`).
* With a file present, an asynchronous preferences write is dropped as soon as a newer commit exists (`SkippedIff`).
* After a failed preferences write there is no file, so the generation check is not made for the next request: the
  generation on disk falls exactly when that request is older (`GenerationFallsIff`, `GenerationCanFall`).
* `Stop` can return with an accepted task still queued: with one thread if a `Start` came while `Stop` was waiting
  (`StartDuringStopLosesTask`), with two or more also without (`TwoThreadsLoseTask`). `StopDrainsIff` says exactly
  when it drains, for any number of threads.
* A where clause stays within the grammar exactly as long as no accepted `EndWrap` closes what was never opened
  (`ViableUnlessClosingNothing`). A field that is neither a plain nor a table.column name is not, or not wholly, put
  in backticks: the clause then has no meaning in this grammar, whose names are all quoted (`MeaningIff`), and a
  question mark in such a field takes an argument (`PlaceholdersMatchIff`).
* Unmarshalled predicates do not restore `isNeedAnd` and `isSorted`: after a complete operand, a further `Or` or
  `EndWrap` is dropped and a further test or `BeginWrap` breaks the clause (`ForgottenNeedAndIff`), and a further
  `OrderBy` loses its comma (`ForgottenSortedIff`).
* A group comes back from a parcel exactly if each of its comma-separated pieces is spelled as its own name would be
  (`RegroupedIff`): two `GroupBy` calls of plain names, or two plain names given as one with a comma, do not; raw
  names of three or more parts can.
* The transaction stack belongs to the pool, the connection to a session: a nest ended by another session than the one
  that began it does not reach the connection of its BEGIN (`EndReachesItsConnectionIff`), and the write connection is
  then never given back (`LostConnectionIsNeverReturned`).

## Model

| member | source | states |
|---|---|---|
| `SharedBlocks.SharedBlock.Clear` | frameworks/native/appdatafwk/src/shared_block.cpp:147-165 | a writable block becomes the empty table with no columns, used up to the first free offset, with one group; a read-only block is refused and unchanged |
| `SharedBlocks.SharedBlock.SetColumnNum` | frameworks/native/appdatafwk/src/shared_block.cpp:167-184 | succeeds exactly if writable, within the column limit, and the count is the current one or the table is blank; only the column count changes |
| `SharedBlocks.SharedBlock.AllocRow` | frameworks/native/appdatafwk/src/shared_block.cpp:186-222 | succeeds exactly if there are columns and the group it may need and its directory fit; then one row of nulls is added, and the new fill level and number of groups are known; a failure leaves the table as it was, except that without columns the row count stays raised; every existing row keeps its slot |
| `SharedBlocks.SharedBlock.AllocDirectory` | frameworks/native/appdatafwk/src/shared_block.cpp:199-221 | allocates, clears and enters the directory of the new row; exact answer and fill level, also when it does not fit or there are no columns |
| `SharedBlocks.SharedBlock.EnterDirectory` | frameworks/native/appdatafwk/src/shared_block.cpp:210-221 | the cleared directory in its slot adds one row of nulls to the table |
| `SharedBlocks.SharedBlock.LowerRowNum` | frameworks/native/appdatafwk/src/shared_block.cpp:202-208 | the row without directory is taken back, and the table is as before |
| `SharedBlocks.SharedBlock.FreeLastRow` | frameworks/native/appdatafwk/src/shared_block.cpp:224-235 | drops exactly the last row and nothing else; an empty table stays empty |
| `SharedBlocks.SharedBlock.Alloc` | frameworks/native/appdatafwk/src/shared_block.cpp:237-254 | returns the old fill level, rounded up to 4 if asked, and raises it by the size; 0 and no change exactly if that would pass the end |
| `SharedBlocks.SharedBlock.GetRowOffset` | frameworks/native/appdatafwk/src/shared_block.cpp:256-276 | the walk with `>=` ends at the slot of the row in the chain of groups |
| `SharedBlocks.SharedBlock.NextGroup` | frameworks/native/appdatafwk/src/shared_block.cpp:296-311 | at a group boundary: reuse the next group or allocate one, clear its next link; the table is unchanged and the chain ends there |
| `SharedBlocks.SharedBlock.AllocRowOffset` | frameworks/native/appdatafwk/src/shared_block.cpp:278-315 | the walk with `>` plus the boundary case ends at the same slot that the other walk finds for that row later, for every row count and reused groups; fails exactly if a needed group does not fit |
| `SharedBlocks.SharedBlock.GetRowNum` | interfaces/inner_api/native/appdatafwk/include/shared_block.h:192-195 | the header field is the number of rows of the table |
| `SharedBlocks.SharedBlock.GetCellUnit` | frameworks/native/appdatafwk/src/shared_block.cpp:317-339 | finds a unit exactly if the cell is in the table, at its place in the row directory, inside the used part of the block |
| `SharedBlocks.SharedBlock.PutBlobOrString` | frameworks/native/appdatafwk/src/shared_block.cpp:351-383 | answers by read-only, range and space, in that order; on success exactly this cell of the table changes, on failure nothing does |
| `SharedBlocks.SharedBlock.PutLong` | frameworks/native/appdatafwk/src/shared_block.cpp:385-399 | sets exactly this cell to the 64-bit integer, through its two words, or changes nothing |
| `SharedBlocks.SharedBlock.PutDouble` | frameworks/native/appdatafwk/src/shared_block.cpp:401-415 | sets exactly this cell to the bits of the double, or changes nothing |
| `SharedBlocks.SharedBlock.PutNull` | frameworks/native/appdatafwk/src/shared_block.cpp:417-432 | sets exactly this cell to null, or changes nothing |
| `SharedBlocks.SharedBlock.ReadCell` | frameworks/native/appdatafwk/src/shared_block.cpp:317-339 | reading the bytes back, through the 32-bit offset check, gives exactly the cell that the table holds |
| `SharedBlocks.SharedBlock.Shape` | frameworks/native/appdatafwk/src/shared_block.cpp:147-315 | every valid block has rows as wide as the table, fewer rows than the 32-bit count can overflow, and is used within its size |
| `SharedBlocks.Run` | frameworks/native/appdatafwk/src/shared_block.cpp:147-432 | over every sequence of calls the bytes behave exactly as a bounded table: each answer, each next table, fill level and number of groups is the specified effect of the call |
| `SharedBlocks.Step` | frameworks/native/appdatafwk/src/shared_block.cpp:147-432 | one call of any kind has exactly the specified answer and effect |
| `SharedBlocks.EffectActs` | frameworks/native/appdatafwk/src/shared_block.cpp:147-432 | the specified effect of a successful call is that on a plain table; a failed one changes no table, except for the row without columns; only new rows, texts and blobs can find the block full |
| `BlockSteps.LiveRegionsAreDisjoint` | frameworks/native/appdatafwk/src/shared_block.cpp:147-432 | in every valid block, header, groups, row directories and live payloads are pairwise disjoint and end below the fill level |
| `BlockSteps.EnterStep` | frameworks/native/appdatafwk/src/shared_block.cpp:205-221 | entering a zeroed directory in the next slot adds a row of nulls and disturbs no other row |
| `BlockSteps.LinkStep` | frameworks/native/appdatafwk/src/shared_block.cpp:296-311 | linking a new group at the end of the chain keeps every row |
| `BlockSteps.CutStep` | frameworks/native/appdatafwk/src/shared_block.cpp:296-311 | clearing the next link of the group in use keeps every row |
| `BlockSteps.DropStep` | frameworks/native/appdatafwk/src/shared_block.cpp:224-235 | lowering the row count drops the last row and keeps the others |
| `BlockSteps.PayloadStep` | frameworks/native/appdatafwk/src/shared_block.cpp:351-383 | copying a payload to fresh space and rewriting one unit sets that cell and no other |
| `BlockSteps.ScalarStep` | frameworks/native/appdatafwk/src/shared_block.cpp:385-432 | rewriting one unit in place sets that cell and no other |
| `BlockSteps.ReadFacts` | frameworks/native/appdatafwk/src/shared_block.cpp:317-339 | the words of a live unit describe its cell, with a payload inside the block |
| `BlockRows.WriteCell` | frameworks/native/appdatafwk/src/shared_block.cpp:351-432 | a write confined to one cell unit and fresh space changes that cell only |
| `BlockLayout.IdleWrite` | frameworks/native/appdatafwk/src/shared_block.cpp:237-254 | writing bytes that no live region covers changes no row |
| `BlockLayout.ExtendChain` | frameworks/native/appdatafwk/src/shared_block.cpp:278-315 | appending a group keeps the directories and all rows |
| `Memory.WordRoundTrip` | frameworks/native/appdatafwk/src/shared_block.cpp:147-165 | a 32-bit little-endian word is read back as stored |
| `Memory.LongRoundTrip` | frameworks/native/appdatafwk/src/shared_block.cpp:385-399 | a signed 64-bit integer is read back from its two words |
| `BlockSteps.AlignIs` | frameworks/native/appdatafwk/src/shared_block.cpp:237-254 | padding leads to the least multiple of four that is not smaller |
| `BlockSpace.UsedIsNeeded` | frameworks/native/appdatafwk/src/shared_block.cpp:186-254 | rows use the header, one group of 404 bytes for each hundred begun, twelve bytes a column and their payloads, and at most three bytes more for each directory and further group |
| `BlockSpace.FitIff` | frameworks/native/appdatafwk/src/shared_block.cpp:186-254 | rows without empty blobs fit a cleared block together exactly if those bytes are not more than it has |
| `BlockSpace.ScalarsFitIff` | frameworks/native/appdatafwk/src/shared_block.cpp:186-254 | rows without texts and blobs waste nothing: n of them fit exactly if the block has 16 + 404 * max(1, n / 100 rounded up) + 12 * columns bytes for each row |
| `FillBlock.FillCell` | frameworks/native/rdb/src/share_block.cpp:250-320 | a value is stored exactly if it can be fetched and fits; an unknown type fails; anything else leaves the block as it was |
| `FillBlock.FillOneRow` | frameworks/native/rdb/src/share_block.cpp:202-247 | the whole row is appended exactly if its directory and every value fit; otherwise the row is taken back and the table is as before |
| `FillBlock.TryRow` | frameworks/native/rdb/src/share_block.cpp:202-247 | one attempt advances the window by one row or leaves it; on a cleared block it succeeds exactly if the row fits an empty block; on a packed block exactly if it fits after the rows before |
| `FillBlock.FillRow` | frameworks/native/rdb/src/share_block.cpp:179-200 | the window either takes the row, restarts at it when the required row is not yet covered, or the fill ends; no exception for rows that fit an empty block |
| `FillBlock.TakeRow` | frameworks/native/rdb/src/share_block.cpp:152-160 | a row before the start or after the block is full is only counted; otherwise it goes into the window |
| `FillBlock.FillSharedBlock` | frameworks/native/rdb/src/share_block.cpp:144-177 | block row i is result row startPos + i; the final start is exactly where starting over at each row that does not fit any more leads, and the window holds exactly the rows from there on that fit together; a required row inside the result is covered if every row fits an empty block; it fails exactly by a row that does not fit, a fault or 52 busy answers in a row; all rows are counted if asked for, otherwise up to the first that did not fit; the loop terminates |
| `FillBlock.PackRow` | frameworks/native/rdb/src/share_block.cpp:179-200 | a row keeps the window on its way to its final start |
| `FillBlock.FinalStartStays` | frameworks/native/rdb/src/share_block.cpp:179-200 | the window stays at its start exactly if the rows from there to the required one fit together |
| `FillBlock.ClearedFits` | frameworks/native/rdb/src/share_block.cpp:179-200 | on a cleared block the general space condition is the one for an empty block |
| `SharedCursor.NarrowingKeepsTotal` | frameworks/native/rdb/src/share_block.cpp:337-346 | the packed 64-bit count narrows back to the row total, and has the start position in its high half, for every pair of 32-bit numbers |
| `SharedCursor.SqliteSharedResultSet.RunFill` | frameworks/native/rdb/src/sqlite_connection.cpp:659-682 | clearing and filling: the block is a window of the result; a smooth fill covers the required row, comes to rest at the final start and holds the rows from there on that fit together; from row 0 a result that fits is held whole |
| `SharedCursor.SqliteSharedResultSet.ExecuteForSharedBlock` | frameworks/native/rdb/src/sqlite_connection.cpp:644-690 | a smooth fill covers the required row, with its window at the final start, and reports all rows if asked to count, otherwise only how far it saw; an undisturbed fill from row 0 of a result that fits loads all of it |
| `SharedCursor.SqliteSharedResultSet.Fill` | frameworks/native/rdb/src/sqlite_shared_result_set.cpp:108-133 | the first fill counts all rows and starts at its row; a later one overwrites the count with what it saw; the required row is covered; the window of a later fill starts a third of the first block before its row, exactly if the rows from there to it fit together, otherwise later; it is at row 0 exactly if the row lies in the first third of the first block |
| `SharedCursor.SqliteSharedResultSet.FillFirst` | frameworks/native/rdb/src/sqlite_shared_result_set.cpp:125-127 | the first fill: all rows counted, the window at its row, the capacity taken from the block |
| `SharedCursor.SqliteSharedResultSet.FillAgain` | frameworks/native/rdb/src/sqlite_shared_result_set.cpp:128-132 | a later fill: the exact window start, forward-only or not |
| `SharedCursor.SqliteSharedResultSet.PickFillBlockStartPosition` | frameworks/native/rdb/src/sqlite_shared_result_set.cpp:103-106 | the start is a third of the capacity before the position, or the first row if there are not as many before it |
| `SharedCursor.SqliteSharedResultSet.GetRowCount` | frameworks/native/rdb/src/sqlite_shared_result_set.cpp:62-69 | the first call counts all rows of the result; a known count is returned without any fill |
| `SharedCursor.SqliteSharedResultSet.OnGo` | frameworks/native/rdb/src/sqlite_shared_result_set.cpp:88-98 | nothing for a position below the number of block rows; otherwise a fill that covers it |
| `SharedCursor.SqliteSharedResultSet.GoToRow` | frameworks/native/rdb/src/abs_shared_result_set.cpp:86-112 | with a known count, succeeds exactly for the positions below it; a smooth first call exactly for those of the result; a failed move ends before the first row or after the last; a position outside the block is then covered by the window; undisturbed, the window is always exactly the one that the last fill leads to; when the result fits, the count is n and nothing is filled again |
| `SharedCursor.SqliteSharedResultSet.MoveTo` | frameworks/native/rdb/src/abs_shared_result_set.cpp:97-112 | the end of GoToRow: nothing is filled for the current position or one below the number of block rows; otherwise the window then covers it |
| `SharedCursor.SqliteSharedResultSet.AnswerIsExpectedIff` | frameworks/native/rdb/src/abs_shared_result_set.cpp:114-377 | at a good position after undisturbed calls: for a column that tells the rows apart, a getter answers for row rowPos exactly if the last fill was for a position in the first third of the first block; within that third every column does |
| `SharedCursor.SqliteSharedResultSet.AnswerOfWindow` | frameworks/native/rdb/src/abs_shared_result_set.cpp:114-377 | in any case a getter answers from row rowPos of the window that the last fill leads to |
| `SharedCursorRuns.Visit` | frameworks/native/rdb/src/abs_shared_result_set.cpp:86-112 | over any sequence of moves of a new cursor, undisturbed: the last fill is the one a caller can tell from positions and block rows, and what AnswerIsExpectedIff needs still holds |
| `SharedCursorRuns.VisitAndRead` | frameworks/native/rdb/src/abs_shared_result_set.cpp:86-377 | any moves, then a getter: the answer is that of row rowPos of the window that a fill for the last position filled for leads to; it is that of the query if that position lies in the first third of the first block, and, for a column that tells the rows apart, only then |
| `SharedCursorRuns.ForthAndBack` | frameworks/native/rdb/src/abs_shared_result_set.cpp:86-112 | for every result that does not fit one block: move to the first row outside the first block, then to row 0; nothing is filled again, and the getter answers for a later row |
| `SharedCursorRuns.ReadsAnotherRow` | frameworks/native/rdb/src/abs_shared_result_set.cpp:86-377 | a result of two rows, a block with space for one: at row 0 the getter answers 1, the value of row 1, and not 0 |
| `SharedCursor.SqliteSharedResultSet.LoadedAnswers` | frameworks/native/rdb/src/abs_shared_result_set.cpp:114-377 | when the whole result is loaded every answer is that of the query |
| `SharedCursor.SqliteSharedResultSet.Cell` | frameworks/native/rdb/src/abs_shared_result_set.cpp:360-377 | CheckState, then the block cell: an error for a bad column or position, nothing beyond the block, otherwise the cell of result row windowStart + rowPos; the query's own cell when the result fits |
| `SharedCursor.SqliteSharedResultSet.GetLong` | frameworks/native/rdb/src/abs_shared_result_set.cpp:213-251 | the 64-bit view of that cell in any state; of the query's cell when the result fits |
| `SharedCursor.SqliteSharedResultSet.GetBlob` | frameworks/native/rdb/src/abs_shared_result_set.cpp:114-153 | the bytes of that cell in any state; of the query's cell when the result fits |
| `SharedCursor.SqliteSharedResultSet.IsColumnNull` | frameworks/native/rdb/src/abs_shared_result_set.cpp:291-308 | whether that cell is null in any state; when the result fits, true exactly if the query's value is null |
| `SharedCursor.ViewsOfValues` | frameworks/native/rdb/src/abs_shared_result_set.cpp:114-251 | the views of a stored cell in terms of the value of the query; text with its terminating zero |
| `PreferencesDisk.WriteStepIsAtomic` | frameworks/native/preferences/src/preferences_impl.cpp:142-187 | no file operation of a write changes what a load would read, except the one commit point, which installs the whole map |
| `PreferencesDisk.LoadStepKeeps` | frameworks/native/preferences/src/preferences_impl.cpp:106-132 | no file operation of a recovery changes what the recovery will read, and the backup is renamed only where no file is |
| `PreferencesDisk.Files.LoadFromDisk` | frameworks/native/preferences/src/preferences_impl.cpp:106-132 | returns the contents of the backup if there is one, otherwise of the file, and leaves no backup |
| `PreferencesDisk.Files.WriteToDiskFile` | frameworks/native/preferences/src/preferences_impl.cpp:142-187 | skipped: nothing changes; written: the whole map alone; failed: no file, and a load still reads what it read before |
| `PreferencesDisk.StepsOfWrite` | frameworks/native/preferences/src/preferences_impl.cpp:142-187 | the file operations of a write, one after the other to their end, give exactly the disk and outcome that WriteToDiskFile has |
| `PreferencesDisk.ScribblesDoNotMatter` | frameworks/native/preferences/src/preferences_impl.cpp:172-176 | writing a part of the file first changes nothing of that |
| `PreferencesCrash.RunKeepsInv` | frameworks/native/preferences/src/preferences_impl.cpp:106-187 | in every reachable state, crashes included, the committed map is what a load would read |
| `PreferencesCrash.CompletedLoadReadsCommitted` | frameworks/native/preferences/src/preferences_impl.cpp:106-187 | a completed load yields exactly the last committed map |
| `PreferencesCrash.CommittedIsOldOrWhole` | frameworks/native/preferences/src/preferences_impl.cpp:142-187 | the committed map only ever changes to the whole map of an active write |
| `PreferencesCrash.OneCommitPerWrite` | frameworks/native/preferences/src/preferences_impl.cpp:142-187 | a write passes its commit point at most once, and exactly once if and only if it ends as written |
| `PreferencesCrash.CrashAtomicity` | frameworks/native/preferences/src/preferences_impl.cpp:106-187 | stop the process between any two file operations of a write or of the recoveries after it, any number of times: the load that completes reads the old map or the whole new one |
| `PreferencesMemory.PreferencesImpl.PutPreferencesValue` | frameworks/native/preferences/src/preferences_impl.cpp:479-495 | an equal value changes nothing; otherwise the entry and one recorded modification |
| `PreferencesMemory.PreferencesImpl.DeleteKey` | frameworks/native/preferences/src/preferences_impl.cpp:585-601 | a present key is removed and recorded; an absent one changes nothing |
| `PreferencesMemory.PreferencesImpl.ClearAll` | frameworks/native/preferences/src/preferences_impl.cpp:603-614 | records every key exactly once and empties the map |
| `PreferencesMemory.PreferencesImpl.CommitToMemory` | frameworks/native/preferences/src/preferences_impl.cpp:643-660 | the request carries the whole map and the pending keys; the generation rises exactly if there were any |
| `PreferencesMemory.CommitKeeps` | frameworks/native/preferences/src/preferences_impl.cpp:643-660 | a commit keeps the agreement of requests, generations and reported keys |
| `PreferencesMemory.ReplayKeeps` | frameworks/native/preferences/src/preferences_impl.cpp:479-660 | every history of edits and commits keeps that agreement |
| `PreferencesMemory.SameGenerationSameMap` | frameworks/native/preferences/src/preferences_impl.cpp:643-660 | two requests of one generation carry equal maps |
| `PreferencesMemory.SuccessiveMapsDifferOnReported` | frameworks/native/preferences/src/preferences_impl.cpp:643-660 | maps of successive generations differ only on the keys that the request opening the later one reports |
| `PreferencesMemory.ModificationsReportedOnce` | frameworks/native/preferences/src/preferences_impl.cpp:479-660 | all requests together with the pending keys report every modification exactly once, in order, and every generation was opened by a request |
| `PreferencesEdits.EntryIff` | frameworks/native/preferences/src/preferences_impl.cpp:479-614 | after any edits and commits a key has a value exactly if the last edit that concerns it put it there, or none concerns it and it was loaded; Delete of the key and every Clear concern it |
| `PreferencesEdits.SnapshotIff` | frameworks/native/preferences/src/preferences_impl.cpp:643-660 | the request of each commit, also after later edits, is synchronous if the commit was, and its snapshot holds exactly what the edits up to the commit say |
| `PreferencesGenerations.RunKeepsInv` | frameworks/native/preferences/src/preferences_impl.cpp:142-203 | what every interleaving of edits, commits and file operations keeps, whatever order the requests run in and whichever writes fail |
| `PreferencesGenerations.FileHoldsItsGeneration` | frameworks/native/preferences/src/preferences_impl.cpp:142-203 | whatever fails, at every moment a load would read exactly the snapshot of the generation on disk (or of a first file that is complete and about to be reported); between writes it is the file or, after a fault, the backup |
| `PreferencesGenerations.GenerationFallsIff` | frameworks/native/preferences/src/preferences_impl.cpp:142-203 | the generation on disk falls at a step exactly when that step ends a write after a fault, for a request older than the generation on disk |
| `PreferencesGenerations.SkippedIff` | frameworks/native/preferences/src/preferences_impl.cpp:149-203 | in every run a request is skipped exactly when, at the look for the file, there is one and the request is covered by the generation on disk, or is asynchronous and older than the newest commit; nothing else changes then; otherwise the write goes on |
| `PreferencesGenerations.OutrunRequestLeavesDisk` | frameworks/native/preferences/src/preferences_impl.cpp:189-203 | with a file present, an asynchronous request that is not the newest at its check leaves the disk as it was until another request is taken |
| `PreferencesGenerations.FlushSyncIsCoveredOnReturn` | frameworks/native/preferences/src/preferences_impl.cpp:626-641 | whatever failed before, a synchronous request that ends without an error leaves its generation or a later one on disk |
| `PreferencesGenerations.DiskGenerationIsMonotone` | frameworks/native/preferences/src/preferences_impl.cpp:142-203 | as long as no failed write is pending, the generation on disk does not decrease |
| `PreferencesGenerations.FlushSyncIsDurable` | frameworks/native/preferences/src/preferences_impl.cpp:626-641 | without write faults, once a synchronous request of generation g was handled, written or skipped, the generation on disk is and stays at least g |
| `PreferencesGenerations.QuiescentFileIsNewest` | frameworks/native/preferences/src/preferences_impl.cpp:616-660 | without write faults, once all requests have run, the file holds the newest committed generation |
| `PreferencesFaults.WithoutFileAnyRequestIsWritten` | frameworks/native/preferences/src/preferences_impl.cpp:142-187 | with no file, any waiting request is written, whatever its generation |
| `PreferencesFaults.AfterFaultStaleRequestFalls` | frameworks/native/preferences/src/preferences_impl.cpp:142-187 | in every run, once a write has failed, each older request that still waits can take the disk back to its own generation |
| `PreferencesFaults.GenerationCanFall` | frameworks/native/preferences/src/preferences_impl.cpp:142-203 | a run in which generation 2 is on disk, the write of generation 3 fails, and generation 1 is then written over it |
| `PreferencesRestarts.RestartReadsReadable` | frameworks/native/preferences/src/preferences_impl.cpp:106-203 | stop any run, with any write faults, at any state, and the recovery any number of times: the load that completes reads the snapshot of the readable generation, and the process starts from there |
| `PreferencesRestarts.FlushSyncSurvivesCrashes` | frameworks/native/preferences/src/preferences_impl.cpp:106-203 | without write faults, once a synchronous request of generation g was handled, a load completed after any crashes reads the snapshot of some generation at least g |
| `TaskPoolMonitor.TaskPool.constructor` | frameworks/native/preferences/src/task_pool.cpp:25-29 | a new pool is the initial state of the transition system |
| `TaskPoolMonitor.TaskPool.Start` | frameworks/native/preferences/src/task_pool.cpp:35-59 | succeeds exactly for admissible limits; spawns up to the minimum; keeps the invariant |
| `TaskPoolMonitor.TaskPool.StopBegin` | frameworks/native/preferences/src/task_pool.cpp:61-68 | Stop up to its wait |
| `TaskPoolMonitor.TaskPool.StopReturn` | frameworks/native/preferences/src/task_pool.cpp:69-71 | Stop after its wait, when no thread is left |
| `TaskPoolMonitor.TaskPool.Schedule` | frameworks/native/preferences/src/task_pool.cpp:73-121 | accepts exactly if started, not stopping and not full; queues the task at the end of its kind, counts it, spawns at most one thread |
| `TaskPoolMonitor.TaskPool.Enqueue` | frameworks/native/preferences/src/task_pool.cpp:91-119 | the task goes to the end of its kind, a missing queue is made, and one counter rises |
| `TaskPoolMonitor.TaskPool.ShrinkMemory` | frameworks/native/preferences/src/task_pool.cpp:123-132 | removes a queue only if empty and unlocked |
| `TaskPoolMonitor.TaskPool.IdleExit` | frameworks/native/preferences/src/task_pool.cpp:143-155 | up to the wait: leaves at once only when stopping |
| `TaskPoolMonitor.TaskPool.ResumeFromWait` | frameworks/native/preferences/src/task_pool.cpp:151-168 | after the wait: leaves only after a timed-out timed wait with no generic task |
| `TaskPoolMonitor.TaskPool.SetThreadFree` | frameworks/native/preferences/src/task_pool.cpp:170-176 | a reaping worker holds no lock, so nothing changes |
| `TaskPoolMonitor.TaskPool.ReapTask` | frameworks/native/preferences/src/task_pool.cpp:178-201 | the oldest generic task first; the generic worker of a larger pool takes nothing else; otherwise the oldest task of a queue that was unlocked, which is then locked; nothing exactly if there is none to take |
| `TaskPoolMonitor.TaskPool.SpawnThreads` | frameworks/native/preferences/src/task_pool.cpp:220-239 | the loop spawns up to the limit and nothing else |
| `TaskPoolMonitor.TaskPool.TryToSpawnThreads` | frameworks/native/preferences/src/task_pool.cpp:302-307 | one more thread only below the maximum and below the number of tasks |
| `TaskPoolMonitor.TaskPool.BecomeGenericWorker` | frameworks/native/preferences/src/task_pool.cpp:246-252 | the first worker becomes the generic one |
| `TaskPoolMonitor.TaskPool.ExitGenericWorker` | frameworks/native/preferences/src/task_pool.cpp:254-264 | a leaving worker gives up its place and its count |
| `TaskPoolMonitor.TaskPool.FinishExecuteTask` | frameworks/native/preferences/src/task_pool.cpp:291-300 | the queue that the worker points to is still in the map; it is unlocked and the counter of its kind falls by one |
| `TaskPoolSafety.NextKeepsInv` | frameworks/native/preferences/src/task_pool.cpp:35-300 | every step keeps the whole invariant: order, locks, counters, threads, the generic worker |
| `TaskPoolSafety.RunKeepsInv` | frameworks/native/preferences/src/task_pool.cpp:35-300 | so every reachable state has it |
| `TaskPoolSafety.OneRunnerPerTag` | frameworks/native/preferences/src/task_pool.cpp:178-201 | at most one worker runs a task of a given tag |
| `TaskPoolSafety.StartsInSchedulingOrder` | frameworks/native/preferences/src/task_queue.cpp:28-56 | tasks of one kind start in scheduling order, and no task is started twice |
| `TaskPoolSafety.NoOvertaking` | frameworks/native/preferences/src/task_queue.cpp:28-56 | when a task has started, every earlier one of its kind has |
| `TaskPoolSafety.QueueOfRunningWorkerSurvives` | frameworks/native/preferences/src/task_pool.cpp:123-132 | no step removes the queue that a running worker will unlock |
| `TaskPoolSafety.CountersAreWaitingPlusRunning` | frameworks/native/preferences/src/task_pool.cpp:73-121 | the two counters are exactly the waiting plus the running tasks of their kind |
| `TaskPoolSafety.ThreadsAreAccounted` | frameworks/native/preferences/src/task_pool.cpp:143-264 | thread counts are the spawned and the waiting workers, within the maximum; unless a Start came during a Stop, the pool is never empty between Start and Stop with a minimum of one, and a generic worker is in place as soon as any worker runs |
| `TaskPoolSafety.GenericWorkerStays` | frameworks/native/preferences/src/task_pool.cpp:143-168 | in every run the generic worker keeps its place exactly if it does not exit, and it exits only while Stop is under way or once a Start came during a Stop |
| `TaskPoolCalls.ScheduleIff` | frameworks/native/preferences/src/task_pool.cpp:73-121 | in every run a task is accepted exactly if the pool is started, not stopping and has fewer than 2^31 - 1 unfinished tasks of that sort; one thread is spawned exactly if there are fewer than the maximum and fewer than unfinished tasks |
| `TaskPoolCalls.CountersFit` | frameworks/native/preferences/src/task_pool.cpp:87-117 | the 32-bit counters never overflow |
| `TaskPoolCalls.StartIff` | frameworks/native/preferences/src/task_pool.cpp:35-59 | Start with admissible limits opens the pool and brings the threads up to the minimum; otherwise nothing changes |
| `TaskPoolCalls.StopIff` | frameworks/native/preferences/src/task_pool.cpp:61-71 | Stop waits unless the pool is not started, and returns only when no worker is left, which closes the pool |
| `TaskPoolCalls.ShrinkIff` | frameworks/native/preferences/src/task_pool.cpp:123-132 | ShrinkMemory removes the queue exactly if every accepted task of the tag has finished |
| `TaskPoolCalls.GenericFirst` | frameworks/native/preferences/src/task_pool.cpp:178-201 | a queued task starts only when every generic task has started and every earlier one of its tag has finished, and on the generic worker only if that is alone |
| `TaskPoolCalls.IdleMeansNothingToTake` | frameworks/native/preferences/src/task_pool.cpp:178-201 | a worker finds nothing only if every generic task has started and, unless it is the generic worker of a larger pool, each tag with an unstarted task has one running |
| `TaskPoolCalls.IdleLeavesIff` | frameworks/native/preferences/src/task_pool.cpp:143-160 | an idle worker leaves at once exactly if Stop is under way; otherwise a timeout lets it leave exactly if it is not the generic worker and there are more workers than the minimum |
| `TaskPoolCalls.WakeLeavesIff` | frameworks/native/preferences/src/task_pool.cpp:151-168 | a waiting worker leaves exactly after a timeout of a timed wait while no generic task is unfinished |
| `TaskPoolSafety.AllFinishedIff` | frameworks/native/preferences/src/task_pool.cpp:291-300 | in every reachable state all accepted tasks have finished exactly if both counters are zero |
| `TaskPoolDraining.UnfinishedIffStranded` | frameworks/native/preferences/src/task_pool.cpp:61-264 | for any number of threads and any calls: when all workers are gone or leaving, an accepted task is unfinished exactly if, since the last spawn, one was accepted when all were leaving already, or the last to stay left while a queue had a task waiting |
| `TaskPoolDraining.StopDrainsIff` | frameworks/native/preferences/src/task_pool.cpp:61-71 | for any number of threads and any calls, Stop returns with every accepted task finished exactly if neither happened since the last spawn |
| `TaskPoolDraining.HowTheLastLeaves` | frameworks/native/preferences/src/task_pool.cpp:143-201 | the last worker to stay leaves because of Stop, and leaves queued tasks only as the generic worker that is not yet alone, or because a timed wait timed out |
| `TaskPoolDraining.SingleThreadDrainsIff` | frameworks/native/preferences/src/task_pool.cpp:61-71 | with one thread and any calls, Stop returns with every accepted task finished exactly if no task was accepted while the worker was leaving, without a spawn since |
| `TaskPoolDraining.SingleThreadDrains` | frameworks/native/preferences/src/task_pool.cpp:61-71 | so with one thread every accepted task has finished when Stop returns, unless a Start came while a Stop was waiting |
| `TaskPoolDraining.DeadPoolIff` | frameworks/native/preferences/src/task_pool.cpp:35-71 | between Start and Stop, for any number of threads and any calls: all workers are gone or leaving exactly if a step that left the pool so came before, and no thread was spawned since |
| `TaskPoolRuns.StartDuringStopLosesTask` | frameworks/native/preferences/src/task_pool.cpp:35-71 | a run in which a Start that comes while Stop waits empties the pool and loses an accepted task |
| `TaskPoolRuns.TwoThreadsLoseTask` | frameworks/native/preferences/src/task_pool.cpp:61-201 | with two threads and no Start during Stop, a run in which a tagged task is accepted, never started, and Stop returns |
| `Conditions.ParsePrint` | frameworks/native/rdb/src/abs_predicates.cpp:48-123 | every condition is read back from its tokens, with AND binding tighter than OR and BETWEEN and IN using AND and parentheses of their own |
| `Conditions.ParseIff` | frameworks/native/rdb/src/abs_predicates.cpp:48-123 | the parser accepts exactly the printed conditions |
| `Conditions.ViableStays` | frameworks/native/rdb/src/abs_predicates.cpp:83-102 | no viable prefix closes more than it opened |
| `Conditions.OrNeedsOperand` | frameworks/native/rdb/src/abs_predicates.cpp:104-114 | an OR can only follow a complete operand |
| `ClauseText.ReadsTest` | frameworks/native/rdb/src/abs_predicates.cpp:48-344 | the characters that each test call appends read as the tokens of that test |
| `FieldNames.RemoveQuotesLacks` | frameworks/native/rdb/src/abs_predicates.cpp:550-559 | no quote of any kind is left |
| `FieldNames.Normalize` | frameworks/native/rdb/src/abs_predicates.cpp:561-587 | the splitting loop computes the specified spelling, for every string |
| `FieldNames.SplitAtDots` | frameworks/native/rdb/src/abs_predicates.cpp:571-581 | the pieces between dots, without an empty last one |
| `FieldNames.ColumnSpelling` | frameworks/native/rdb/src/abs_predicates.cpp:550-587 | a plain or table.column field is spelled in backticks around names without quotes or dots |
| `FieldNames.ColumnNamed` | frameworks/native/rdb/src/abs_predicates.cpp:550-587 | every such column is what its dotted name denotes |
| `FieldNames.ReadsColumn` | frameworks/native/rdb/src/abs_predicates.cpp:561-587 | the spelling of a column reads as its tokens |
| `Predicates.AdvancePrints` | frameworks/native/rdb/src/abs_predicates.cpp:48-123 | one call writes exactly the tokens that lead from the printed stack to the next one, and sets isNeedAnd accordingly |
| `Predicates.StackPrints` | frameworks/native/rdb/src/abs_predicates.cpp:48-123 | after any calls that never close what was not open, the tokens are the printed stack of partial conditions |
| `PredicateMeaning.PlaceholdersAreArguments` | frameworks/native/rdb/src/abs_predicates.cpp:468-513 | with each field taken as one name, the placeholders are the collected arguments, in number and order |
| `PredicateGrammar.StackIsLostByClosing` | frameworks/native/rdb/src/abs_predicates.cpp:93-102 | the stack is lost exactly when an accepted EndWrap had nothing to close |
| `PredicateGrammar.ViableUnlessClosingNothing` | frameworks/native/rdb/src/abs_predicates.cpp:48-123 | the tokens are a viable prefix of the grammar exactly when no accepted EndWrap had nothing to close |
| `PredicateGrammar.NeedAndMeansComplete` | frameworks/native/rdb/src/abs_predicates.cpp:589-596 | isNeedAnd is true exactly when the last operand is complete, after any calls |
| `PredicateGrammar.NeedAndMeansOrIsViable` | frameworks/native/rdb/src/abs_predicates.cpp:104-114 | in grammar terms: isNeedAnd is true exactly when an OR may come next |
| `PredicateGrammar.ScriptRoundTrip` | frameworks/native/rdb/src/abs_predicates.cpp:48-123 | every condition over proper names and non-empty values is built by its calls, and read back from the characters and arguments they produce |
| `PredicateFields.TextReads` | frameworks/native/rdb/src/abs_predicates.cpp:48-123 | for any calls with any fields, the characters of each call are read by themselves |
| `PredicateFields.MarksAreQuestions` | frameworks/native/rdb/src/abs_predicates.cpp:48-123 | in every text the placeholders are exactly the question marks outside backticks |
| `PredicateFields.PlaceholdersMatchIff` | frameworks/native/rdb/src/abs_predicates.cpp:48-123 | after any calls, there is one placeholder for each argument exactly if no accepted field spells a question mark outside backticks |
| `PredicateFields.UnnamedHasNoMeaning` | frameworks/native/rdb/src/abs_predicates.cpp:561-587 | a test on a field that is neither a plain nor a table.column name leaves a text outside the grammar, whose names are all quoted |
| `PredicateFields.MeaningIff` | frameworks/native/rdb/src/abs_predicates.cpp:48-123 | for any calls with any fields: text and arguments, lexed, bound and parsed, mean something exactly when every accepted field names a column, nothing was closed that was not open, nothing is left open and the last operand is complete; then they mean the tree that the calls describe |
| `PredicateBuilder.SurroundWithFunction` | frameworks/native/rdb/src/string_utils.cpp:30-46 | the parameters joined by the separator with spaces around it |
| `PredicateBuilder.AbsPredicates.constructor` | frameworks/native/rdb/src/abs_predicates.cpp:26-29 | nothing set |
| `PredicateBuilder.AbsPredicates.CheckIsNeedAnd` | frameworks/native/rdb/src/abs_predicates.cpp:589-596 | writes the AND if one is needed, and one is needed from then on |
| `PredicateBuilder.AbsPredicates.EqualTo` | frameworks/native/rdb/src/abs_predicates.cpp:48-64 | the specified text, argument and flag; nothing for an empty field or value |
| `PredicateBuilder.AbsPredicates.NotEqualTo` | frameworks/native/rdb/src/abs_predicates.cpp:69-81 | as specified for `<>` |
| `PredicateBuilder.AbsPredicates.BeginWrap` | frameworks/native/rdb/src/abs_predicates.cpp:83-91 | an AND if needed, an opening parenthesis, and no AND needed next |
| `PredicateBuilder.AbsPredicates.EndWrap` | frameworks/native/rdb/src/abs_predicates.cpp:93-102 | a closing parenthesis exactly if an operand is complete |
| `PredicateBuilder.AbsPredicates.Or` | frameworks/native/rdb/src/abs_predicates.cpp:104-114 | an OR exactly if an operand is complete |
| `PredicateBuilder.AbsPredicates.And` | frameworks/native/rdb/src/abs_predicates.cpp:116-123 | changes nothing |
| `PredicateBuilder.AbsPredicates.Contains` | frameworks/native/rdb/src/abs_predicates.cpp:128-140 | the LIKE test, with an argument that matches a text exactly if the text has a part that matches the value; for a value without wildcards, has it as substring (ASCII case aside) |
| `PredicateBuilder.AbsPredicates.BeginsWith` | frameworks/native/rdb/src/abs_predicates.cpp:145-157 | the LIKE test, with an argument that matches a text exactly if the text has a prefix that matches the value; for a value without wildcards, begins with it (ASCII case aside) |
| `PredicateBuilder.AbsPredicates.EndsWith` | frameworks/native/rdb/src/abs_predicates.cpp:162-174 | the LIKE test, with an argument that matches a text exactly if the text has a suffix that matches the value; for a value without wildcards, ends with it (ASCII case aside) |
| `PredicateBuilder.AbsPredicates.IsNull` | frameworks/native/rdb/src/abs_predicates.cpp:179-190 | the null test, without argument |
| `PredicateBuilder.AbsPredicates.IsNotNull` | frameworks/native/rdb/src/abs_predicates.cpp:195-206 | the negated null test |
| `PredicateBuilder.AbsPredicates.Like` | frameworks/native/rdb/src/abs_predicates.cpp:211-223 | LIKE with the value itself |
| `PredicateBuilder.AbsPredicates.Glob` | frameworks/native/rdb/src/abs_predicates.cpp:228-240 | GLOB with the value itself |
| `PredicateBuilder.AbsPredicates.Between` | frameworks/native/rdb/src/abs_predicates.cpp:245-258 | the range test with both bounds as arguments |
| `PredicateBuilder.AbsPredicates.NotBetween` | frameworks/native/rdb/src/abs_predicates.cpp:263-276 | the negated range test |
| `PredicateBuilder.AbsPredicates.GreaterThan` | frameworks/native/rdb/src/abs_predicates.cpp:281-293 | as specified for `>` |
| `PredicateBuilder.AbsPredicates.LessThan` | frameworks/native/rdb/src/abs_predicates.cpp:298-310 | as specified for `<` |
| `PredicateBuilder.AbsPredicates.GreaterThanOrEqualTo` | frameworks/native/rdb/src/abs_predicates.cpp:315-327 | as specified for `>=` |
| `PredicateBuilder.AbsPredicates.LessThanOrEqualTo` | frameworks/native/rdb/src/abs_predicates.cpp:332-344 | as specified for `<=` |
| `PredicateBuilder.AbsPredicates.OrderBy` | frameworks/native/rdb/src/abs_predicates.cpp:350-384 | a comma between terms, the field, ASC or DESC |
| `PredicateBuilder.AbsPredicates.Distinct` | frameworks/native/rdb/src/abs_predicates.cpp:386-390 | only the distinct flag |
| `PredicateBuilder.AbsPredicates.Limit` | frameworks/native/rdb/src/abs_predicates.cpp:395-407 | set once, to a positive number |
| `PredicateBuilder.AbsPredicates.Offset` | frameworks/native/rdb/src/abs_predicates.cpp:412-424 | set once, to a positive number |
| `PredicateBuilder.AbsPredicates.GroupBy` | frameworks/native/rdb/src/abs_predicates.cpp:429-449 | every field followed by a comma, the last comma dropped; an empty field ends the call early with that comma in place |
| `PredicateBuilder.AbsPredicates.IndexedBy` | frameworks/native/rdb/src/abs_predicates.cpp:454-463 | the name without quotes |
| `PredicateBuilder.AbsPredicates.PushValues` | frameworks/native/rdb/src/abs_predicates.cpp:482-486 | one placeholder and one argument for each value, in order |
| `PredicateBuilder.AbsPredicates.InOrNotIn` | frameworks/native/rdb/src/abs_predicates.cpp:468-513 | the membership test with one placeholder for each value; nothing for an empty field or list |
| `PredicateBuilder.AbsPredicates.SetWhereClause` | frameworks/native/rdb/src/abs_predicates.cpp:610-616 | an empty text leaves the clause |
| `Patterns.PatternsFind` | frameworks/native/rdb/src/abs_predicates.cpp:128-174 | for every value, the patterns with a wildcard after, before and around it match exactly the texts with a matching prefix, suffix, part |
| `PredicateSettings.RefusedIff` | frameworks/native/rdb/src/abs_predicates.cpp:48-123 | a clause call changes nothing exactly if a field, a value or the list is empty, or it needs a complete operand and there is none, or it is And |
| `PredicateSettings.LimitIsFirst` | frameworks/native/rdb/src/abs_predicates.cpp:395-407 | after any calls the limit is the first positive one, or unset |
| `PredicateSettings.OffsetIsFirst` | frameworks/native/rdb/src/abs_predicates.cpp:412-424 | after any calls the offset is the first positive one, or unset |
| `PredicateSettings.IndexIsLast` | frameworks/native/rdb/src/abs_predicates.cpp:454-463 | after any calls the index is the last that was not empty, without quotes; distinct is set exactly if Distinct was called |
| `PredicateParcel.DataAbilityPredicates.Raw` | frameworks/native/dataability/src/data_ability_predicates.cpp:30-34 | a raw selection is the where clause |
| `PredicateParcel.DataAbilityPredicates.Marshalling` | frameworks/native/dataability/src/data_ability_predicates.cpp:73-99 | appends exactly the specified items |
| `PredicateParcel.MarshallingString` | frameworks/native/dataability/src/data_ability_predicates.cpp:109-117 | a flag, and the string if it is not empty |
| `PredicateParcel.MarshallingStringList` | frameworks/native/dataability/src/data_ability_predicates.cpp:119-127 | a flag, and the list if it is not empty |
| `PredicateParcel.ReadLoad` | frameworks/native/dataability/src/data_ability_predicates.cpp:41-52 | reads the items in order |
| `PredicateParcel.DataAbilityPredicates.FromParcel` | frameworks/native/dataability/src/data_ability_predicates.cpp:36-56 | the rebuilt object is the specified function of what the parcel holds |
| `PredicateParcel.LoadRoundTrip` | frameworks/native/dataability/src/data_ability_predicates.cpp:36-127 | whatever surrounds them, the items written are read back exactly, and reading stops at their end |
| `PredicateParcel.StripBackticks` | frameworks/native/dataability/src/predicates_utils.cpp:48-53 | the loop terminates and leaves the text without backticks |
| `PredicateParcel.SplitAtCommas` | frameworks/native/dataability/src/predicates_utils.cpp:54-58 | the pieces between commas, as getline yields them |
| `PredicateParcel.SetAttributes` | frameworks/native/dataability/src/predicates_utils.cpp:36-70 | sets what the arguments say, through the same calls a client would make |
| `PredicateParcel.RespelledIff` | frameworks/native/dataability/src/predicates_utils.cpp:45-60 | a name survives spelling, stripping and spelling again exactly if it is not a name followed by two dots |
| `PredicateGroups.RegroupedIff` | frameworks/native/dataability/src/predicates_utils.cpp:45-60 | for every group text, however it was built: it comes back exactly if it is empty or each comma-separated piece is spelled as its own unquoted name would be |
| `PredicateGroups.GroupRestoredIff` | frameworks/native/dataability/src/predicates_utils.cpp:45-60 | one GroupBy of fields whose names hold no comma comes back exactly if every name is restorable (not empty, not a name followed by two dots) or the group is empty |
| `PredicateGroups.CommaNameRestoredIff` | frameworks/native/dataability/src/predicates_utils.cpp:54-59 | a single field whose name holds commas comes back exactly if the name and each of its comma-separated pieces is written raw |
| `PredicateGroups.RepeatedGroupByIff` | frameworks/native/rdb/src/abs_predicates.cpp:429-449 | two calls of GroupBy over names without commas come back exactly if every name is restorable except the two that meet, and those together are spelled as one name would be |
| `PredicateGroups.RawRepeatedIff` | frameworks/native/rdb/src/abs_predicates.cpp:429-449 | two raw names of two calls come back exactly if put together they are raw |
| `PredicateGroups.ParcelRoundTripIff` | frameworks/native/dataability/src/data_ability_predicates.cpp:36-127 | for every object built by any calls, everything but the group and the two flags comes back, and the group exactly if it is empty or each of its pieces is stable |
| `PredicateParcel.RebuiltPreserves` | frameworks/native/dataability/src/data_ability_predicates.cpp:36-56 | everything comes back except the two flags isNeedAnd and isSorted |
| `PredicateParcel.ParcelRoundTrip` | frameworks/native/dataability/src/data_ability_predicates.cpp:36-127 | marshal then unmarshal preserves raw flag, where clause, arguments, distinct, index, group, order, limit and offset for every object built by the calls with at most one such GroupBy |
| `PredicateResumed.ForgottenNeedAndIff` | frameworks/native/dataability/src/data_ability_predicates.cpp:36-56 | unmarshalling forgets isNeedAnd; for any calls before and after: if the flag was not set, the result is that of all calls in one go; if it was set, each OR and EndWrap is dropped, and the clause has a meaning exactly if it had one before and nothing but such calls, AND and refused tests follow |
| `PredicateResumed.ForgottenSortedIff` | frameworks/native/dataability/src/data_ability_predicates.cpp:36-56 | unmarshalling forgets isSorted; for any calls before and after: the order differs from that of all calls in one go exactly if an OrderBy was accepted before and one after, and then by the one missing comma |
| `PredicateParcel.TwoGroupBysMerge` | frameworks/native/rdb/src/abs_predicates.cpp:429-449 | two calls of GroupBy, each of one plain name, come back as one name |
| `PredicateParcel.CommaSplitsName` | frameworks/native/dataability/src/predicates_utils.cpp:54-59 | two plain names with a comma between them, given as one, come back as two |
| `StepCursor.StepResultSet.PrepareStep` | frameworks/native/rdb/src/step_result_set.cpp:320-342 | prepared exactly if not closed and the query could be begun |
| `StepCursor.StepResultSet.FinishStep` | frameworks/native/rdb/src/step_result_set.cpp:347-367 | no statement, and the position before the first row |
| `StepCursor.StepResultSet.Reset` | frameworks/native/rdb/src/step_result_set.cpp:372-379 | the position before the first row, with the statement rewound |
| `StepCursor.StepResultSet.Close` | frameworks/native/rdb/src/step_result_set.cpp:297-306 | closed, with no statement |
| `StepCursor.StepResultSet.GoToNextRow` | frameworks/native/rdb/src/step_result_set.cpp:151-187 | one row on, or at the end with the row count known and right, or an error that 52 busy answers in a row or a fault explains; a prepared statement has always advanced rowPos + 1 rows |
| `StepCursor.StepResultSet.StepWithRetry` | frameworks/native/rdb/src/step_result_set.cpp:158-172 | the retries run out exactly if 52 steps in a row are busy or locked; otherwise the first that is not decides: a row and one further, the end at the end, or an error |
| `StepCursor.StepResultSet.GoToRow` | frameworks/native/rdb/src/step_result_set.cpp:121-146 | undisturbed, succeeds exactly for 0 <= p < n and lands on p; from any position; terminates |
| `StepCursor.StepResultSet.GetRowCount` | frameworks/native/rdb/src/step_result_set.cpp:99-116 | undisturbed, returns n and restores the position; terminates |
| `StepCursor.StepResultSet.GetColumn` | frameworks/native/rdb/src/step_result_set.cpp:254-264 | the value of the row the cursor is on, or why there is none |
| `StepCursor.Perform` | frameworks/native/rdb/src/step_result_set.cpp:99-187 | over any sequence of moves and counts the forward-only statement refines a plain position |
| `ConnectionPoolMonitor.SqliteConnectionPool.constructor` | frameworks/native/rdb/src/sqlite_connection_pool.cpp:52-75 | all connections opened and idle |
| `ConnectionPoolMonitor.SqliteConnectionPool.AcquireConnection` | frameworks/native/rdb/src/sqlite_connection_pool.cpp:112-163 | a read connection from the end of the vector, or the write connection |
| `ConnectionPoolMonitor.SqliteConnectionPool.ReleaseConnection` | frameworks/native/rdb/src/sqlite_connection_pool.cpp:122-178 | the connection goes back where it came from |
| `ConnectionPoolMonitor.SqliteConnectionPool.CloseAllConnections` | frameworks/native/rdb/src/sqlite_connection_pool.cpp:94-110 | everything closed, nothing idle |
| `ConnectionPoolMonitor.SqliteConnectionPool.InnerReOpenReadConnections` | frameworks/native/rdb/src/sqlite_connection_pool.cpp:227-249 | succeeds exactly if every open does; then every connection in the vector was closed and readConnectionCount new ones took their place; otherwise the pool is closed |
| `ConnectionPools.NextKeepsInv` | frameworks/native/rdb/src/sqlite_connection_pool.cpp:112-178 | every step of any session or of a reopen keeps the invariant |
| `ConnectionPools.ReadConnectionsAddUp` | frameworks/native/rdb/src/sqlite_connection_pool.cpp:112-178 | idle plus held read connections is readConnectionCount, and idle never exceeds the vector |
| `ConnectionPools.HeldConnectionsAreExclusive` | frameworks/native/rdb/src/sqlite_connection_pool.cpp:227-256 | no connection is held by two sessions, held and idle at once, or closed while held, across reopens |
| `ConnectionPools.WritesGoToTheWriteConnection` | frameworks/native/rdb/src/store_session.cpp:80-178 | no Execute call, nor the pragma detour of ExecuteGetString, lets a write reach a read connection |
| `ConnectionPools.ExecuteRestoresUseCount` | frameworks/native/rdb/src/store_session.cpp:80-160 | each Execute call, however it ends and whatever other sessions do meanwhile, restores the use count |
| `ConnectionRoutes.WaitsIff` | frameworks/native/rdb/src/sqlite_connection_pool.cpp:112-163 | in every run a session without a connection waits exactly if all connections of the kind it asks for are held |
| `ConnectionRoutes.AcquireUndoesRelease` | frameworks/native/rdb/src/sqlite_connection_pool.cpp:135-178 | the read connection given back last is the next one taken |
| `ConnectionRoutes.ReOpenReplaces` | frameworks/native/rdb/src/sqlite_connection_pool.cpp:227-249 | a reopen closes exactly the connections that nobody holds and puts new ones in their place; held ones are not touched |
| `ConnectionRoutes.ReadsGoToReadConnectionsIff` | frameworks/native/rdb/src/store_session.cpp:80-178 | an Execute call of a session that holds no connection runs its statement on a read connection exactly if it only reads, the pool has read connections, and the call makes no detour for a pragma |
| `ConnectionRoutes.HeldConnectionIsUsed` | frameworks/native/rdb/src/store_session.cpp:37-57 | a session that holds a connection keeps it through its Execute calls |
| `ConnectionRoutes.RefusedIff` | frameworks/native/rdb/src/store_session.cpp:86-105 | a prepared statement is refused exactly if it writes and the session holds a read connection |
| `Transactions.BodyOnlyFlags` | frameworks/native/rdb/src/store_session.cpp:312-347 | inside a transaction, marks and whole inner transactions change only the two flags of the top of the stack |
| `Transactions.NestCommitsIffAllMarked` | frameworks/native/rdb/src/store_session.cpp:285-369 | a whole nest issues one BEGIN and one end, COMMIT exactly if every transaction in it was marked before it ended; stack, connection, use count and pool are restored |
| `Transactions.NoTransactionOnReadConnection` | frameworks/native/rdb/src/store_session.cpp:287-293 | on a held read connection nothing begins and nothing changes |
| `Transactions.AnyCallsKeep` | frameworks/native/rdb/src/store_session.cpp:285-369 | after any calls in any order, with BEGIN failing or not, BEGIN and its end alternate, and the connection is kept exactly while the stack is not empty |
| `SharedTransactions.NextKeepsGood` | frameworks/native/rdb/src/store_session.cpp:285-369 | all sessions share one stack: every step of begins, marks, ends, holds, Execute calls and reopens, whoever ends whose nest, keeps the books: one use for each hold, one for the nest a session began, one for each of its nests that others ended |
| `SharedTransactions.EndReachesItsConnectionIff` | frameworks/native/rdb/src/store_session.cpp:339-357 | in every run the end of a nest issues COMMIT or ROLLBACK on the write connection of its BEGIN exactly if it is made by the session that began the nest; another session issues it on its read connection or, without one, dereferences a null connection; when it has none, in terms of its holds |
| `SharedCommits.NestCommitsIff` | frameworks/native/rdb/src/store_session.cpp:321-369 | in every run a nest that ends without a crash commits exactly if every transaction pushed since its outermost begin was marked, by any session, while it was on top; otherwise it is rolled back |
| `SharedCommits.BeginsIff` | frameworks/native/rdb/src/store_session.cpp:285-310 | a begin inside a nest only pushes; an outermost one pushes exactly if its BEGIN is accepted, which is issued on the write connection unless the session uses a read connection |
| `SharedTransactions.LostConnectionIsNeverReturned` | frameworks/native/rdb/src/store_session.cpp:285-357 | after a nest is ended by another session, the session that began it keeps the write connection for the rest of the run, and only that session can begin a nest |
| `SharedTransactions.ForeignEndCrashes` | frameworks/native/rdb/src/store_session.cpp:347-353 | a run in which a session without a connection ends the nest of another |
| `SharedTransactions.ForeignEndStrandsConnection` | frameworks/native/rdb/src/store_session.cpp:347-356 | a run in which a session reading step by step ends the nest of another: ROLLBACK on its read connection, which goes back under the reader, while the first session stays on the write connection |
| `SharedTransactions.UseCountsAreRestoredIff` | frameworks/native/rdb/src/store_session.cpp:285-369 | in every run, with no nest open, all use counts are back at the holds of their sessions exactly if every nest was ended by the session that began it |
| `Transactions.StoreSession.AcquireToWrite` | frameworks/native/rdb/src/store_session.cpp:37-44 | AcquireConnection(false) |
| `Transactions.StoreSession.ReleaseConnection` | frameworks/native/rdb/src/store_session.cpp:46-57 | the connection goes back with its last use |
| `Transactions.StoreSession.BeginTransaction` | frameworks/native/rdb/src/store_session.cpp:285-310 | acquires and issues BEGIN only for the outermost; pushes; an error restores the use count |
| `Transactions.StoreSession.MarkAsCommit` | frameworks/native/rdb/src/store_session.cpp:362-369 | marks the top, if there is one |
| `Transactions.StoreSession.EndTransactionWithObserver` | frameworks/native/rdb/src/store_session.cpp:321-360 | pops; spoils the transaction around it, or issues COMMIT or ROLLBACK and releases |

## Left out

- Block sizes: a block is at least as large as its header and first group, and at most 2^32 - 4 bytes, as Create makes it.
- Zero-size copies: an empty payload is taken to be copied successfully, and clearing an empty directory is taken to fail, as the bounds-checking C functions define it.
- FillBlock.FillSharedBlock: the row total is an unbounded number here, a 32-bit int in the code; SharedCursor keeps results below 2^31 rows.
- SharedCursor.SqliteSharedResultSet.GetLong: strtoll and the conversion of a double are parameters.
- SharedCursor.SqliteSharedResultSet.GetRowCount: the column count is a constant of the result set; a missing block is not modelled.
- BlockSpace.FitIff: rows without empty blobs; an empty blob is refused by a block that is full to the last byte.
- The optimised fill through a patched SQLite (FillSharedBlockOpt, SharedBlockSerializerInfo), ashmem, and message parcels of blocks.
- PreferencesDisk.Files.WriteToDiskFile: rename and remove are taken to succeed; a failing write leaves the file missing or incomplete, never a different whole map.
- PreferencesMemory.PreferencesImpl.ClearAll: the order in which keys are recorded is any order; the code uses the order of its map.
- PreferencesGenerations.FlushSyncIsDurable: about runs without write faults; with faults, FlushSyncIsCoveredOnReturn says what holds when the request ends and GenerationFallsIff when it is lost again. Waiting for the result is not modelled.
- PreferencesGenerations.QuiescentFileIsNewest: about runs without write faults; after a fault the generation on disk is that of the last request that was written.
- The XML value encoding of preferences, key and value checks, getters and observers.
- TaskPoolMonitor.TaskPool.ReapTask: queues are visited in any order; the code uses the order of its map.
- TaskPoolMonitor.TaskPool.Schedule: null tasks are not modelled; a task is its number in scheduling order.
- TaskPoolSafety.ThreadsAreAccounted: claims about the generic worker being in place and about the pool never being empty exclude runs in which Start came while Stop was waiting; TaskPoolDraining.DeadPoolIff says for all runs when the pool is empty.
- TaskPoolDraining.SingleThreadDrains: excludes such runs too; SingleThreadDrainsIff and StopDrainsIff are for all runs.
- Task queues are values inside the pool with a node number for the address that a running worker keeps; isGenericThreadIdle_ and wake-ups are left out, and with them every liveness claim.
- PredicateBuilder.AbsPredicates.InOrNotIn: In and NotIn, which differ in one word, as one method; OrderBy stands for OrderByAsc and OrderByDesc in the same way.
- Patterns.PatternsFind: LIKE without an ESCAPE clause, with letters folded in the ASCII range only; GLOB patterns and the comparison of values are not interpreted.
- PredicateParcel.DataAbilityPredicates.FromParcel: a null source is not modelled; reading an item of the wrong kind yields the default value.
- The integers of a parcel are unbounded here.
- Joins, table names and the DataShare predicates, which repeat the same builder.
- PredicateFields.MeaningIff: the grammar has quoted names of one or two parts, as the calls write them; that SQLite also takes some unquoted names of three parts is not modelled.
- PredicateMeaning.PlaceholdersAreArguments: takes every field as one name; PlaceholdersMatchIff is the claim about the characters.
- StepCursor.StepResultSet.GoToNextRow: one thread; the check that rejects other threads, and the flag behind IsEnded, are left out.
- ConnectionPools.NextKeepsInv: covers successful reopens; a failed reopen closes the whole pool, as its own contract says.
- Transactions.StoreSession.EndTransactionWithObserver: one session; what the shared stack does to others is in SharedTransactions. Observer callbacks are left out; the result of COMMIT and ROLLBACK only decides the returned code.
- Transactions.AnyCallsKeep: one session alone with the stack; SharedTransactions.UseCountsAreRestoredIff is about any number of them.
- SharedTransactions.EndReachesItsConnectionIff: a null connection ends the run; what the process does then is not modelled. A session is used by one thread, and gives back a step query only if it holds one.
- SharedCursor.SqliteSharedResultSet.AnswerIsExpectedIff: about undisturbed calls, a cursor that is not forward-only and rows that each fit a block; Answer, the contract of every getter, covers all states.
- RollBack, GiveConnectionTemporarily and the savepoint family of transactions, which pop a copy of the stack or leave the use count unbalanced.
- Encryption keys, locale configuration and restoring a database file.
- JavaScript bindings, remote proxies and stubs, configuration and error-code mapping: thin dispatch.
