# Verified model of a file-backed SQL server

A small SQL database keeps each table in an append-only CSV file, finds rows by id through an in-memory B+ tree, and
serves concurrent requests from a thread pool. This project models its core in Dafny and proves what the design relies
on.

- **B+ tree** (`pairs`, `node`, `shape`, `bptree`, `treefacts`): heap nodes with fixed arrays, split in place. A ghost
  tree describes the heap; insertion and search refine a sorted list of pairs, and the leaf chain is shown to follow it.
- **Table file** (`text`, `csv`, `csvlines`, `tablefile`, `filelines`): a file is a sequence of bytes, an offset a
  position in it. `fgets` reads at most 4095 bytes through the first newline.
- **Index as a cache** (`indexspec`, `tableindex`, `registry`, `insertrow`, `numbers`, `execspec`, `execfacts`,
  `executor`, `runs`, `durable`, `ids`, `meaning`): statement execution is written as small steps on a table, `Execute`,
  and compared with `Reference`, which has no index at all. The classes work on heap trees and are tied to `Execute` by
  their contracts. Allocation failures during a rebuild or an insertion, and the forced registration failure, are inputs
  (`Faults`).
- **Concurrent requests** (`engine`, `engineregistry`, `engineserial`, `engineruns`, `enginedurable`, `engineprogress`,
  `enginegrants`, `enginealone`, `enginestale`): a step machine over request program counters, the lock manager's mutex
  and list, the table mutexes, and the registry array behind its mutex, with its capacity and a generation that counts
  reallocations. A request keeps the generation its entry pointer came from. Schedules are arbitrary.
- **Server threads** (`taskqueue`, `server`, `serverruns`, `admission`): the ring buffer as a class; the accept thread,
  the workers and shutdown as a step machine with condition-variable signals, spurious wakeups included.
- **SQL, JSON and output** (`lexer`, `parser`, `grammar`, `sqltext`, `json`, `jsonobjects`, `input`, `utf8`, `layout`,
  `answers`, `tables`): character state machines with their loops, and the grammars they accept exactly, which are said
  without them.

A string has one character per byte and does not contain its terminating NUL; reading at its length stands for reading
the terminator. `dafny verify dfyconfig.toml` checks everything.

Where the code falls short of what one might expect, the exact condition is proved and so is an input at which it fails
(in `witnesses`, `Utf8.WidthSplitsCharacter` and `EngineStale.InsertLost`): `TableFile.AppendScan`,
`IndexSpec.RegisterCoherent`, `ExecFacts.ExecuteKeepsReady`, `ExecFacts.SecondInsertAgrees` and
`Runs.InsertsMatchExactly` (rows that do not fit the line buffer of 4095 bytes), `ExecFacts.FastEqualsScan` (files with
rows of the wrong width), `Csv.ExactRoundTrip` (white space at the ends of plain fields), `InsertRows.BuildInsertRow` (a
column named twice), `Json.VerdictMalformed` (a `sql` value that is not a string), `Utf8.WidthAdditive` (a seam inside a
character) and `EngineStale.SerialExactly` (indexes of more than four tables). An INSERT whose columns are named twice
is refused only after the index is loaded and the id is fetched, as in the code. Registered ids are internal: the server
answers an INSERT without them.

## Model

| member | source | states |
|---|---|---|
| BPlusTrees.BPlusTree.Insert | src/index/bptree.c:333-376 | the result is exactly duplicate, added or out of memory, decided by the key and the allocations available; success inserts the pair in key order and nothing else, a duplicate leaves every object of the tree unchanged |
| BPlusTrees.BPlusTree.Search | src/index/bptree.c:385-407 | found exactly if the key is stored, with its value; a descent of h > 0 rounds means at least 2^(h+1) stored pairs |
| BPlusTrees.BPlusTree.CostBound | src/index/bptree.c:360-364 | the nodes of the tree and those an insertion allocates, a new root included, never exceed the pairs then stored |
| BPlusTrees.BPlusTree.ContentsSorted | src/index/bptree.c:173-297 | the contents are strictly increasing by key |
| BPlusTrees.BPlusTree.Free | src/index/bptree.c:319-322 | a freed tree is empty again, whatever state it was in |
| BPlusTrees.InsertIntoLeaf | src/index/bptree.c:173-225 | leaf insertion with duplicate check and split keeps order, occupancy and the chain |
| BPlusTrees.SplitLeaf | src/index/bptree.c:202-224 | an over-full leaf becomes two linked leaves of two pairs; the right one's first key is promoted |
| BPlusTrees.InsertIntoInternal | src/index/bptree.c:237-297 | recursive insertion below an internal node, absorbing or passing on a split; the result is decided exactly by the key and the allocations available, and a duplicate changes nothing |
| BPlusTrees.SplitInner | src/index/bptree.c:266-296 | an over-full internal node becomes two; the middle separator moves up |
| BPlusTrees.InsertIntoNode | src/index/bptree.c:305-311 | the same contract for either kind of node |
| BPlusTrees.InsertAtRoot | src/index/bptree.c:346-375 | root growth: a split root gets a new parent with two children |
| BPlusTrees.FindLeaf | src/index/bptree.c:389-391 | descent ends in the one leaf that can hold the key, after as many rounds as the tree has internal levels |
| BPlusTrees.SearchFrom | src/index/bptree.c:385-407 | lookup in a stored subtree equals membership in its contents |
| Nodes.Node.FindChildIndex | src/index/bptree.c:139-147 | the number of separators not above the key |
| Nodes.Node.InsertPair | src/index/bptree.c:188-199 | shifting opens exactly one slot in both leaf arrays |
| Nodes.Node.InsertChild | src/index/bptree.c:252-264 | shifting opens one slot among the keys and one among the children |
| Nodes.Node.MoveUpperPairs | src/index/bptree.c:207-224 | upper half moved, `next` relinked |
| Nodes.Node.MoveUpperChildren | src/index/bptree.c:276-296 | separators and children above the middle key moved |
| Pairs.InsUpdatesMap | src/index/bptree.c:173-224 | insertion in key order is an update of the finite map at that key only |
| Shape.ReplaceChild | src/index/bptree.c:237-264 | replacing a child by the outcome of an insertion keeps separator order, balance and occupancy and inserts into the whole |
| Shape.AbsorbedInserts | src/index/bptree.c:252-296 | a parent that absorbs a split, or splits itself, has inserted the pair |
| Shape.LeafInserts | src/index/bptree.c:188-224 | putting a pair into a leaf, split or not, inserts it and keeps order and occupancy |
| Shape.Halves | src/index/bptree.c:276-296 | splitting an over-full child list keeps order, occupancy and contents |
| Shape.SlotDecides | src/index/bptree.c:139-147 | the child chosen by the separators is the only one that can hold the key |
| Shape.FlatSorted | src/index/bptree.c:237-297 | an ordered tree lists its keys in strictly increasing order |
| TreeFacts.ChainVisitsLeaves | src/index/bptree.c:202-224 | following `next` from the leftmost leaf visits exactly the leaves in order, and yields all pairs in key order |
| TreeFacts.HeightBound | src/index/bptree.c:282-296 | a subtree with h internal levels holds at least 2^(h+1) pairs, which bounds the rounds counted by BPlusTrees.BPlusTree.Search |
| TreeFacts.LeavesAtOneDepth | src/index/bptree.c:282-296 | all leaves are at one depth |
| TreeFacts.NodeBound | src/index/bptree.c:202-205 | a filled subtree has fewer nodes than pairs |
| Csv.ParseLine | src/storage/storage.c:74-173 | the cursor loop computes the state machine of the reader |
| Csv.EscapeField | src/storage/storage.c:181-221 | the escaped text and its terminator fill the computed allocation exactly |
| Csv.WriteQuoted | src/storage/storage.c:200-220 | quotes doubled, one quote at each end |
| Csv.RunField | src/storage/storage.c:95-165 | one escaped field is read back up to its comma or the end of the line |
| Csv.RoundTrip | src/storage/storage.c:74-221 | parsing a written row gives as many fields, each as it was if empty or quoted and trimmed otherwise |
| Csv.ExactRoundTrip | src/storage/storage.c:74-221 | the row comes back exactly if and only if no plainly written field has white space at an end |
| CsvLines.ParseExactly | src/storage/storage.c:74-173 | a line is accepted if and only if it is fields with commas between them, plain or quoted as spelled out there, and then these fields are given |
| Text.TrimWhitespace | src/common/util.c:223-248 | in place: the buffer holds the trimmed text from the returned position |
| Text.StripLineEndings | src/common/util.c:251-267 | in place: all trailing line-end characters removed |
| Text.TrimShape | src/common/util.c:223-248 | trimming removes exactly the outer white space |
| TableFile.ReadLine | src/storage/storage.c:393-410 | a chunk ends after the first newline, after 4095 bytes or at the end of the file |
| TableFile.AppendRow | src/storage/storage.c:232-324 | a missing final newline is added, then the encoded row; the offset is where it starts |
| TableFile.WriteFields | src/storage/storage.c:285-310 | the fields are written escaped, separated by commas |
| TableFile.AppendScan | src/storage/storage.c:232-432 | for every file that scans, a scan after an append is the earlier scan plus the new row at the returned offset if and only if the encoded row is at most 4095 bytes |
| TableFile.AppendSplits | src/storage/storage.c:378-432 | a scan after any append is the earlier scan followed by what the new line reads as |
| TableFile.AppendGrows | src/storage/storage.c:378-432 | if the file still scans after an append it has more rows: one more exactly if the encoded row is at most 4095 bytes |
| TableFile.AppendKeepsRows | src/storage/storage.c:378-432 | whatever is appended, the earlier rows are the first rows of the new file if that scans |
| TableFile.AppendKeepsError | src/storage/storage.c:378-432 | no append, of any length, makes a file that does not scan readable again |
| TableFile.OffsetsStable | src/storage/storage.c:332-368 | whatever is appended, every offset inside the file reads the same as before |
| TableFile.NewOffsetReads | src/storage/storage.c:332-368 | the returned offset reads the new row if that encodes to at most 4095 bytes |
| TableFile.ScannedReadable | src/storage/storage.c:332-368 | every scanned row is read again at its offset |
| TableFile.EncodeSafe | src/storage/storage.c:232-324 | an encoded row of at least one column is never blank and holds no newline or NUL |
| FileLines.ScanExactly | src/storage/storage.c:378-432 | any file that is not empty: cut into pieces at newlines and 4095 bytes, every piece after the first that holds text is a row with the fields of that text, and the scan is refused exactly if one of those texts is |
| FileLines.ReadExactly | src/storage/storage.c:332-368 | reading at an offset gives the fields of the piece that starts there, if it holds text |
| Text.StripShape | src/common/util.c:251-267 | exactly the line ends at the end are dropped |
| Text.CStringShape | src/storage/storage.c:393-410 | exactly what comes before the first NUL counts |
| InsertRows.FindColumn | src/common/util.c:306-319 | first position of a name, or -1 |
| InsertRows.ValidateInsertColumns | src/execution/executor.c:53-89 | accepts exactly equal counts, known columns other than `id`, and newline-free values |
| InsertRows.BuildInsertRow | src/execution/executor.c:99-165 | succeeds exactly if no column is named twice, with the row of schema width |
| InsertRows.RowHolds | src/execution/executor.c:99-165 | each named column holds its value, every other slot is empty, for every schema; of equally named columns the first is set |
| InsertRows.OrderIrrelevant | src/execution/executor.c:99-165 | any reordering of the column and value pairs gives the same row |
| Numbers.IntRoundTrip | src/common/util.c:360-380 | every `int` printed as an id parses back to itself |
| Numbers.ParseExactly | src/common/util.c:360-380 | a text is a number if and only if it is white space, a sign or none, and digits to the end, with a value in the range of `int` |
| Numbers.DigitsByPlace | src/execution/executor.c:346-399 | printing is decimal: a further digit multiplies by ten |
| Numbers.ValueByPlace | src/common/util.c:360-380 | and so is reading |
| IndexSpec.IndexLookup | src/index/table_index.c:129-140 | the index maps id k to the offset of row k, for exactly the ids 1 to n |
| IndexSpec.LoadCoherent | src/index/table_index.c:148-185 | loading leaves a coherent entry whether or not it succeeds, and succeeds if the file scans and memory suffices |
| IndexSpec.RegisterTidy | src/index/table_index.c:248-274 | registering under the id handed out before succeeds unless it is made to fail, whatever the file holds |
| IndexSpec.RegisterCoherent | src/index/table_index.c:248-274 | append and registration together give the index a rebuild would give if and only if the encoded row is at most 4095 bytes |
| TableIndexes.TableIndex.EnsureLoaded | src/index/table_index.c:148-185 | heap version: the entry becomes the index of a fresh scan, or is emptied when the scan or an allocation fails |
| TableIndexes.TableIndex.Rebuild | src/index/table_index.c:163-180 | scanning into the tree gives the tree of all rows; fails only on a bad line or without memory |
| TableIndexes.TableIndex.RebuildLine | src/index/table_index.c:129-140 | one line: blank skipped, malformed refused, else indexed under the next number |
| TableIndexes.TableIndex.GetNextId | src/index/table_index.c:236-245 | the next id, loading the index if needed |
| TableIndexes.TableIndex.RegisterRow | src/index/table_index.c:248-274 | registration with forced failure, duplicate key and failed allocation; a failed split marks the tree damaged |
| TableIndexes.TableIndex.FindRow | src/index/table_index.c:277-290 | lookup in the loaded tree |
| TableIndexes.TableIndex.Invalidate | src/index/table_index.c:206-221 | back to a new entry from any state, damaged tree included |
| Registries.Registry.GetOrCreate | src/index/table_index.c:82-119 | finds or adds the entry of a name; no entry's content changes |
| Registries.Registry.GetNextId | src/index/table_index.c:236-245 | only the named entry changes |
| Registries.Registry.RegisterRow | src/index/table_index.c:248-274 | only the named entry changes |
| Registries.Registry.FindRow | src/index/table_index.c:277-290 | only the named entry changes |
| Registries.Registry.Invalidate | src/index/table_index.c:206-221 | the named entry is new again, all others unchanged |
| Registries.Registry.Reset | src/index/table_index.c:188-203 | every entry is new again |
| Executors.BuildSelectIndexes | src/execution/executor.c:240-293 | headers and source columns of a select list, or failure for an unknown or missing column |
| Executors.ProjectRow | src/execution/executor.c:346-399 | the selected columns of a row, the id column rendered from the row number |
| Executors.ScanLine | src/execution/executor.c:683-740 | one line of a scan: skipped, refused, or numbered, matched and projected |
| Executors.ScanRows | src/execution/executor.c:580-766 | the whole scan equals numbering, filtering and projecting the rows |
| Executors.ReadRowAtOffset | src/storage/storage.c:332-368 | the row that starts at an offset, or an error |
| Executors.Store.ExecuteInsert | src/execution/executor.c:178-237 | heap version of INSERT equals the step-by-step specification on its table and leaves other tables alone; with a budget above the number of rows no allocation fails |
| Executors.Store.AppendAndRegister | src/execution/executor.c:214-236 | append, register, and invalidate when registration fails; registration gets its memory if the budget exceeds the number of pairs |
| Executors.Store.ExecuteSelect | src/execution/executor.c:580-766 | heap version of SELECT equals the specification |
| Executors.Store.ExecuteIndexSelect | src/execution/executor.c:506-571 | the index path equals the specification |
| Executors.Store.InvalidateTable | src/index/table_index.c:206-221 | one table's index is new again, all other tables unchanged |
| Executors.Store.ResetRegistry | src/index/table_index.c:188-203 | every index is new again, no file changes |
| ExecFacts.InsertComposes | src/execution/executor.c:178-237 | the steps of an INSERT compose to one result for every file, every row and every combination of faults |
| ExecFacts.InsertSucceeds | src/execution/executor.c:178-237 | an acceptable INSERT on a ready, readable table succeeds if and only if memory suffices and no failure is forced |
| ExecFacts.ExecuteKeepsReady | src/execution/executor.c:226-230 | after any statement, with any fault, an index marked as loaded is exactly that of a fresh scan and an unloaded one is empty, if and only if a row the statement registered encodes to at most 4095 bytes |
| ExecFacts.ExecuteAppends | src/execution/executor.c:178-237 | in any state of the index a statement leaves the file alone or adds one line at its end |
| ExecFacts.ExecuteIntact | src/execution/executor.c:178-237 | a statement that runs to its end never leaves an index mid-split |
| ExecFacts.FastEqualsScan | src/execution/executor.c:506-571 | with the index loaded or loadable, WHERE id = k through the tree equals the linear scan if and only if both fail beforehand (unknown column, id that is no number, file that does not scan), or all rows have schema width, or the wanted row itself has another width |
| ExecFacts.ExecuteIsReference | src/execution/executor.c:178-766 | without faults, on a ready table with rows of schema width, a statement answers and writes what the index-free reference does, rows of any length included |
| ExecFacts.ReferenceWidths | src/execution/executor.c:99-165 | all rows keep schema width as long as the rows written fit the line buffer |
| ExecFacts.FaultyExecute | src/execution/executor.c:178-237 | with faults an INSERT fails or answers as the reference; the file is the old one or the reference's |
| ExecFacts.InsertedRow | src/execution/executor.c:178-237 | a registered id is the next row number, and the row has that number in the file if and only if it encodes to at most 4095 bytes |
| ExecFacts.SecondInsertAgrees | src/index/table_index.c:236-274 | of two INSERTs in a row the second gets the reference's id if and only if the row of the first encodes to at most 4095 bytes |
| Meaning.InsertAccepted | src/execution/executor.c:48-165 | on a ready, readable table a fault-free INSERT registers a row if and only if the counts agree, no column is named twice, every column is one of the table and not `id`, and no value holds a line break |
| Meaning.InsertStores | src/execution/executor.c:99-237 | the registered row: each named column holds its value, exactly unless that has white space at an end, and all other cells are empty |
| Meaning.SelectAnswers | src/execution/executor.c:580-766 | a SELECT not by id answers the rows whose cell in the first column of the condition's name equals its value, all of them and no others, in file order, each with the cells asked for under the names asked for |
| Meaning.SelectRefused | src/execution/executor.c:580-766 | it fails if and only if it asks for unknown columns or for none, or the file cannot be read or has a row of another width |
| Meaning.SelectByIdAnswers | src/execution/executor.c:506-571 | a SELECT by id answers the row of that number with the cells asked for, no row if there is none, and fails in exactly the listed cases |
| Runs.RunsStayCoherent | src/index/table_index.c:129-274 | through any sequence of statements, invalidations and resets, with any faults, every index is coherent at all times if and only if all registered rows fit the line buffer |
| Runs.RunsMatchReference | src/execution/executor.c:178-766 | results and files of a whole undisturbed run are those of the index-free reference, as long as no statement on a table follows a registered row of more than 4095 encoded bytes there |
| Runs.InsertsMatchExactly | src/execution/executor.c:178-237 | for runs of acceptable INSERTs the answers are the reference's if and only if no INSERT follows such a row on its table |
| Durable.RunsKeepRows | src/execution/executor.c:178-237 | no history, with any faults and rows of any length, changes what an earlier offset reads; the earlier rows stay the first rows of the file while that scans |
| Durable.ExecuteAnchored | src/index/table_index.c:148-290 | no statement, with any faults and rows of any length, takes a row from its number: by offset, by the loaded index, and by a scan where one is possible |
| Durable.AnchoredRowIsFound | src/execution/executor.c:506-571 | looking such a number up answers with the row if and only if the index is loaded or can be built |
| Durable.InsertedRowIsFound | src/execution/executor.c:178-571 | a row that fits the line buffer and was registered under id n on a ready table is what SELECT * WHERE id = n returns after any further history, with any faults and later rows of any length, if and only if the index is loaded then or can be built |
| Ids.ExecuteFloor | src/index/table_index.c:236-274 | a statement never lowers the next id, and an INSERT registers an id above all earlier ones, for rows of any length |
| Answers.AnswerRectangular | src/execution/executor.c:346-399 | every row of an answer has one cell for each header |
| Answers.AnswerAligned | src/execution/executor.c:458-496 | so every line printed for an answer has the same display width |
| Engine.LocksKept | src/engine/engine_lock_manager.c:63-163 | ownership of the manager, registry and table mutexes and one list entry per key are kept by every step |
| EngineSerial.MutualExclusion | src/engine/sql_engine_adapter.c:349-430 | two requests inside the locked region of one storage name are the same request, by whatever alias they came |
| EngineSerial.InvKept | src/engine/sql_engine_adapter.c:266-439 | the serial-order invariant is kept by every step of every request |
| EngineRegistry.GetOrCreateKeeps | src/index/table_index.c:82-119 | while requests reach the indexes of at most four tables the registry array is allocated once and never moves |
| EngineRegistry.SlotsKept | src/index/table_index.c:148-185 | every step keeps all entry pointers good, although they are used after the registry mutex is released |
| EngineRegistry.NeverStale | src/index/table_index.c:148-185 | then no run uses an entry pointer after the array has moved; tables that are only scanned, or whose requests are rejected before the index, do not count |
| EngineRegistry.RegistryExactly | src/index/table_index.c:148-290 | the steps that enter the registry's critical section are exactly those that look at the index or change it |
| EngineAlone.RunAlone | src/engine/sql_engine_adapter.c:349-430 | a request that runs while the others stand still finishes, leaves their locks and pointers alone, and has brought its table's entry into the array if it reaches the index |
| EngineStale.GoStale | src/index/table_index.c:93-104 | with a fifth table the requests of the others can move the array under the pointer that one request holds |
| EngineStale.StaleExactly | src/index/table_index.c:93-104 | some run uses a stale pointer if and only if requests reach the indexes of more than four tables, for every set of requests |
| EngineStale.SerialExactly | src/engine/sql_engine_adapter.c:266-439 | every finished run is equivalent to serving the granted requests one by one if and only if requests reach the indexes of at most four tables |
| EngineStale.AnswerLost | src/index/table_index.c:148-185 | with more tables any request that reaches the index is, in some finished run, granted first and refused, whatever its serial answer |
| EngineStale.InsertLost | src/index/table_index.c:148-185 | so an acceptable, fault-free INSERT on a ready, readable table is refused in some finished run although its serial answer is a registered row |
| EngineRuns.SerialEquivalence | src/engine/sql_engine_adapter.c:266-439 | for every interleaving of any number of requests that reach the indexes of at most four tables, final tables and answers equal serving the granted requests one by one in grant order; a request is not granted only if its table is unknown or its lock could not be allocated, and then it failed |
| EngineRuns.ConcurrentIsReference | src/engine/sql_engine_adapter.c:266-439 | for undisturbed requests that is the index-free reference applied in grant order, as long as no request on a table follows a registered row there that does not fit the line buffer |
| EngineRuns.SerialReady | src/index/table_index.c:248-274 | in the serial run every index is coherent at all times, whatever faults occur, if and only if all registered rows fit the line buffer |
| EngineDurable.CountStep | src/index/table_index.c:236-274 | on ready tables a registered id is one more than the number of rows, and the number of rows afterwards exactly if its row fits the line buffer |
| EngineDurable.IdsGrow | src/index/table_index.c:236-274 | ids registered on one table grow with the grant order and never repeat, with any faults and rows of any length |
| EngineDurable.ConcurrentRead | src/engine/sql_engine_adapter.c:266-439 | in any interleaving, a request that looks up an id registered by an earlier granted one answers with that row, exactly if the index is loaded or can be built; rows registered in between may be of any length |
| EngineProgress.WaitersHoldNothing | src/engine/sql_engine_adapter.c:349-380 | who waits for the manager or for a table mutex holds no other lock |
| EngineProgress.Progress | src/engine/engine_lock_manager.c:86-163 | while a request is unfinished some request can step |
| EngineProgress.NothingHeldAtRest | src/engine/engine_lock_manager.c:156-163 | when all requests are finished every mutex is free |
| EngineProgress.StepsBounded | src/engine/sql_engine_adapter.c:266-439 | the number of effective steps is bounded |
| EngineProgress.MaximalRunsFinish | src/engine/sql_engine_adapter.c:266-439 | a run that cannot be continued has finished every request |
| EngineProgress.CanFinish | src/engine/sql_engine_adapter.c:266-439 | every state with sound locks can be run until all requests are finished |
| EngineGrants.GrantedExactly | src/engine/engine_lock_manager.c:86-163 | in every finished run a request got its table's lock if and only if its table is known and the lock could be allocated or was in the list when the request looked |
| EngineGrants.GrantedAnswer | src/engine/sql_engine_adapter.c:349-439 | a granted request fails if an error was forced or there is no output stream, and otherwise answers what its statement gives on the table left by those granted before |
| TaskQueues.TaskQueue.constructor | src/server/task_queue.c:22-45 | an empty open queue |
| TaskQueues.TaskQueue.TryPush | src/server/task_queue.c:64-80 | ring buffer push refines appending to a bounded sequence, refused when full or closed |
| TaskQueues.TaskQueue.Take | src/server/task_queue.c:97-108 | ring buffer pop refines removing the first element |
| TaskQueues.TaskQueue.Close | src/server/task_queue.c:116-121 | closing keeps what is queued |
| Server.InvKept | src/server/task_queue.c:64-121 | mutex, FIFO, wakeup, exit and conservation invariants are kept by every event |
| Server.WakeupsKept | src/server/task_queue.c:64-121 | while a worker sleeps unsignalled the queue is no longer than the signalled workers that have yet to recheck, and it is not closed |
| Server.ConservedKept | src/server/server.c:173-291 | every accepted connection is in exactly one place |
| ServerRuns.Safety | src/server/server.c:173-291 | all of that in every run, and a worker that has left saw a closed, empty queue |
| ServerRuns.ShutdownProgress | src/server/server.c:507-542 | after a shutdown request some thread can act until all have ended |
| ServerRuns.WorkDecreases | src/server/server.c:233-291 | after close every event makes progress |
| ServerRuns.ShutdownDrains | src/server/server.c:507-542 | after close every run is finite and ends with an empty queue and each accepted connection served or rejected once |
| ServerRuns.ExitedMeansServed | src/server/server.c:533-542 | once all threads have ended nothing is lost or handled twice |
| Admission.TurnedAwayExactly | src/server/server.c:268-289 | in every run a connection is answered 503 if and only if the accept thread tried to push it while the queue was closed or full |
| Admission.OpenTakesAll | src/server/server.c:268-289 | a run whose queue is never closed and never full turns nobody away |
| Admission.PushResult | src/server/task_queue.c:64-81 | the push of the thread model does what TaskQueues.TaskQueue.TryPush promises: an open queue with room takes the connection at its end |
| Admission.PopResult | src/server/task_queue.c:90-121 | and the pop what TaskQueues.TaskQueue.Take promises, waiting at an empty queue until it is closed |
| Lexer.LexWord | src/sql/lexer.c:90-124 | the maximal run of word characters, a number if it starts with a digit |
| Lexer.LexString | src/sql/lexer.c:133-213 | a quoted literal with doubled quotes, with the code's own end-of-input rule |
| Lexer.LexSql | src/sql/lexer.c:221-324 | the index loop computes the token list of the whole input |
| Lexer.LexRendered | src/sql/lexer.c:90-324 | spelled tokens with any admissible white space are read back |
| Parser.StringsEqualIgnoreCase | src/common/util.c:192-220 | equality up to the case of ASCII letters |
| Parser.LexEnded | src/sql/lexer.c:221-324 | whatever the lexer accepts ends with END |
| Parser.ParserState.MatchType | src/sql/parser.c:90-99 | advances by one token or not at all, never past END |
| Parser.ParserState.ExpectKeyword | src/sql/parser.c:119-134 | a keyword is an identifier token compared without case |
| Parser.ParserState.ParseItems | src/sql/parser.c:160-233 | the comma-separated list loop equals the grammar |
| Parser.ParserState.ParseInsert | src/sql/parser.c:283-330 | equals the INSERT production |
| Parser.ParserState.ParseWhere | src/sql/parser.c:236-276 | equals the optional WHERE production; AND and OR are refused |
| Parser.ParserState.ParseSelect | src/sql/parser.c:340-389 | equals the SELECT production |
| Parser.ParseStatement | src/sql/parser.c:400-453 | equals the grammar: a statement, a semicolon, nothing after it |
| Parser.ParseRendered | src/sql/parser.c:283-453 | parsing the tokens of a well-formed statement gives back the statement |
| Parser.SqlRoundTrip | src/sql/parser.c:283-453 | lexing and parsing a rendered statement gives it back, for any white space, identifiers equal to keywords and values of any text |
| Grammar.ParseExactly | src/sql/parser.c:119-453 | the parser gives a statement if and only if the tokens up to END spell it by the grammar: keywords in any case, each value as a quoted literal, a number or a bare word, one condition at most, a semicolon |
| SqlText.SpelledRoundTrip | src/sql/parser.c:119-453 | any spelling of a statement, with any admissible white space, is read back as the statement |
| SqlText.SqlExactly | src/sql/lexer.c:90-324 | a text gives a statement if and only if it spells it; in particular no unterminated literal or stray character gets through |
| Tables.SpaceTable | src/sql/lexer.c:221-234 | white space is the six characters of the C locale |
| Tables.WordTable | src/sql/lexer.c:29-38 | words are made of letters, digits, underscores and the bytes from 0x80 |
| Tables.SignTable | src/sql/lexer.c:260-324 | the six one-character tokens |
| Tables.QuoteTable | src/storage/storage.c:181-200 | a field is quoted if it holds a quote, a comma or a line end |
| Tables.JsonTables | src/api/query_handler.c:58-171 | the white space, number characters and escapes of the JSON reader and writer, entry by entry |
| Tables.WidthTable | src/common/util.c:66-95 | the blocks of code points that take no column and two columns |
| Json.JsonEscape | src/http/http_response.c:120-176 | the escaped text and its NUL fill the counted allocation exactly |
| Json.ParseJsonString | src/api/query_handler.c:71-129 | the buffer loop equals the string grammar with its six escapes |
| Json.SkipJsonValue | src/api/query_handler.c:136-171 | passes over a string, null, true, false or a run of digits and signs |
| Json.ExtractField | src/api/query_handler.c:199-230 | one key and value; `sql` overwrites the result |
| Json.ExtractSqlField | src/api/query_handler.c:181-248 | the field loop equals the object grammar |
| Json.StringRoundTrip | src/api/query_handler.c:71-129 | parsing a quoted, escaped string returns it and stops exactly at the rest |
| Json.StringExactly | src/api/query_handler.c:71-129 | a string is read if and only if it is a spelling of the text between quotes, each character as itself or by an escape |
| Json.ObjectRoundTrip | src/api/query_handler.c:181-248 | for every object, with any spelling of its texts, any white space and a comma after the last member or none, the extractor gives the verdict on its members |
| Json.VerdictIsLast | src/api/query_handler.c:209-216 | with string values under `sql` the last one is returned |
| Json.VerdictMissing | src/api/query_handler.c:241-246 | without a `sql` member the field is reported missing |
| Json.VerdictMalformed | src/api/query_handler.c:209-216 | the object is refused if and only if some `sql` value is not a string, wherever it stands |
| JsonObjects.ExtractExactly | src/api/query_handler.c:181-248 | a body is accepted if and only if it is such an object and nothing else, with string values under `sql` only, and then the last of them is given |
| Input.RequestExactly | src/api/query_handler.c:181-248 | a request body leads to a statement if and only if it is such an object whose last `sql` text spells that statement |
| Input.ExtractClean | src/api/query_handler.c:71-248 | the SQL text taken from a body without NUL has none |
| Input.LexClean | src/sql/lexer.c:129-257 | no token of a text without NUL holds one |
| Input.RequestClean | src/api/query_handler.c:181-248 | every statement that a request body leads to has values without NUL, which is what execution asks of an INSERT |
| Utf8.Decode | src/common/util.c:22-64 | decoding always advances, by at most four bytes, and never past the terminator |
| Utf8.DecodeIsMasked | src/common/util.c:22-64 | the byte ranges and differences of the model are the masks and shifts of the code, for all byte strings |
| Utf8.DecodeEncoded | src/common/util.c:22-64 | decoding inverts the encoding of section 3 of RFC 3629 for every value of up to 21 bits |
| Utf8.DisplayWidth | src/common/util.c:398-415 | the loop computes the sum of the widths |
| Utf8.WidthAdditive | src/common/util.c:398-415 | the display width of a concatenation is the sum of the widths if and only if no character straddles the seam |
| Utf8.WidthConcat | src/common/util.c:398-415 | in particular wherever the second part does not start with a continuation byte |
| Utf8.WidthSplitsCharacter | src/common/util.c:398-415 | a seam inside a character: one column becomes two |
| Layout.ComputeTableWidths | src/execution/executor.c:402-421 | the width array holds each column's width |
| Layout.ColumnWidthIsMaximum | src/execution/executor.c:402-421 | that is the least bound on the header and all cells |
| Layout.PrintTableBorder | src/execution/executor.c:424-436 | one border line |
| Layout.PrintTableRow | src/execution/executor.c:439-455 | one padded data line |
| Layout.PrintResultTable | src/execution/executor.c:458-496 | border, header, border, rows, border, each on its line |
| Layout.RowAligned | src/execution/executor.c:439-455 | in a data line every column ends at the same display position as in all other lines |
| Layout.BorderAligned | src/execution/executor.c:424-436 | in a border the crossings are at those positions |
| Layout.PaddingNonNegative | src/execution/executor.c:447-450 | no cell is wider than its column |
| Layout.TableAligned | src/execution/executor.c:458-496 | every line of every table has display width 1 + sum(width + 3) |
| Layout.TableShows | src/execution/executor.c:402-496 | every header and every cell is in its line, between the bars of its column and padded with blanks, and starts at the same display position in all lines |
| Layout.TableBorders | src/execution/executor.c:424-496 | the first, third and last line have a plus sign at each column's edge and dashes between |
| Witnesses.LongRowIsSplit | src/storage/storage.c:378-432 | a row of 4096 letters is not found again as one row |
| Witnesses.FullLineIsFound | src/storage/storage.c:378-432 | a row of 4095 letters is |
| Witnesses.LongRowLeavesIndex | src/index/table_index.c:248-274 | an up-to-date index is not up to date after registering that row |
| Witnesses.RaggedDiffers | src/execution/executor.c:683-740 | a file with a row too many fields wide: the index path answers for id 1, the scan refuses |
| Witnesses.SpaceIsLost | src/storage/storage.c:74-173 | a plain field with a leading space comes back without it |
| Witnesses.TwiceNamed | src/execution/executor.c:99-165 | a column named twice passes validation and is refused when the row is built |
| Witnesses.SqlIsNull | src/api/query_handler.c:181-248 | a null under `sql` spoils the object |

## Left out

- Sockets, `recv` and `send`, HTTP header parsing, routing, the console page, command line and benchmark driver: plumbing or single dispatch.
- Schema directory search and meta files: a fixed catalog maps every accepted table name to a schema with at least one column and none called `id`. The schema's CSV header check, which reads the file before the table lock is taken, is not modelled.
- Error texts, their classification by substring, timing and memory release.
- File write failures: appends succeed whole. After a partial append the code does not invalidate the index, so coherence is not claimed there.
- BPlusTrees.BPlusTree.Free: forgets the nodes at once; their recursive release, also from a tree damaged in mid-split, is memory management and not modelled.
- Runs.RunsMatchReference: claimed while no statement on a table follows a registered row of more than 4095 encoded bytes there. After such a row answers do differ: `Runs.InsertsMatchExactly` proves the condition exact for INSERTs.
- EngineRuns.ConcurrentIsReference: claimed under the same condition, for the same reason.
- Durable.InsertedRowIsFound: the row itself must fit the line buffer, since a longer one is read back cut off, and its table must be ready when it is inserted, since otherwise a rebuild counts other rows before it. What happens later is unrestricted.
- EngineDurable.ConcurrentRead: claimed under the same conditions, which concern the rows up to the one looked up.
- EngineRuns.SerialEquivalence: claimed while requests reach the indexes of at most four tables, because a fifth moves the registry array under pointers in use; `EngineStale.SerialExactly` proves the bound exact. The undefined effect of using such a pointer is represented by a refused request and a wrecked index.
- Registries.Registry.GetOrCreate: the sequential class holds references to its entries, so growing the list moves nothing; the array with its capacity and moves is part of the concurrent model. A failed growth of the array itself is not modelled.
- Row counts and ids beyond `INT_MAX`: ids are unbounded integers; only parsing and printing know the range of `int`.
- Failing `pthread` calls, except that a table lock that cannot be initialised counts as a failed allocation (`lockMemory`).
- Engine.LocksKept: the lock list is modelled oldest first while the code links new entries at the front; with one entry per key the order decides nothing.
- Growing buffers (`realloc`) are sequences; the fixed size of the array of selected columns is not modelled, so select lists longer than the schema are treated as if they fitted.
- Lexer.LexString: the end-of-input rule, which looks only at the previous character and therefore accepts some unterminated literals, is modelled as it is; `SqlText.SqlExactly` shows that no such literal gets into a statement.
- Reading the printed table back from the temporary file, which can fail after a SELECT has run, and the SQL length limit and blank check before lexing: they answer with an error and change nothing.
- Token positions in the SQL source and the parser's messages.
- Utf8.Decode: overlong forms and surrogates are accepted as the code does.
- Json.ParseJsonString: `\u` escapes and numbers with a fraction or exponent are refused, as in the code.
- `strtol` and `fgets` are functions; the locale is fixed to ASCII.
- Server.InvKept: requests are handled in one event; handling itself is the engine model's subject.
