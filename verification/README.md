# Verified model of the Cantera Table index engine

This project models, in Dafny, the parts of Cantera Table that decide what a query finds: the sorted table file
and its readers, the merge of tables, the coding of offset/score series, the query evaluator, the loader, the
counting behind correlations, and the thread pool. Code that works in place is modelled in place (arrays with
pointers that advance, classes whose methods update fields); what it promises is proved about it, or about the
specification functions that the methods are tied to.

How the parts fit together:

- **The table file** (`Varint`, `Block`, `Index`, `TableFile`, `Builder`, `Reader`, `WriteOnceTable`,
  `SortingBuilder`, `Summary`). The reader is a class with lazy caches whose validity predicate ties block, caches
  and position to a cursor over the flat list of rows. The main results are `WriteOnceTable.BuildReopenRun` (build,
  reopen and any run of calls behave like that cursor, in both layouts, compressed or not) and
  `WriteOnceTable.OffsetThenSeek` (seeking to a row's address restores it). Compression is any pair of functions
  that are inverse to each other.
- **The merge** (`Heap`, `Merge`). A heap with a hole at the top, whose stale entry can never be compared, because
  its type is then not that of an entry; over it the driver and the grouping callback.
- **The series codec** (`Integers`, `Rle`, `Points`, `Decode`, `OrderedSet`, `Format`, `Encoder`, `Floats`,
  `Series`, `WithPrediction`, `Flexi`, `FlexiRecords`, `Walkers`). `Decode` says what a stream stands for; the encoders
  are shown to produce streams that stand for the series, and the three walkers to agree with `Decode` and with each
  other. Nothing in the repository writes Flexi records any more; `FlexiRecords` describes their layouts from a
  writer's side and proves that each one is read back.
- **The query evaluator** (`OffsetLists`, `ListOps`, `ScoreOps`, `Sorting`, `Query`, `IndexTables`, `Select`). A list
  is described by its runs, the entries of each offset. Every operator but the sample acts on each offset by itself,
  so a query without samples has a meaning that does not mention lists at all (`Query.Denote`), and
  `Query.ProcessSubQuery` computes the only sorted list with it. With samples there is a choice of lists
  (`Query.MayGive`). `IndexTables` joins the evaluator and the codec: what a query finds are the points of the series
  that were written.
- **Correlations** (`Correlate`, `Timestamps`).
- **The loader** (`Lines`, `Loader`, `SeriesMerge`). The state machine fed with characters is shown to agree with
  a reading of the input as lines; the groups it writes are a function of these lines.
- **The thread pool** (`ThreadPool`), as a relation between states: critical sections are single steps, and
  notifications, spurious wakeups and running tasks are steps of their own, in any order.

What the specification functions compute is fixed apart from their definitions: byte order by the first different
byte (`Bytes.LessMeaning`), scores and tests by the reals (`Query.TestedFinds`), what is loaded and merged by the
groups and points themselves (`Loader.Load`, `SeriesMerge.MergeTimeSeries`), and the stored formats by small examples,
byte by byte (`Examples`).

Scores are bits of floats where they are stored, and numbers with two infinities where they are compared. 64-bit
arithmetic wraps around where the code's does.

Where the code does not do what its comments or a first reading suggest, the model follows the code:

- The early flush of the loader (src/ca-load.cc:268-273) writes values under a wrong key when a key is followed by
  a proper prefix of itself; `Lines.GroupingIsRight` gives the exact condition, `Lines.ShrinkingExample` a text for
  which it happens. Sorted input never does this.
- The maximum walker (src/parse.cc:712) reads a Flexi record of one point with a common divisor as if it had no
  steps; `Walkers.OffsetScoreMaxOffset` gives the exact condition for it to accept a stream, and then the largest of
  the last offsets of the records. That is the largest offset if no sum wraps around, and exactly if some record
  ends with it (`Walkers.LargestIsSeen`); `Walkers.WrappedOffsetsExample` is a stream where it is not.
- A single-point record does not keep the sign of zero (`Series.OnlyZerosAreConfused`).
- Seeking to the address behind the last row succeeds and leaves the reader behind the last entry of the last
  block, from where a row must not be read; `WriteOnceTable.OffsetThenSeek` excludes just that position.
- An index lookup gives the series of the last table that has the key, not the union over all tables
  (`Query.LastTableWins`).
- The prefix search does not match the empty parameter in an empty key; that is the only match it misses
  (`Query.ContainsMeaning`).
- Keys of series end at their first zero byte, while summary rows keep all bytes. A group is written under its full
  key exactly when that has no zero byte (`Loader.WrittenWhole`), and sorted input can give two rows of one key
  (`Loader.ZeroByteJoinsKeys`). So the groups of sorted input have each key once (`Lines.SortedGroups`), while the
  written rows are only sure to have each key once when the keys have no zero bytes (`Loader.EachKeyOnce`); when two
  keys meet is said by `Loader.KeysStayApart`.
- The index keeps block sizes in 32 bits (src/table-backend-writeonce.cc:530) and sums them up to its own offset. The
  file is the one that a reader needs exactly when every block takes less than 4 GiB (`Builder.FileIsDescribed`);
  which blocks there are depends on the rows alone (`Builder.Blocks`). `Builder.TwoGigabytesEach` is a row that does
  not fit.
- A pool without threads accepts tasks, never runs those that it queues, and lets callers wait for ever
  (`ThreadPool.WaitNeverReturns`), while a pool with threads that is not shut down always comes to rest
  with everything completed (`ThreadPool.ComesToRest`).
- The version test of the table file (src/table-backend-writeonce.cc:1428) accepts every version, because its two
  halves are joined by "or": all versions from 4 on are treated as 4 (`WriteOnceTable.VersionsAreTwo`).
- The sorting builder adds the sizes of key and value in 32 bits (src/table-backend-writeonce.cc:850) when it reads a
  row back. It builds the stable sort exactly when no sum reaches 4 GiB (`SortingBuilder.WriteOnceSortingBuilder.Build`,
  `SortingBuilder.SumWrapsAround`); `SortingBuilder.NothingIsReadBack` is a row for which it does not.

## Model

| member | source | states |
|---|---|---|
| Varint.ValueEncode | third_party/oroch/oroch/varint.h:76-85 | the loop writes 7-bit groups, lowest first, and is the encoding that the decoder inverts |
| Varint.DecodeEncode | third_party/oroch/oroch/varint.h:87-118 | decoding an encoded value gives the value and the place behind it, whatever bytes surround it |
| Varint.ValueDecode | third_party/oroch/oroch/varint.h:87-118 | the decoding loop computes the value of the integer that starts at the given place, whenever some byte ends it |
| Varint.SpaceIsLength | third_party/oroch/oroch/varint.h:67-74 | the space computed from the number of significant bits is exactly the length of the encoding |
| Varint.SpaceAllIsLength | third_party/oroch/oroch/varint.h:126-135 | the space of a sequence is the length of its encoding |
| Varint.DecodeSequence | src/table-backend-writeonce.cc:366-373 | reading back a list of sizes gives the sizes and stops behind them |
| Bytes.PrefixIsConvex | src/query.cc:315-331 | the keys that start with a prefix are an interval of the key order, so a scan may stop at the first key out of it |
| Bytes.Views | src/table-backend-writeonce.cc:457-483 | cutting concatenated keys or values by their sizes gives the original items |
| Bytes.LessMeaning | src/table-backend-writeonce.cc:671-672 | a key is less exactly when, up to some place, the keys agree and there either the shorter one ends or its byte is the smaller number |
| Bytes.FirstByteDecides | src/merge.cc:48-48 | of two keys that differ at a byte and agree before it, the one with the smaller byte comes first |
| Bytes.OrderExample | src/table-backend-writeonce.cc:671-672 | "a" comes before "b", a key before its extensions, and bytes are compared unsigned |
| Table.LowerBound | src/table-backend-writeonce.cc:440-444 | the search on sorted keys returns the place of the first key that is not less than the one looked for |
| Table.SkipIsReading | src/table-backend-writeonce.cc:1029-1054 | skipping n rows succeeds and moves exactly when n single reads would all give a row, and otherwise ends behind the last row |
| Table.FoundIffPresent | src/ca-table.h:263-271 | a key is found exactly when some row has it, and the cursor is then at the first row that is not before the key |
| Table.SortedMeaning | src/table-backend-writeonce.cc:670-672 | rows are sorted exactly when each key equals the next one or precedes it by its first different byte |
| Block.EstimateIsExact | src/table-backend-writeonce.cc:297-302 | the size that decides when a block is closed is the exact marshalled size, in both layouts |
| Block.WriteOnceBlock.Add | src/table-backend-writeonce.cc:318-323 | adding a row appends it to the rows that the block stands for; its fields tell of them exactly when key and value have sizes of 32 bits |
| Block.WriteOnceBlock.Marshal | src/table-backend-writeonce.cc:332-360 | the bytes of the columnar or of the interleaved layout of the rows |
| Block.WriteOnceBlock.Unmarshal | src/table-backend-writeonce.cc:362-397 | reading a marshalled block back gives the same rows in both layouts |
| Block.WriteOnceBlock.GetEntryOffset | src/table-backend-writeonce.cc:399-408 | the offset of an entry is the sum of the sizes of the entries before it |
| Block.WriteOnceBlock.GetEntryNumber | src/table-backend-writeonce.cc:411-419 | finds the entry that begins at an offset, or the first one behind it |
| Block.EntryAt | src/table-backend-writeonce.cc:346-358 | the code of entry i lies in the interleaved block at its entry offset |
| Block.EntryOffsetMonotone | src/table-backend-writeonce.cc:399-408 | entry offsets increase strictly |
| Block.BlockCache.FindEntryByKey | src/table-backend-writeonce.cc:440-444 | the search in the lazily filled key cache finds the first entry of the block that is not before the key |
| Block.BlockCache.GetKey | src/table-backend-writeonce.cc:446-449 | the key cache, filled on first use, gives the key of the entry in the block that is loaded |
| Block.BlockCache.GetValue | src/table-backend-writeonce.cc:451-454 | the value cache gives the value of the entry in the block that is loaded |
| Index.WriteOnceIndex.Add | src/table-backend-writeonce.cc:530-536 | a block is recorded by its size in 32 bits, its number of rows and its last key |
| Index.WriteOnceIndex.Marshal | src/table-backend-writeonce.cc:538-554 | the bytes of the index: number of blocks, sizes, row counts, key sizes, keys |
| Index.WriteOnceIndex.Unmarshal | src/table-backend-writeonce.cc:556-585 | reading the index back gives the same sizes, counts and keys |
| Index.IndexCache.FindBlockByKey | src/table-backend-writeonce.cc:595-599 | finds the first block whose last key is not before the key |
| Index.IndexCache.GetBlockOffset | src/table-backend-writeonce.cc:601-605 | the offset of a block is the header size plus the sizes of the blocks before it |
| TableFile.HeaderRoundTrip | src/table-backend-writeonce.cc:728-743 | the header that is written is the header that is read |
| TableFile.TwoLevelLowerBound | src/table-backend-writeonce.cc:1019-1027 | the lower bound among the last keys and then within that block is the lower bound among all rows, also when equal keys span blocks |
| TableFile.BeyondLastBlock | src/table-backend-writeonce.cc:1019-1027 | when every last key is before the key, so is every row |
| TableFile.LastKeysAreSorted | src/table-backend-writeonce.cc:530-536 | the index of a sorted table is sorted by last keys |
| Builder.WriteOnceBuilder.constructor | src/table-backend-writeonce.cc:641-658 | a new builder holds no rows |
| Builder.WriteOnceBuilder.Add | src/table-backend-writeonce.cc:670-683 | a row is accepted exactly when its key is the last one, extends it, or is greater in the first byte where they differ, and is appended, the block before it being closed where the cut demands it; the builder stays valid exactly when key and value have sizes of 32 bits |
| Builder.BlocksAreCut | src/table-backend-writeonce.cc:674-682 | cutting loses and reorders nothing, leaves no block empty, closes none but the last before 12K, and none later than its limits say |
| Builder.WriteOnceBuilder.WriteBlock | src/table-backend-writeonce.cc:745-756 | closing a block appends its rows to the blocks written and records its size, count and last key |
| Builder.WriteOnceBuilder.WriteIndex | src/table-backend-writeonce.cc:758-772 | the index goes behind the blocks, and the header in front gets its offset |
| Builder.WriteOnceBuilder.Build | src/table-backend-writeonce.cc:685-690 | the finished file is the one laid out from the cut of the rows added, with block sizes and index offset as 32-bit sizes make them; nothing is committed for no rows |
| Builder.FileIsDescribed | src/table-backend-writeonce.cc:530-536 | the file is the one whose index describes it exactly when every block is stored in less than 4 GiB; otherwise the header points before the index |
| Builder.FittingRows | src/table-backend-writeonce.cc:530-536 | rows of at most 0xFE00_0000 bytes can never make a block that is too wide, in any format |
| Builder.OneRowFits | src/table-backend-writeonce.cc:530-536 | a table of one uncompressed row fits exactly when the code of the row is below 4 GiB |
| Builder.TwoGigabytesEach | src/table-backend-writeonce.cc:530-536 | a key and a value of 2 GiB each pass all checks on rows and sizes and do not fit, if the system takes the block in one write |
| Builder.CutMeaning | src/table-backend-writeonce.cc:674-682 | before a row the open block is closed exactly at more than 32768 bytes, or at more than 12288 when the row takes more than 32764 |
| Reader.SeekableBlocks | src/table-backend-writeonce.cc:346-358 | the blocks of a seekable file laid end to end are the interleaved layout of the flat list of rows, wherever it was cut |
| Reader.WriteOnceReader.constructor | src/table-backend-writeonce.cc:999-1010 | a reader opened on a finished file stands at the first row of the flat list |
| Reader.WriteOnceReader.ReadBlock | src/table-backend-writeonce.cc:1133-1144 | loading a block makes block, caches and the number of the loaded block agree |
| Reader.WriteOnceReader.SeekToFirst | src/table-backend-writeonce.cc:1014-1017 | moves to the first row |
| Reader.WriteOnceReader.SeekToKey | src/table-backend-writeonce.cc:1019-1027 | lands on the first row of the whole table that is not before the key, and answers whether it has the key |
| Reader.WriteOnceReader.Skip | src/table-backend-writeonce.cc:1029-1054 | moves on by a number of rows across blocks, or to the end when there are fewer |
| Reader.WriteOnceReader.ReadRow | src/table-backend-writeonce.cc:1056-1075 | gives the row at the position and moves on by one, or nothing at the end |
| Reader.WriteOnceReader.LoadCurrent | src/table-backend-writeonce.cc:1056-1062 | afterwards the loaded block holds the row at the position, if there is one |
| Reader.WriteOnceReader.Step | src/table-backend-writeonce.cc:1014-1075 | any one call does what the cursor over the flat list does, and caches stay in agreement |
| Reader.WriteOnceReader.Run | src/table-backend-writeonce.cc:1014-1075 | any run of calls gives the answers of the cursor over the flat list |
| Reader.WriteOnceReader.Offset | src/table-backend-writeonce.cc:1077-1086 | the address of the position: what the rows before it take in the seekable layout |
| Reader.WriteOnceReader.Seek | src/table-backend-writeonce.cc:1088-1124 | finds the block and the entry of an address; refuses addresses behind the end of the rows |
| WriteOnceTable.FinishedFileOpens | src/table-backend-writeonce.cc:1422-1450 | opening a finished file recovers its format and index offset, and fails exactly when a seekable table is asked for and the file is not |
| WriteOnceTable.VersionsAreTwo | src/table-backend-writeonce.cc:1422-1450 | every version from 4 on is treated as version 4, and every one before it as the old format |
| WriteOnceTable.OpenTable | src/table-backend-writeonce.cc:1422-1450 | opening gives a reader at the start of the rows that the file was built from |
| WriteOnceTable.WriteTable | src/table-backend-writeonce.cc:670-690 | exactly the non-empty lists can be written in which each key equals the next one or precedes it by its first different byte, and the file is that of the cut of the rows |
| WriteOnceTable.RepresentableHolds | src/table-backend-writeonce.cc:530-536 | the written file is the one that a reader needs exactly when all block sizes fit 32 bits |
| WriteOnceTable.BuildReopenRun | src/table-backend-writeonce.cc:999-1075 | building, reopening and running any calls gives the same answers as a cursor over the rows, in every format |
| WriteOnceTable.OffsetsIncrease | src/table-backend-writeonce.cc:1077-1086 | addresses increase strictly with the row position |
| WriteOnceTable.SeekFindsRow | src/table-backend-writeonce.cc:1088-1124 | the block and entry found for the address of a row are those of the row |
| WriteOnceTable.OffsetThenSeek | src/table-backend-writeonce.cc:1077-1124 | seeking to the address of the position restores the position, and the same block and entry, unless it is the end; at the end the reader is left behind the last entry |
| WriteOnceTable.SeekRestores | src/table-backend-writeonce.cc:1088-1124 | a block and entry before the end are determined by their address |
| SortingBuilder.PrefixesDecide | src/table-backend-writeonce.cc:902-919 | when prefixes of two keys differ, they order the keys |
| SortingBuilder.WriteOnceSortingBuilder.Add | src/table-backend-writeonce.cc:839-842 | a row is appended in any order; exactly empty keys and values, and those whose size needs more than 32 bits, are refused, the latter without a change |
| SortingBuilder.WriteOnceSortingBuilder.AddEntry | src/table-backend-writeonce.cc:870-886 | the entry records where the row begins and the first bytes of its key |
| SortingBuilder.WriteOnceSortingBuilder.Compare | src/table-backend-writeonce.cc:902-919 | comparing prefixes, and whole keys only when they agree, decides by the first different byte, or by the length when one key begins with the other |
| SortingBuilder.SumWrapsAround | src/table-backend-writeonce.cc:849-850 | the sizes of a row's key and value, added in 32 bits, are their sum exactly when that is below 4 GiB; otherwise what is read back is shorter than the key alone |
| SortingBuilder.NothingIsReadBack | src/table-backend-writeonce.cc:849-850 | a key and a value of 2 GiB each are let in, and nothing is read back |
| SortingBuilder.WriteOnceSortingBuilder.ReadEntry | src/table-backend-writeonce.cc:849-855 | an entry leads back to its own key and value exactly when their sizes can be added in 32 bits |
| SortingBuilder.WriteOnceSortingBuilder.SortEntries | src/table-backend-writeonce.cc:921-937 | the entries end up in the order of the stable sort of the rows |
| SortingBuilder.WriteOnceSortingBuilder.Build | src/table-backend-writeonce.cc:844-861 | all rows are read back exactly when the sizes of each can be added in 32 bits; then the finished table holds the stable sort by key of the rows that were added |
| SortingBuilder.StableSortSorts | src/table-backend-writeonce.cc:921-937 | sorting gives sorted rows, the rows of each key in their own order |
| SortingBuilder.StableSortIsUnique | src/table-backend-writeonce.cc:921-937 | there is only one such list |
| SortingBuilder.PrefixMeaning | src/table-backend-writeonce.cc:867-867 | the prefix is the first 24 bytes of the key, or all of them |
| Summary.FindTable | src/query.cc:809-813 | the downward scan stops at the last table whose base is not above the address, or at the first table |
| Summary.ScanFindsTable | src/select.cc:66-70 | for the address of any row of any table the scan finds that table, when tables do not overlap |
| Summary.ReadAddress | src/select.cc:66-78 | resolving an address, seeking the remainder and reading gives exactly the row with that address |
| Summary.KeyToAddress | src/query.cc:392-400 | a key maps to the shifted address of its first row in the table, if it has one |
| Summary.KeyRoundTrip | src/query.cc:392-400 | the address of a key leads back to a row with that key |
| Summary.LookupSummaries | src/query.cc:392-400 | looking a key up through the readers of all summary tables gives the address that the query evaluator is specified with |
| Summary.ReadKey | src/query.cc:392-400 | the address of a key, read back through all tables, is the first row with the key in the first table that has it; nothing is found only if no table has it |
| Heap.RootIsLeast | src/merge.cc:39-58 | the root of a heap is least |
| Heap.Push | src/merge.cc:39-58 | adding an entry keeps the heap and adds just that entry |
| Heap.ReplaceTop | src/merge.cc:60-98 | replacing the top by moving a hole to a leaf and up again gives a heap with the old entries, the top exchanged; the stale top is never compared |
| Heap.Pop | src/merge.cc:100-140 | removing the top gives a heap with the remaining entries, and the climb guarded by a positive index alone stays within the array |
| Heap.TailStep | src/merge.cc:126-137 | the climb of the tail compares live entries within the array only, and goes on only to a parent that is not the root |
| Merge.TopIsNext | src/merge.cc:161-166 | the top of the heap is the next row of its table, and no table has a smaller next row |
| Merge.WaitingAfter | src/merge.cc:168-175 | after reading on, the heap holds the next row of every table that has one |
| Merge.FillHeap | src/merge.cc:149-159 | at the start the heap holds the first row of every table that has one |
| Merge.ReadAndRestore | src/merge.cc:168-175 | reading on in the table of the top restores the heap, and fewer rows are left |
| Merge.MergeTables | src/merge.cc:142-179 | rows are called back so that each key equals the next one or precedes it by its first different byte, those of each table in their order, until all are read or the callback stops the merge |
| Merge.CompleteIsAllRows | src/merge.cc:142-179 | a merge that was not stopped has called back exactly the rows of all tables |
| Merge.GroupingCallback.Call | src/merge.cc:188-208 | collects the values of equal keys and hands over a group when the key changes |
| Merge.GroupsOfSorted | src/merge.cc:181-215 | grouping sorted rows gives each key once, in increasing order, with all of its values in order |
| Merge.MergeGrouped | src/merge.cc:181-215 | the grouped merge gives each key of all tables once, in increasing order, with all its values |
| Integers.FormatInteger | src/format.cc:270-285 | the ten guarded writes give the base-128 form, highest group first, of every 64-bit integer |
| Integers.ParseInteger | src/parse.cc:61-77 | the loop computes the integer in 64 bits and the place behind it, or finds that the data ends too early |
| Integers.ParseFormat | src/parse.cc:61-77 | parsing a formatted integer gives it back, whatever surrounds it |
| Integers.FormatLength | src/format.cc:270-285 | no 64-bit integer takes more than ten bytes |
| Integers.WidthOfRange | src/parse.cc:116-122 | a width that is stored as an upper end in 64 bits is recovered |
| Integers.OneMore | src/parse.cc:716-717 | the closed form of equal steps agrees with adding them one by one, modulo 2 to the 64 |
| Rle.RleWriter.Put | src/rle.c:40-56 | the output always stands for all bytes put but for the current run, and is at most twice as long |
| Rle.RleWriter.Flush | src/rle.c:13-38 | after a flush the output stands for everything that was put |
| Rle.ExpandAppend | src/rle.c:13-56 | codes can be laid end to end |
| Rle.ReadExpanded | src/parse.cc:47-57 | reading as many bytes as a code stands for gives these bytes and ends behind the code with no run left |
| Rle.RleReader.ReadRleByte | src/parse.cc:47-57 | one read continues the run, or starts a run or a literal; nothing is given when the data ends inside a code |
| Points.ParseFormatAll | src/parse.cc:433-445 | parsing a row of formatted integers gives them back |
| Points.MaskBits | src/format.cc:220-227 | bit i of the mask says whether point i has percentiles |
| Format.SumsOfDeltas | src/parse.cc:421-430 | the running sums of the stored differences are the dictionary |
| Format.AccumulateSteps | src/parse.cc:433-445 | adding up the steps from the first offset gives the offsets |
| Format.StepsRoundTrip | src/parse.cc:417-445 | the steps are read back, with or without a dictionary |
| Format.DictionaryRoundTrip | src/parse.cc:418-439 | keys into a stored dictionary lead back to the steps |
| Format.PointRoundTrip | src/parse.cc:457-473 | a stored point is read back with its percentiles exactly when all four are finite |
| Format.ScoresRoundTrip | src/parse.cc:457-473 | all stored scores are read back |
| Format.MaskRoundTrip | src/parse.cc:450-455 | the mask is read back and its last run ends with it |
| Format.WithPredictionRoundTrip | src/parse.cc:402-474 | a with-prediction record is read back bit by bit, in any surroundings: same offsets and scores, percentiles where all four are finite |
| OrderedSet.Insert | src/format.cc:181-186 | inserting keeps the list increasing and adds the element |
| Encoder.CollectSteps | src/format.cc:181-186 | fails exactly when some offset is below the one before it, and otherwise gives the set of steps in increasing order |
| Encoder.WriteDictionary | src/format.cc:198-203 | writes the differences of the dictionary and numbers each step by its place |
| Encoder.KeysLookUp | src/format.cc:198-211 | the places of the steps in the dictionary lead back to the steps |
| Encoder.WriteKeys | src/format.cc:209-211 | every step is written as the place of that step in the dictionary |
| Encoder.WriteSteps | src/format.cc:212-215 | every step is written itself |
| Encoder.WriteStepPart | src/format.cc:192-215 | a dictionary of all steps is used exactly when it has fewer than 256 steps and fewer than a quarter of the points |
| Encoder.MakeMask | src/format.cc:217-227 | the mask of the points whose four percentiles are finite |
| Encoder.WriteMask | src/format.cc:229-232 | a code that stands for the mask and is at most twice as long |
| Encoder.WriteScores | src/format.cc:234-242 | the scores, with percentiles where the mask says so |
| Encoder.EncodeWithPrediction | src/format.cc:171-243 | encodes every series that is sorted by offset, and no other, in a form that fits the series |
| Encoder.RecordFits | src/format.cc:287-290 | a record never takes more than 32 bytes and 32 for every point |
| Floats.IntegerValueIsExact | src/format.cc:52-53 | a float passes the rounding test with integer n exactly when it is the number n, by the definition of IEEE 754 |
| Floats.IntegerDeterminesFloat | src/format.cc:52-53 | floats that hold the same integer are the same, or the two zeros |
| Series.EncodeSingle | src/format.cc:41-104 | a point is written with one, two or three bytes for a small integer or its complement, and with the float otherwise |
| Series.SingleRoundTrip | src/parse.cc:562-617 | a single-point record decodes to the offset and the number |
| Series.ShownIsExact | src/format.cc:50-73 | the decoded score is the number that the float is |
| Series.OnlyZerosAreConfused | src/format.cc:50-73 | two floats decode to the same score exactly when they are equal or both zero: only the sign of zero is lost |
| Series.FormatOffsetScore | src/format.cc:292-318 | what is written decodes to what is kept of the series and fits the reserved space; fails exactly for unsorted series with percentiles |
| Series.StreamOfRecords | src/parse.cc:538-627 | the concatenation of encodings decodes to the concatenation of the series |
| Series.TwoRecords | src/parse.cc:538-627 | two encodings side by side decode to one series behind the other |
| WithPrediction.ReadDictionary | src/parse.cc:421-430 | the dictionary is the running sums of the stored differences |
| WithPrediction.ReadOffsets | src/parse.cc:433-445 | the parser's offsets are the first one and the running sums of the decoded steps |
| WithPrediction.SumOffsets | src/parse.cc:509-517 | the maximum walker's running sum is the last of these offsets |
| WithPrediction.ReadMask | src/parse.cc:447-455 | the mask is accepted exactly when its last run ends with it |
| WithPrediction.ReadScores | src/parse.cc:457-473 | the points with percentiles where the mask says so |
| WithPrediction.ParseWithPrediction | src/parse.cc:402-474 | the parser accepts and returns what the record stands for |
| WithPrediction.GetMaxOffsetWithPrediction | src/parse.cc:485-536 | on every record that the parser accepts, the walker gives the last offset and stops at the same place, and refuses records without points |
| Flexi.NibbleSteps | src/parse.cc:122-139 | two four-bit steps are taken from each byte, the low half first |
| Flexi.ByteSteps | src/parse.cc:140-148 | one step is taken from each byte |
| Flexi.IntegerSteps | src/parse.cc:149-153 | steps wider than a byte are integers |
| Flexi.ReadFlexiOffsets | src/parse.cc:113-154 | the offsets for each of the ways steps are stored |
| Flexi.ReadFlexiScores | src/parse.cc:156-193 | the stored scores, or one score for all points, as FlexiRecords.ScoresRead reads them back |
| Flexi.ParseFlexi | src/parse.cc:89-194 | the parser accepts and returns what the record stands for; for written records that is given by FlexiRecords.FlexiRoundTrip |
| Flexi.CountFlexi | src/parse.cc:196-264 | on every record that the parser accepts, the counter gives the number of points and stops at the same place |
| Flexi.EqualStepsSum | src/parse.cc:716-717 | the closed form gives the last offset of equal steps |
| Flexi.SumNibbles | src/parse.cc:718-733 | the walker's sum over four-bit steps is the last parsed offset |
| Flexi.SumFlexiOffsets | src/parse.cc:712-747 | the walker's sum is the last parsed offset for each of the ways steps are stored |
| Flexi.GetMaxOffsetFlexi | src/parse.cc:704-774 | on every record that the parser accepts, the walker gives the last offset exactly when the place where it stops is the end of the data |
| FlexiRecords.StepsRead | src/parse.cc:113-154 | in each of the four ways of storing steps, the steps that were written are read back |
| FlexiRecords.ScoresRead | src/parse.cc:156-193 | in each of the four kinds of scores, one for all points or one for each, the scores that were written are read back |
| FlexiRecords.FlexiRoundTrip | src/parse.cc:89-194 | a record written with any steps and any scores from the least one on decodes to exactly these offsets and scores, whatever surrounds it |
| FlexiRecords.FlexiStream | src/parse.cc:538-627 | such a record is a stream of its own |
| FlexiRecords.ScoreWraps | src/parse.cc:170-193 | an integer score is the least score plus the stored bytes, highest first, modulo 2 to the 32 |
| FlexiRecords.HalfByteExample | src/parse.cc:113-194 | three points with steps of half a byte and one score for all, byte by byte |
| FlexiRecords.LeastScoreExample | src/parse.cc:156-180 | one point with the least score 100 and the stored byte 7 has the score 107 |
| Walkers.ParseSingle | src/parse.cc:562-617 | the parser returns the offset and score of a single-point record |
| Walkers.OffsetScoreParse | src/parse.cc:538-627 | the parser accepts and returns what the stream stands for; for written series that is given by Series.StreamOfRecords and FlexiRecords.FlexiStream |
| Walkers.OffsetScoreCount | src/parse.cc:629-690 | on every stream that the parser accepts, the count is the number of points |
| Walkers.OverlookedEndsEarlier | src/parse.cc:704-774 | reading a one-point Flexi record without its steps never ends behind the record, so a walker that ends with the data has seen the last record |
| Walkers.OffsetScoreMaxOffset | src/parse.cc:692-818 | on every stream that the parser accepts: the largest last offset, or a failure exactly for empty with-prediction records and Flexi records whose reading does not end with the data |
| Walkers.LargestLastIsLargest | src/parse.cc:692-818 | the largest last offset is at most the largest parsed offset, and equal to it when no sum wraps around |
| Walkers.LargestIsSeen | src/parse.cc:692-818 | it is equal exactly when some record ends with the largest parsed offset, or that is 0 |
| Walkers.WrappedOffsetsExample | src/parse.cc:692-818 | an accepted record of two points at 5 and, after wrapping around, 3, for which the walker gives 3 |
| Walkers.OverlookedStepsExample | src/parse.cc:712-773 | a Flexi record with one point and a common divisor that the parser accepts and the maximum walker refuses |
| Walkers.MaxOfWritten | src/parse.cc:692-818 | on concatenated encodings the maximum walker gives the largest offset of all series |
| OffsetLists.RunsDetermine | src/query.cc:389-615 | a sorted list is determined by the entries it has for each offset |
| OffsetLists.BelowMeaning | src/query.cc:462-466 | the order of scores is that of the reals, between the two infinities |
| ListOps.UnionRuns | src/query.cc:68-94 | the union has for each offset the right entries and the left ones beyond their number: the larger multiplicity |
| ListOps.UnionOffsets | src/query.cc:68-94 | the merge loop gives the sorted union |
| ListOps.IntersectionRuns | src/query.cc:96-125 | the intersection has for each offset all left entries if the right side has the offset, and none otherwise |
| ListOps.IntersectOffsets | src/query.cc:96-125 | the loop over the left operand's own storage gives the sorted intersection; writing never overtakes reading |
| ListOps.DifferenceRuns | src/query.cc:353-387 | the difference has for each offset all left entries unless the right side has the offset |
| ListOps.SubtractOffsets | src/query.cc:353-387 | the loop over the left operand's own storage gives the sorted difference |
| ScoreOps.FilterRuns | src/query.cc:446-452 | filtering by score keeps the order and filters the entries of each offset |
| ScoreOps.Join | src/query.cc:171-196 | the in-place join compares the entries of each offset one by one and keeps the left ones that pass |
| ScoreOps.OrderBy | src/query.cc:517-540 | each left entry takes the score of the right entry it meets, and minus infinity where there is none |
| ScoreOps.RemoveDuplicates | src/query.cc:137-156 | one entry for each offset, in strictly increasing order, the first one with the best score |
| ScoreOps.KeepExtreme | src/query.cc:572-600 | the loops of MAX and MIN leave one entry for each offset with the best score |
| ScoreOps.BestIsBest | src/query.cc:137-156 | the best score is one of the scores of the offset and none is better |
| ScoreOps.PassesMeaning | src/query.cc:446-511 | which scores each of the six tests lets pass, over reals |
| ScoreOps.PassesInfinity | src/query.cc:446-511 | and for the infinities |
| ScoreOps.FilterTakes | src/query.cc:446-452 | filtering takes exactly the entries whose scores pass, in their order |
| ScoreOps.JoinTakes | src/query.cc:171-196 | the join takes exactly the left entries that have a partner at the same place with a smaller, or greater, score as a real number |
| ScoreOps.CollapseMeaning | src/query.cc:572-600 | MAX and MIN give the greatest and the least of finite scores |
| Sorting.SortSorts | src/ca-load.cc:217-219 | sorting by offset gives a sorted permutation |
| Sorting.RandomSample | src/query.cc:543-561 | a list that is not larger than the sample stays as it is; otherwise exactly the wanted number of its entries is left, sorted again, whatever the generator draws |
| Query.FirstTableWins | src/query.cc:392-400 | the address found is that of the first row with the key in the first summary table that has the key |
| Query.NoSummaryHasKey | src/query.cc:392-400 | and none when no summary table has it |
| Query.LookupKey | src/query.cc:392-400 | the loop over the summary tables stops at the first that has the key |
| Query.LookupExact | src/query.cc:200-217 | each index table that has the key replaces the result of the tables before it |
| Query.LastTableWins | src/query.cc:200-217 | the lookup gives the series of the first row with the key in the last index table that has the key |
| Query.NoTableHasKey | src/query.cc:200-217 | and nothing when no table has it |
| Query.ContainsMeaning | src/query.cc:331-336 | a key matches exactly when the parameter occurs in it, but for the empty parameter in the empty key |
| Query.Search | src/query.cc:331-336 | the case-insensitive search finds the first match before the end of the text |
| Query.ScanTable | src/query.cc:316-342 | scanning from the first key in range to the first key out of range finds what filtering all rows would |
| Query.LookupScan | src/query.cc:303-347 | the prefix lookup gives exactly the offsets that filtering every row of every table would give, once each, in order |
| Query.ProcessSubQuery | src/query.cc:389-615 | evaluating any query, with its shortcuts for empty left sides and its updates in place, gives a sorted list that the query may give, whatever the generator of its samples draws; without samples the entries for each offset are what the query denotes there |
| Query.ExactQueriesMean | src/query.cc:389-615 | a query without samples may give only the sorted list that it denotes |
| Query.MeaningIsUnique | src/query.cc:389-615 | there is only one such list |
| Query.ProcessQuery | src/query.cc:617-621 | strictly increasing offsets, one for each offset of what the query may give, with its best score; without samples, one for each offset that the query matches |
| Query.BooleanQueries | src/query.cc:413-444 | OR, AND and AND NOT denote union, intersection and difference of sets of offsets |
| Query.TestedFinds | src/query.cc:446-511 | a query with a test takes the entries with equal, greater, not smaller, smaller, not greater, or enclosed scores, as real numbers and in their order |
| Query.ComparedFinds | src/query.cc:455-462 | a comparison of two queries takes the left entries whose scores are greater, or smaller, than those at the same place on the right |
| Query.OrderedFinds | src/query.cc:517-540 | ordering puts the right scores on the left entries, and minus infinity where there are none |
| Query.ExtremeFinds | src/query.cc:572-600 | MAX and MIN leave one entry with the greatest, or least, of the finite scores |
| Query.NegateFinds | src/query.cc:602-604 | negation turns the sign of every finite score and exchanges the infinities |
| Query.OrFinds | src/query.cc:413-421 | OR takes the right entries of each offset, and the left ones beyond their number |
| Query.AndFinds | src/query.cc:422-444 | AND and AND NOT take all left entries of an offset or none, as the right side has the offset or not |
| Query.LettersMatch | src/query.cc:331-336 | letters match without regard to case, and every other byte only itself |
| IndexTables.ParsesBack | src/parse.cc:538-627 | the value of a row that holds a written series is parsed to the entries of the series |
| IndexTables.StoredIsSorted | src/format.cc:292-318 | what the writer keeps of a sorted series is sorted |
| IndexTables.IndexedIsReadable | src/query.cc:200-217 | index tables of written sorted series can be queried |
| IndexTables.WrittenIsFound | src/query.cc:200-217 | a key's query finds, at each offset, the points of the series that was written for the key in the last table that has the key |
| IndexTables.ScanFindsWritten | src/query.cc:303-347 | a scan finds an offset exactly when a matching key has a written point there |
| IndexTables.EntryMeaning | src/parse.cc:457-473 | offset and score are carried over, and the percentiles in their order exactly when all four are finite |
| Correlate.LowerBound | src/correlate.cc:27-46 | the halving search returns the first place whose offset is not less than the one looked for |
| Correlate.CountRange | src/correlate.cc:95-128 | of the distinct offsets with some score in the range, the exact numbers in A, in B and in either, although both searches narrow and duplicates are skipped |
| Correlate.Classify | src/correlate.cc:242-264 | the classes give the same counts and scores as the keys that are in A or in B |
| Correlate.SortKeeps | src/correlate.cc:268-268 | sorting the classes changes no count |
| Correlate.Aggregate | src/correlate.cc:280-293 | one entry for each score in increasing order, with the counts up to that score |
| Correlate.CountByScore | src/correlate.cc:242-293 | for every score of a key in A or B, in increasing order: how many keys with no higher score are in A, in B and in either |
| Correlate.InRangeMeaning | src/correlate.cc:95-128 | the offsets counted are those of the list for which some key has a score from the lower to the upper bound, over reals |
| Correlate.CountInMeaning | src/correlate.cc:242-293 | the counts by score are the numbers of keys with an offset in the list and no higher score, over reals |
| Timestamps.LeastOfRun | src/correlate.cc:412-418 | the least score of the entries of one offset, and the place behind them |
| Timestamps.LeastIsLeast | src/correlate.cc:412-418 | the least score is one of the run and none is below it |
| Timestamps.FilterByTimestamp | src/correlate.cc:397-457 | for each offset the first key is kept, with the time to the first event, exactly when it is before all matching events of A, or else of B; keys in neither set are dropped; Timestamps.TimedMeaning says the same over reals |
| Timestamps.SubtractionMakesDisjoint | src/correlate.cc:493-494 | after A has been subtracted from B no offset is in both |
| Timestamps.TimedMeaning | src/correlate.cc:412-418 | a key with a finite time stays exactly when that is less than the least time of the events, and is left with the difference; keys and events at infinity apart |
| Select.JoinField | src/select.cc:39-60 | each selected offset gets the field's first score there, one when the field has no scores, and nothing when the field does not have the offset |
| Select.FieldMeaning | src/select.cc:39-60 | a field's value at an offset is its first score there, or one when all its scores are zero |
| Select.NoField | src/select.cc:39-60 | and nothing when it does not have the offset |
| Lines.Escape | src/format.cc:247-268 | the loop writes the escaped text |
| Lines.TokensOfEscaped | src/ca-load.cc:238-256 | unescaping an escaped text gives the text, with every structuring character marked as escaped |
| Lines.EscapeRoundTrip | src/ca-load.cc:233-336 | reading back escaped rows gives exactly those rows, for all byte strings |
| Lines.RightSoFar | src/ca-load.cc:268-273 | as long as no key with values is followed by a proper prefix of itself, all values are under their own keys |
| Lines.WrongForGood | src/ca-load.cc:268-273 | after it has happened once, some value is or will be written under a wrong key |
| Lines.GroupingIsRight | src/ca-load.cc:257-278 | every value is written under the key of its line exactly when no key with values is followed by a proper prefix of itself |
| Lines.ReadLine | src/ca-load.cc:257-390 | a line of three fields adds exactly these fields, the value without its unescaped carriage returns |
| Lines.ShrinkingExample | src/ca-load.cc:268-273 | a text of two lines, keys "ab" and "a", whose values are both written under "a" |
| Lines.SortedDoesNotShrink | src/ca-load.cc:257-278 | sorted input meets that condition |
| Lines.SortedGroups | src/ca-load.cc:257-278 | for sorted input the groups have each key with values once, in increasing order, with all of its values |
| Lines.EscapesAre | src/format.cc:247-268 | the four characters that are escaped, how, and how each character behind a backslash is read |
| Lines.CarriageReturn | src/ca-load.cc:327-330 | a line that ends in a carriage return and a line feed reads as one that ends in a line feed |
| Loader.FlushSeries | src/ca-load.cc:181-223 | a row is made exactly when the key passes the filters and some score reaches the threshold, as numbers; it has the key with prefixes exchanged up to the first zero byte, and an offset-sorted permutation of just the values that reach it |
| Loader.WrittenWhole | src/ca-load.cc:201-215 | a group is written under its full key, with prefixes stripped and added, exactly when that has no zero byte, and otherwise under what comes before the first one |
| Loader.KeysStayApart | src/ca-load.cc:201-215 | a key without zero bytes is written as another one exactly when it is what comes before the first zero byte of that |
| Loader.ZeroByteJoinsKeys | src/ca-load.cc:201-215 | two different keys in order that are written as one |
| Loader.EachKeyOnce | src/ca-load.cc:181-223 | when the keys of groups ascend and have no zero bytes, every row is written under the full key of a group and no key twice |
| Loader.Loader.AddOffsetScore | src/ca-load.cc:166-179 | the values up to the recorded place are in strictly increasing order of offset |
| Loader.Loader.FlushValues | src/ca-load.cc:225-231 | hands over all collected values as one group and starts again with none |
| Loader.Loader.InKey | src/ca-load.cc:257-278 | the character rule, a different character or one behind the end of the old key, flushes exactly when the new key stops being a prefix of the old one |
| Loader.Loader.InOffset | src/ca-load.cc:280-325 | an offset field gives an offset, marks the line as unmatched, or ends the load |
| Loader.Loader.InValue | src/ca-load.cc:327-390 | the end of a line adds its value, or inserts its row in summary mode |
| Loader.Loader.ParseData | src/ca-load.cc:233-390 | after any chunk the state is that of the whole input so far, however it was cut |
| Loader.Loader.Finish | src/ca-load.cc:960-960 | the final flush writes what is left |
| Loader.Load | src/ca-load.cc:892-960 | for whole lines in chunks of any size: the load fails exactly when a line or a group does, and otherwise the rows are, in order, those of the groups whose key passes the filters and of which some score reaches the threshold; with no filter and no threshold there is one row for each group, with all its values |
| Loader.LoadSummaries | src/ca-load.cc:233-336 | loading an escaped dump of rows, cut anywhere, inserts exactly those rows |
| Loader.CStringMeaning | src/ca-load.cc:201-215 | a key is written up to its first zero byte |
| Loader.RowsMeaning | src/ca-load.cc:181-223 | the rows written are, in order, those of exactly the groups whose key passes the filters and of which some score reaches the threshold |
| Loader.EveryGroupIsWritten | src/ca-load.cc:183-187 | without shards, key filter and threshold every group is written, with all its values |
| Loader.FailureMeaning | src/ca-load.cc:201-207 | a group fails exactly when it would be written and does not begin with the prefix that is to be stripped |
| Loader.LineFailureMeaning | src/ca-load.cc:280-390 | a line fails exactly when its offset is junk, or is known and its value cannot be read |
| SeriesMerge.Front | src/ca-load.cc:448-465 | the next point comes first by offset, then by series |
| SeriesMerge.ReadIsPrefix | src/ca-load.cc:462-501 | the points of an offset are taken series by series, each in its order |
| SeriesMerge.MergeTimeSeries | src/ca-load.cc:423-501 | fails exactly when a series is unsorted or the points of an offset cannot be combined; otherwise one point for each offset, in strictly increasing order; for each of the three modes both are stated on the points: equal scores, the first point without percentiles, or the total when only first points have percentiles |
| SeriesMerge.UnionMeaning | src/ca-load.cc:477-481 | a union accepts equal scores only and keeps the first point |
| SeriesMerge.PickOneMeaning | src/ca-load.cc:482-489 | picking one keeps the first point without percentiles if there is one, and else the first point |
| SeriesMerge.SumMeaning | src/ca-load.cc:490-494 | a sum is the total of the scores, and only the first point may have percentiles |
| SeriesMerge.SumIsConserved | src/ca-load.cc:423-501 | merging in sum mode keeps the total of all scores |
| SeriesMerge.OffsetsAreUnion | src/ca-load.cc:423-501 | the merged offsets are the union of all offsets |
| SeriesMerge.UnionMerges | src/ca-load.cc:477-481 | in union mode the points of an offset combine exactly when their scores are equal, to the first one |
| SeriesMerge.PickOneMerges | src/ca-load.cc:482-489 | picking one gives the first point whose percentiles do not begin with a finite number, or else the first point |
| SeriesMerge.InfiniteSum | src/ca-load.cc:490-494 | one infinity among the scores is the sum |
| SeriesMerge.SumMerges | src/ca-load.cc:490-494 | in sum mode they combine exactly when no point but the first has percentiles that begin with a finite number, to the first one with the total score |
| ThreadPool.StepKeeps | src/thread-pool.h:63-157 | every step keeps: scheduled is completed plus queued plus running, the queue is within the backlog, no task starts twice, no wakeup is lost, and nobody sleeps after shutdown |
| ThreadPool.RunsOfNewPool | src/thread-pool.h:32-157 | and so does every interleaving, for any number of threads and callers |
| ThreadPool.WaitReturns | src/thread-pool.h:129-133 | a call of Wait returns exactly when no task is queued or running |
| ThreadPool.InternalStepsEnd | src/thread-pool.h:138-157 | every step that the pool takes by itself brings it closer to rest |
| ThreadPool.NoDeadlock | src/thread-pool.h:138-157 | as long as tasks are queued or running, a pool with threads can take such a step |
| ThreadPool.ComesToRest | src/thread-pool.h:138-157 | in whatever order a pool with threads steps by itself, it takes no more steps than it has work left, and where it can take none everything scheduled is completed and no caller waits |
| ThreadPool.CanComeToRest | src/thread-pool.h:138-157 | and from every state it can get there |
| ThreadPool.WorkersStop | src/thread-pool.h:49-59 | after shutdown the next step of every worker stops it, so joining ends |
| ThreadPool.WithoutThreads | src/thread-pool.h:32-36 | in every run of a pool without threads nothing leaves the queue and nothing is completed |
| ThreadPool.WaitNeverReturns | src/thread-pool.h:129-133 | so a queued task is never started, and after any run a call of Wait goes on waiting |
| ThreadPool.LaunchWithoutThreads | src/thread-pool.h:63-75 | the first launch on a new pool without threads puts such a task into the queue |
| ThreadPool.NoTaskIsLost | src/thread-pool.h:63-157 | in every interleaving each launched task has been started or waits, and tasks wait in the order of their launches |
| ThreadPool.ShutdownIsFinal | src/thread-pool.h:49-59 | shutdown happens once and for good, wakes every sleeping worker, and nothing is launched or waited for afterwards |
| ThreadPool.OldestFirst | src/thread-pool.h:138-157 | a worker that finds tasks starts the one that was launched first and leaves the others |
| ThreadPool.FullQueueRunsInline | src/thread-pool.h:63-75 | a caller runs its task itself exactly when as many wait as the backlog allows; otherwise the task is queued |
| Examples.LowestGroupFirst | third_party/oroch/oroch/varint.h:76-85 | 300 is written as 0xac 0x02 in the table file |
| Examples.HighestGroupFirst | src/format.cc:270-285 | and as 0x82 0x2c in a series |
| Examples.LowestByteFirst | src/parse.cc:562-617 | numbers of fixed width have the lowest byte first |
| Examples.RunsAndLiterals | src/rle.c:13-38 | a literal, a run of three and a literal, byte by byte |
| Examples.FieldsOfFloat | src/format.cc:52-53 | sign, exponent and significand of a float, which is finite unless its exponent is the highest one |
| Examples.FloatExamples | src/format.cc:52-53 | the floats of 1, -3 and 0, and floats that are no integer and no number |
| Examples.SingleIntegers | src/parse.cc:562-617 | single-point records of one, two and three bytes, plain and complemented |
| Examples.SingleFloats | src/parse.cc:562-617 | a single-point record with a float, and the empty record |
| Examples.BandsExample | src/parse.cc:402-474 | a with-prediction record of one point with percentiles, byte by byte |
| Examples.StepExamples | src/parse.cc:417-445 | steps without and with a dictionary, byte by byte |
| Examples.HeaderExample | src/table-backend-writeonce.cc:728-743 | the 24 bytes of the header of a table file |
| Examples.OpensExactly | src/table-backend-writeonce.cc:1422-1450 | the header opens exactly with this magic, a version of at least 4, no compression or ZSTD, no extension flag, and the seekable flag when asked for |
| Examples.SeekableExample | src/table-backend-writeonce.cc:346-358 | two rows in the interleaved layout, byte by byte |
| Examples.ColumnarExample | src/table-backend-writeonce.cc:332-345 | the same two rows in the columnar layout |
| Examples.IndexExample | src/table-backend-writeonce.cc:538-554 | an index of two blocks, byte by byte |

## Left out

- Damaged and foreign files: a reader is modelled on files that the builder wrote; readers of the older hash format (`WriteOnceReader_v3`) are not modelled.
- Builder.WriteOnceBuilder.Add: a key or value of 4 GiB or more is accepted and makes the builder invalid, and nothing is said of what it does from then on.
- WriteOnceTable.BuildReopenRun: only for tables whose total size stays below 2 to the 63, the width of the file offsets, and whose blocks fit their 32-bit sizes, without which the file is not the one that a reader needs (`WriteOnceTable.RepresentableHolds`); it is about sorted, non-empty rows, which are the ones the builder commits.
- Builder.TwoGigabytesEach: the source refuses a block that one call of `write` does not take whole; what a system takes in one call is not modelled.
- SortingBuilder.WriteOnceSortingBuilder.Build: when the sizes of a row do not add in 32 bits, the code goes on with bytes behind its buffer; the model stops there and says nothing of the file.
- SortingBuilder.WriteOnceSortingBuilder.Add: the files behind the builder (temporary data file, buffered writes) are one byte sequence.
- Reader.WriteOnceReader.Seek: `SEEK_CUR` and `SEEK_END` are not modelled, nor reading a row after a seek to the end or into the middle of an entry at the end of a block.
- Machines that store numbers with the highest byte first, on which table headers and floats in series look different.
- Zstandard itself, memory mapping, file creation, renaming and syncing.
- The Oroch packing of series without percentiles (`EncodeOffsetScoreOroch` for more than one point, record types 7 and 8); `Series.FormatOffsetScore` says when it would be used, and streams with such records count as not decodable.
- Walkers.OffsetScoreCount: says nothing about streams that the parser does not accept, where the counter may run past the end of the data.
- Memory limits: counts in malformed records are not bounded by the memory they would take.
- Rounding: integers in stored scores are not rounded to floats, and sums and differences of scores are exact.
- Scores that are not a number, in queries, merges and correlations.
- Query.ProcessSubQuery: a sample may give any sorted choice of the wanted number of entries, and the fixed seed of its generator is not modelled; index rows that cannot be decoded, which end a query with an exception, are outside of `Query.Readable`; the output vector is a field that is reassigned, and operators work in place on an array of its entries.
- Lookups through the content-addressed store (`FIELD-in:KEY`), the decoding of percent signs in keys, and the splitting of a token at its colon.
- The threshold filter of a query statement, limits, partial sorting and the JSON output; the queries over summary overrides.
- The printing and the grammar of queries.
- Correlate.CountRange: the significance limits, log-odds and entropy computed from the counts, and the choice of the best split.
- The two-list `FilterByTimestamp`, which drops keys behind the last event but keeps those before it.
- Loader.Load: the meaning of dates, of document keys and of numbers in the input is a parameter of the model; options other than the delimiter, unescaping, filters, threshold and key prefixes are left out; what is promised is about input that ends with a whole line.
- Loader.FlushSeries: in a merge the code tests the strip prefix against the loader's current key, which is then empty, so that stripping always fails there; the model tests the key of the group, which is the same thing while loading.
- SeriesMerge.MergeTimeSeries: the standard library's heap is modelled by what it promises, the least element first; a key with one series only is copied without decoding; series without points are harmless in the model, while the code reads before their start.
- Merge.MergeTables: the order of equal keys of different tables is left open, as it is in the code.
- `ca_table_merge` callbacks other than the grouping one and the time-series one (summaries in JSON, plain copies).
- ThreadPool.StepKeeps: the mutex is taken to give mutual exclusion; exceptions thrown by tasks and the futures that carry results are not modelled.
- LevelDB tables, schema files, keyword configuration, command-line parsing.
