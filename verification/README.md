# A verified model of MosaicDB

MosaicDB is an LSM-tree key-value engine with a small SQL layer. This project models the engine stack
down to the bytes of its files and proves that log, memtable, SSTables, compaction and recovery together
behave like one plain map, across flushes and crashes; it then proves the SQL layer on top of that map.
`dafny verify dfyconfig.toml` checks everything.

| files | content |
|---|---|
| `Bytes`, `Entries`, `Codec` | byte strings and their order, ordered maps, little-endian integers |
| `Crc32`, `Wal`, `MemTable`, `Bloom` | checksum, log, in-memory table with its byte counter, Bloom filter |
| `SSTableFormat`, `SSTableWriter`, `SSTableReader` | the table file, its writer, and the fast read path |
| `Layers`, `Tables`, `Compaction` | looking through versions newest first, numbered tables, merging |
| `Machine`, `MachineProof` | the engine as a state machine over disk steps, with crashes between any two |
| `History`, `Resurrection` | the client's history of a run, durability against it, and two runs that fail it |
| `Engine` | the class `StorageEngine`; every method extends a ghost trace of machine steps |
| `KeyValue`, `Refinement` | the engine's contract as an ordered store, for the layer above |
| `Keys`, `Decimals`, `Values`, `Catalog` | key encoding, integers as text, row and schema codecs, the catalog |
| `Ast`, `Eval`, `Precedence`, `Relation`, `Assignments`, `Selection`, `Executor` | statements as operations on tables |
| `Comparisons`, `Ordering`, `Answers` | what conditions, conversions, ORDER BY and SELECT mean on the cells themselves |
| `PrimaryKeys`, `KeyTexts`, `NotNull` | the constraints: which statements keep them and which do not |
| `Tokens`, `Tokenizer`, `Spelling`, `Grammar`, `Samples`, `Sentences`, `Parser`, `Sql` | text to tokens to statement to effect |
| `KnownAnswers`, `KnownRows` | worked values: the bytes that small inputs must have in each format |

## Main results

1. **Durability.** The history of a run is read off its steps alone: the writes that were acknowledged, and for
   each crash the write it cut off after its record was complete. Over every run of writes, flushes,
   compactions, crashes between any two disk steps, torn log appends, half-written tables and restarts, and
   while no record stands behind a leftover torn log tail, the disk shows exactly that history, as long as no
   crash came between two of compaction's file removals (`History.Durability`). With such crashes too it shows
   at least that history (`NothingLost`), only values that were put, and beyond the history only keys that were
   removed (`NothingInvented`). Both conditions are needed: the code takes runs in which a removed key comes back
   (`DeletedKeyComesBack`) and in which an acknowledged write is lost behind a torn tail (`LostBehindTail`). The
   class `StorageEngine` performs these very steps (its ghost `trace`), so `Put`, `Remove`, `Get`, `Scan` and the
   recovering constructor are proved on the same runs.
2. **Interrupted compaction.** With any subset of the old tables left, the view changes exactly on keys whose
   newest version is a tombstone in a removed table while a live version remains (`InterruptedView`,
   `RemovalCrash`). The code removes newest first, and a run of the engine from an empty directory reaches a
   crash after which an acknowledged removal is undone (`DeletedKeyComesBack`); removing oldest first never
   would do that (`OldestFirstIsSafe`).
3. **Table files.** Range check, Bloom filter, binary search and block scan together are a plain look-up in the
   list that was written (`SSTableReader.Get`).
4. **Log.** A whole record at the front of a log comes back if and only if key and value are within 10,485,760 and
   104,857,600 bytes (`RecoveredWithinLimits`). Any strict prefix of a record is ignored with no assumption on
   checksum collisions; any one-byte change outside the length fields is caught, because every CRC step is injective.
5. **SQL.** The parser accepts exactly the sentences of its grammar, each with its meaning (`ParseStatement`);
   statements act on tables as on plain maps; SELECT returns the right rows, cells, order and number
   (`SelectAnswer`); INSERT is refused exactly for the reasons stated (`RejectedExactly`, `RefusedExactly`); and on
   every text whatever the database stays consistent (`ExecuteSql`), also after each single write of a statement, so
   that a crash inside a statement leaves a database that a freshly loaded catalog finds consistent
   (`ReloadConsistent`).

What turned out false of the code, with the exact condition where it holds:

- A torn log tail is never truncated. A record appended to a log is recovered, whatever the record, if and only
  if the log ends with a whole record (`AppendIsRecovered`); behind four leftover bytes nothing is
  (`LostBehindTornChecksum`). The machine marks a log appended to behind a tail `exposed` until the next flush.
- `validate` looks at four bytes only: some half-written form of a table passes if and only if the magic bytes
  also occur in its file at byte 32 or later, before the end (`HalfWrittenValidates`), and they can
  (`HalfWrittenCanPass`).
- Rows whose key text starts at or above `~` are invisible to scans and survive DROP TABLE, except the text
  `~` itself (`RowInScan`, `DropIsExact`).
- WHERE has no precedence: the code's reading implies the usual one, and the two agree for all conditions and
  rows if and only if no AND stands after an OR (`NoPrecedence`). `a OR b AND c` is read as `(a OR b) AND c`.
- Integer keys are not in numeric order: for a < b the exact condition is `OrderKept` (`FormatIntKeepsOrder`). It
  holds from 0 to 9,999,999,999, fails for all negative numbers of up to nine digits, and first fails upwards at
  10,000,000,000, which sorts before 9,999,999,999.
- UPDATE never moves a row. While every row is stored under its own key, key cells are unique; every statement keeps
  that except an UPDATE, which keeps it if and only if each row it selects is given a key cell with its old key text
  (`StatementKeepsKeys`). `UPDATE t SET id = 2` on row 1 does not: then a second row 2 is accepted and row 1 refused
  (`UpdateBreaksKeys`).
- UPDATE does not check NOT NULL. A statement keeps NULL out of NOT NULL columns if and only if it is not an UPDATE
  that selects a row and assigns such a column NULL last (`StatementKeepsFilled`, `UpdateStoresNull`).
- A literal of another type is not refused: beside a BOOL cell it counts as FALSE, so `flag = 1` selects the rows
  whose flag is FALSE (`BoolCell`), and beside an INT cell a text that is no number counts as 0 (`IntCell`).
- ORDER BY gives the sort a comparator that need not be a strict weak order: columns hold NULLs and, as coercion keeps
  what it cannot convert, mixed types. It is one if and only if any three keys are coherent (`SortableExactly`):
  beside a NULL no two keys are told apart; beside a NaN no float comes before any key; two keys of different types
  are not both ahead (negative when ascending; positive, or a text that is not empty, when descending); and two keys
  of one type are told apart beside a key of another only if the first or that one is ahead. 1, 'a', 2 fail ascending,
  1, 'a' descending (`MixedTypesBreakOrder`).
- The generated row id is unreachable from SQL: CREATE TABLE marks the key column NOT NULL and that check comes
  first (`AutoKeyUnreachable`, `KeysStayMarked`).
- The size of a Bloom filter wraps: its positions fit if and only if ten bits a key, in 32 bits, stay seven below
  2^32 (`FilterFits`), for the first time not at 429,496,729 entries (`FirstWrap`).
- `OVERVIEW.md` gives row keys as `table:pk` and schema keys as `__catalog__:name`; the code uses
  `__table:name:row:pk` and `__catalog:name`, and so does the model.

## Model

| member | source | states |
|---|---|---|
| `History.Durability` | src/engine/storage_engine.cpp:33-141 | at every point of every run without a crash between two file removals, a restart would show exactly the finished writes of the history and the one in flight; outside an exposed log and unfinished removal |
| `History.NothingLost` | src/engine/storage_engine.cpp:33-141 | on every run, while the log is not exposed, a restart would show at least those, crashes between two removals included |
| `History.NothingInvented` | src/engine/storage_engine.cpp:33-141 | then also everything it shows was put with that value in the run, and a key it shows beyond the history is one the history has removed |
| `History.Follows` | src/engine/storage_engine.cpp:122-141 | the machine's map contains the history, which never reads the disk, and equals it on runs without such a crash |
| `History.LiveHistory` | src/engine/storage_engine.cpp:143-192 | between operations reads show exactly the finished writes |
| `History.CrashAdds` | src/engine/storage_engine.cpp:122-141 | a crash leaves the disk view alone, and its finished writes are the old history with the write in flight, unacknowledged |
| `History.EmptyKeyUnreachable` | src/engine/storage_engine.cpp:130-138 | over every run, when the engine compacts, the triggering put is live in the newest table, so the merged list is not empty and `__empty__` is not written |
| `History.RunStoresFlight` | src/engine/storage_engine.cpp:96-120 | from the memtable update until the log is truncated, the newest layer holds the write in flight |
| `Resurrection.DeletedKeyComesBack` | src/engine/storage_engine.cpp:217-246 | a run the code takes with its flush threshold, from an empty directory, that removes a key, acknowledged, and a crash after which the disk shows it again |
| `Resurrection.LostBehindTail` | src/storage/wal.cpp:89-131 | a run the code takes that ends idle with a put acknowledged behind four leftover bytes, and a disk that shows nothing |
| `MachineProof.DurabilityWhileRemoving` | src/engine/storage_engine.cpp:241-246 | while old files are being removed, the disk shows the model over whatever the leftover tables show |
| `MachineProof.RestartShowsSurvivors` | src/engine/storage_engine.cpp:12-94 | after any crash and cleanup, the restarted engine's live view is exactly what survived |
| `MachineProof.LiveReads` | src/engine/storage_engine.cpp:33-66 | between operations the live view is the acknowledged map; table numbers descend strictly below the next one, and reloading rebuilds the same order and number |
| `MachineProof.StepKeepsInv` | src/engine/storage_engine.cpp:72-141 | every disk step, crash and restart keeps the invariant |
| `MachineProof.RunKeepsInv` | src/engine/storage_engine.cpp:72-141 | the invariant holds after every run |
| `MachineProof.FreshDirectory` | src/engine/storage_engine.cpp:12-23 | the runs are not vacuous: an empty directory starts one, and it reaches an idle engine that holds nothing |
| `MachineProof.CrashView` | src/engine/storage_engine.cpp:96-114 | wherever the process dies, also between writing the table and clearing the log, the disk shows what `Survives` says |
| `MachineProof.RemovalCrash` | src/engine/storage_engine.cpp:228-246 | after m removals, newest first, the disk differs from the model on a key if and only if that key is resurrected |
| `Machine.ReplayAppend` | src/engine/storage_engine.cpp:72-84 | replaying one more record is one more memtable write |
| `Engine.StorageEngine.constructor` | src/engine/storage_engine.cpp:12-23 | started on the directory any run has left behind, the engine holds exactly what survived |
| `Engine.StorageEngine.AcknowledgedIsHistory` | src/engine/storage_engine.cpp:122-141 | the map the engine is proved to show is the history of finished writes |
| `Engine.StorageEngine.LoadSSTables` | src/engine/storage_engine.cpp:33-70 | corrupt files are dropped, the others opened highest number first, and the next number is one past the highest |
| `Engine.StorageEngine.ReplayLog` | src/engine/storage_engine.cpp:72-84 | the memtable becomes the replay of the recovered records |
| `Engine.StorageEngine.Put` | src/engine/storage_engine.cpp:122-141 | the acknowledged map gains exactly the key; an empty key is refused; below the threshold only log and memtable grow, from it on both end empty and the tables are one more, or one if that makes four |
| `Engine.StorageEngine.Remove` | src/engine/storage_engine.cpp:194-211 | the acknowledged map loses exactly the key; below the threshold only log and memtable grow, from it on both end empty and there is one more table |
| `Engine.StorageEngine.Get` | src/engine/storage_engine.cpp:143-164 | a look-up in the acknowledged map |
| `Engine.StorageEngine.Scan` | src/engine/storage_engine.cpp:166-192 | the acknowledged map restricted to the range, strictly ascending |
| `Engine.StorageEngine.FlushMemtable` | src/engine/storage_engine.cpp:96-120 | write, open, clear, truncate as four machine steps; the client's map is unchanged |
| `Engine.StorageEngine.MaybeCompact` | src/engine/storage_engine.cpp:217-252 | below four tables nothing happens; from four on one open table and its file are all that is left; the client's map is unchanged |
| `Engine.StorageEngine.RemoveFiles` | src/engine/storage_engine.cpp:243-246 | the old files go one machine step at a time, newest first |
| `Refinement.ScanRefines` | src/engine/storage_engine.cpp:166-192 | the engine's scan contract has one answer: the one the ordered store gives |
| `Refinement.StoreIsItsMap` | src/engine/storage_engine.cpp:166-192 | a map determines the store's list and so every answer |
| `KeyValue.Store.Put` | src/engine/storage_engine.cpp:122-141 | the engine's contract: an empty key is refused, otherwise the map gains exactly the key |
| `KeyValue.Store.Remove` | src/engine/storage_engine.cpp:194-211 | the map loses exactly the key |
| `KeyValue.Store.Scan` | src/engine/storage_engine.cpp:166-192 | the live entries in the range, ascending |
| `Tables.InterruptedView` | src/engine/storage_engine.cpp:217-252 | with any subset of old tables kept, the reloaded view differs on a key if and only if its newest version is a tombstone in a removed table and its newest kept version is live |
| `Tables.NoneRemoved` | src/engine/storage_engine.cpp:217-252 | nothing changes while no old table is removed |
| `Tables.AllRemoved` | src/engine/storage_engine.cpp:217-252 | nothing changes once all are removed |
| `Tables.OldestFirstIsSafe` | src/engine/storage_engine.cpp:243-246 | removing oldest first never changes the view |
| `Tables.NewestFirstResurrects` | src/engine/storage_engine.cpp:228-246 | four tables as the engine leaves them, the newest with a tombstone and the triggering put, where the first removal brings the deleted key back |
| `Compaction.Compact` | src/compaction/compaction.cpp:7-33 | no inputs are refused; otherwise the file is the one `build` writes for the compacted list |
| `Compaction.CompactedMap` | src/compaction/compaction.cpp:13-32 | the compacted table holds exactly the visible map of its inputs, or the single key `__empty__` when that map is empty |
| `Compaction.CompactionKeepsView` | src/compaction/compaction.cpp:13-32 | a reader sees the same view before and after, unless it was empty |
| `KnownAnswers.EmptyCompaction` | src/compaction/compaction.cpp:26-32 | tables without a live key compact to the key `__empty__` with an empty value |
| `Layers.ViewIsNewest` | src/engine/storage_engine.cpp:143-164 | searching tables newest first is a look-up in their merge |
| `Layers.ViewDuplicate` | src/engine/storage_engine.cpp:96-114 | a table repeated below the replayed log that it was flushed from changes nothing |
| `SSTableWriter.Build` | src/storage/sstable.cpp:6-74 | an empty list is refused; otherwise, sorted or not, the bytes are exactly data, filter, sparse index and footer |
| `SSTableReader.Open` | src/storage/sstable.cpp:76-162 | a built file opens with its filter, its index and its first and last key; a file without the magic number does not open |
| `SSTableReader.Locate` | src/storage/sstable.cpp:171-182 | the binary search ends, without underflow, at the last index key not above the key |
| `SSTableReader.Get` | src/storage/sstable.cpp:164-215 | on a built file the answer is the plain look-up in the list; value, empty value, tombstone and absent told apart |
| `SSTableReader.Scan` | src/storage/sstable.cpp:217-271 | exactly the sub-list with start <= key <= end, tombstones included |
| `SSTableReader.ReadAllEntries` | src/storage/sstable.cpp:273-302 | the list the file was built from |
| `SSTableReader.ContentsOfBuilt` | src/storage/sstable.cpp:273-302 | writing a list and reading the file gives the list back |
| `SSTableReader.FileOfInjective` | src/storage/sstable.cpp:6-74 | different lists give different files |
| `SSTableReader.Validate` | src/storage/sstable.cpp:304-316 | true exactly for files of at least 32 bytes that end in the magic number |
| `SSTableReader.HalfWrittenValidates` | src/storage/sstable.cpp:304-316 | some strict prefix of the file of a table validates if and only if the magic bytes occur in the file ending at byte 32 or later and before its end |
| `SSTableReader.HalfWrittenCanPass` | src/storage/sstable.cpp:304-316 | for any key and surroundings, a table whose value holds the magic bytes, cut there, validates |
| `SSTableFormat.SparseIndexAt` | src/storage/sstable.cpp:19-41 | index entry j is the key and offset of data entry 16 j |
| `KnownAnswers.FileBytes` | src/storage/sstable.cpp:6-74 | every byte of the file that holds "a" with the value "b": entry, filter, index, footer and magic number |
| `KnownAnswers.EntryBytes` | src/storage/sstable.cpp:27-41 | the bytes of a live and of a removed entry |
| `Wal.RecoveredAppend` | src/storage/wal.cpp:100-143 | recovering well-formed records followed by anything gives those records and then what recovers from the rest |
| `Wal.RecoveredWithinLimits` | src/storage/wal.cpp:106-140 | a record at the front is returned, and recovery goes on behind it, if and only if its key has at most 10,485,760 bytes and its value at most 104,857,600 |
| `Wal.TornTailIgnored` | src/storage/wal.cpp:70-143 | records followed by any strict prefix of one more recover to exactly the records |
| `Wal.CorruptionStopsRecovery` | src/storage/wal.cpp:100-143 | one byte changed in a checksum, op, key or value makes recovery return exactly the records before it |
| `Wal.LostBehindTornChecksum` | src/storage/wal.cpp:89-131 | behind a tail torn after its checksum nothing is recovered, whatever is appended |
| `Wal.AppendIsRecovered` | src/storage/wal.cpp:89-131 | every record appended to a log is recovered if and only if the log ends with a whole record |
| `Wal.LogSplit` | src/storage/wal.cpp:106-140 | every log is the encoding of the records it recovers to, followed by an unreadable tail |
| `Wal.WriteAheadLog.Append` | src/storage/wal.cpp:70-98 | the file gains exactly the encoded record, with key and value cut where their lengths exceed 32 bits |
| `Wal.WriteAheadLog.Recover` | src/storage/wal.cpp:100-143 | the records up to the first unsound one; the file is unchanged |
| `Wal.WriteAheadLog.Clear` | src/storage/wal.cpp:145-150 | the file is empty |
| `KnownAnswers.RecordBytes` | src/storage/wal.cpp:70-98 | every byte of the log record of a put of "k" with the value "v" |
| `KnownAnswers.RemovalRecord` | src/engine/storage_engine.cpp:194-201 | a removal is logged under op 2 with an empty value |
| `Crc32.Compute` | include/mosaicdb/common.h:68-86 | the table form equals the bit-at-a-time CRC-32 of section 8 of RFC 1952 on every byte string |
| `Crc32.GeneratorTerms` | include/mosaicdb/common.h:77-86 | the generator has exactly the terms of exponents 32, 26, 23, 22, 16, 12, 11, 10, 8, 7, 5, 4, 2, 1 and 0 |
| `Crc32.CheckValue` | include/mosaicdb/common.h:68-86 | the checksum of 123456789 is 0xCBF43926, the check value of CRC-32 |
| `Crc32.BuildTable` | include/mosaicdb/common.h:77-86 | every entry is its index after eight reflected division steps |
| `Crc32.CrcIsSerial` | include/mosaicdb/common.h:68-86 | a byte at a time equals a bit at a time |
| `Crc32.ByteStepInjectiveInByte` | include/mosaicdb/common.h:71-73 | one step is injective in the byte |
| `Crc32.ByteStepInjectiveInRegister` | include/mosaicdb/common.h:71-73 | one step is injective in the register |
| `Crc32.SingleByteChangeDetected` | include/mosaicdb/common.h:68-74 | changing any one byte of a message changes its checksum |
| `Codec.EncodeU32` | include/mosaicdb/common.h:40-45 | the four little-endian digits |
| `Codec.DecodeU32` | include/mosaicdb/common.h:47-52 | the number the four bytes denote |
| `Codec.EncodeU64` | include/mosaicdb/common.h:54-57 | the eight little-endian digits |
| `Codec.DecodeU64` | include/mosaicdb/common.h:59-64 | the number the eight bytes denote |
| `Codec.LeRoundTrip` | include/mosaicdb/common.h:40-64 | a number in range reads back from its bytes, at every width |
| `Codec.FromLeInjective` | include/mosaicdb/common.h:47-64 | different byte strings of one width denote different numbers |
| `MemTable.Table.Put` | src/storage/memtable.cpp:8-21 | the contents gain exactly the key; the counter stays the exact sum of key and live value lengths |
| `MemTable.Table.Remove` | src/storage/memtable.cpp:23-37 | a tombstone is written; the counter stays exact |
| `MemTable.Table.Get` | src/storage/memtable.cpp:39-48 | not found exactly if the contents lack the key, tombstone exactly if they hold it deleted, and otherwise the value they hold |
| `MemTable.ReportedInjective` | src/storage/memtable.cpp:39-48 | absent, deleted, empty and live answers are never confused |
| `MemTable.Table.Scan` | src/storage/memtable.cpp:50-62 | the sub-list with start <= key <= end |
| `MemTable.Table.ShouldFlush` | src/storage/memtable.cpp:69-72 | whether the key and live value bytes held, summed, have reached the threshold |
| `MemTable.SizeUpsert` | src/storage/memtable.cpp:8-37 | writing a key changes the size by the difference of what the key counted for before and counts for now |
| `MemTable.SizeIsBytes` | src/storage/memtable.cpp:8-37 | the size is the length of all keys and live values written one after the other |
| `Bloom.BloomFilter.Add` | src/index/bloom_filter.cpp:45-52 | the bits become those of the filter with the key added |
| `Bloom.WithKeyView` | src/index/bloom_filter.cpp:12-18 | adding a key sets its positions and no other bit |
| `KnownAnswers.Fnv1aValues` | src/index/bloom_filter.cpp:20-27 | FNV-1a of "", "a" and "ab" |
| `KnownAnswers.MurmurMixValues` | src/index/bloom_filter.cpp:29-43 | the second hash of "a" and "ab" |
| `KnownAnswers.PositionsOfA` | src/index/bloom_filter.cpp:45-52 | the seven bits that "a" sets among 64 |
| `KnownAnswers.FilterOfA` | src/index/bloom_filter.cpp:45-70 | the eight bytes of the filter that holds just "a" |
| `Bloom.Filter.PossiblyContains` | src/index/bloom_filter.cpp:54-62 | true exactly when every position of the key is set |
| `Bloom.NoFalseNegatives` | src/index/bloom_filter.cpp:45-62 | after any sequence of adds every added key is admitted |
| `Bloom.BitsRoundTrip` | src/storage/sstable.cpp:133-146 | the bits survive being written to a file and read back |
| `Bloom.PositionsInBounds` | src/index/bloom_filter.cpp:6-18 | every position fits the byte vector if and only if the 32-bit size sum does not wrap |
| `Bloom.FilterFits` | src/index/bloom_filter.cpp:6-70 | for every entry count, all positions fit if and only if the count times ten, in 32 bits, stays seven below the wrap |
| `Bloom.SizesFit` | src/index/bloom_filter.cpp:64-70 | it does not wrap up to 429,496,728 entries |
| `Bloom.FirstWrap` | src/index/bloom_filter.cpp:64-70 | with one entry more the vector is empty |
| `Keys.ScanExact` | src/relational/catalog.cpp:18-25 | a prefix scan returns exactly the keys with the prefix and a suffix that is empty, begins below `~`, or is `~` |
| `Keys.RowInScan` | src/relational/catalog.cpp:14-25 | a row lies in its table's scan if and only if its key text is such a suffix |
| `Keys.ScansDisjoint` | src/relational/catalog.cpp:14-25 | row keys of two tables whose names have no colon never share a prefix |
| `Keys.NestedNamesOverlap` | src/relational/catalog.cpp:14-25 | with colons they can: table `x:row:y` lies inside table `x` |
| `Keys.KindsDisjoint` | src/relational/catalog.cpp:6-29 | row, schema and counter keys are of three separate kinds |
| `KnownRows.KeysAsText` | src/relational/catalog.cpp:6-29 | rows are stored under `__table:name:row:key` and scanned up to `~`, schemas under `__catalog:name`, counters under `__meta:name:next_rowid` |
| `Decimals.FormatIntIs` | src/sql/executor.cpp:13-21 | a text is the key text of n if and only if it is n in decimal, of ten characters at least, with zeros behind the sign and no other leading zero |
| `Keys.FormatIntInjective` | src/sql/executor.cpp:13-21 | different integers give different key texts |
| `Keys.FormatIntLess` | src/sql/executor.cpp:13-21 | the byte order of the keys of any two integers, in arithmetic terms |
| `Keys.LeadingDivides` | src/sql/executor.cpp:13-21 | the leading digits in those terms: dropping k digits is dividing by the k-th power of ten |
| `Keys.FormatIntKeepsOrder` | src/sql/executor.cpp:13-21 | for any integers a < b the keys are in the same order if and only if: the signs differ; or both are not negative and of one width or a is at most the leading digits of b; or both are negative, a is wider and its leading digits are below b |
| `Keys.FormatIntOrder` | src/sql/executor.cpp:13-21 | byte order is numeric order from 0 to 9,999,999,999 |
| `Keys.ElevenDigitsTooEarly` | src/sql/executor.cpp:13-21 | 10,000,000,000 sorts before 9,999,999,999 |
| `Keys.FormatIntNegative` | src/sql/executor.cpp:13-21 | among negative integers of up to nine digits the order is reversed |
| `Values.Serialize` | src/relational/row.cpp:7-63 | the bytes of the row encoding |
| `Values.Deserialize` | src/relational/row.cpp:65-117 | the decoded values and end position, or None for a read past the end |
| `Values.RowRoundTrip` | src/relational/row.cpp:7-117 | every canonical row reads back unchanged and uses up exactly its bytes |
| `KnownRows.CellBytes` | src/relational/row.cpp:16-60 | the bytes of -2, 1.5, "hi", TRUE and a NULL |
| `KnownRows.RowBytes` | src/relational/row.cpp:7-63 | a row is the number of its cells and then the cells |
| `KnownRows.Ranges` | include/mosaicdb/types.h:38-60 | integers and floats of 64 bits, texts below 2^32 bytes |
| `Values.SchemaRoundTrip` | include/mosaicdb/schema.h:31-94 | every schema reads back unchanged |
| `KnownRows.SchemaBytes` | include/mosaicdb/schema.h:31-57 | the bytes of a schema of two columns |
| `Values.SerializeSchema` | include/mosaicdb/schema.h:31-57 | the bytes of the schema encoding |
| `Values.DeserializeSchema` | include/mosaicdb/schema.h:60-94 | the decoded schema, or None for a read past the end |
| `Values.FindColumn` | include/mosaicdb/schema.h:23-28 | the first column of the name, or -1 |
| `Catalog.SchemaCatalog.LoadCache` | src/relational/catalog.cpp:35-52 | the loaded cache equals the schemas stored in the engine |
| `Catalog.ReloadSameCache` | src/relational/catalog.cpp:31-52 | a catalog freshly built over the same engine loads the same cache |
| `Catalog.SchemaCatalog.CreateTable` | src/relational/catalog.cpp:54-71 | a known name is refused; otherwise schema and counter are written, and for a name as the tokenizer makes them cache and engine still agree |
| `Catalog.SchemaCatalog.DropTable` | src/relational/catalog.cpp:73-92 | rows in the scan, counter and schema go, the schema last, and nothing else; cache and engine still agree |
| `Catalog.SchemaCatalog.GetSchema` | src/relational/catalog.cpp:94-111 | cache first, then engine; while the two agree the engine adds nothing |
| `Catalog.DropIsExact` | src/relational/catalog.cpp:73-92 | after the drop a row of the table is left if and only if its key text is not scanned; other tables keep every row |
| `Eval.EvaluateWhere` | src/sql/executor.cpp:390-406 | the left-to-right fold of the conditions |
| `Eval.UniformWhere` | src/sql/executor.cpp:394-403 | with AND only all conditions must hold, with OR only one |
| `Precedence.NoPrecedence` | src/sql/executor.cpp:394-403 | for any list of connectives, the code reads every WHERE with them as usual, on all columns and rows, if and only if no AND stands after an OR |
| `Precedence.ReadingsAgree` | src/sql/executor.cpp:394-403 | the same over all truth assignments |
| `Precedence.SelectedIsUsual` | src/sql/executor.cpp:394-403 | a row the code selects is one the usual reading selects |
| `Precedence.OrThenAnd` | src/sql/executor.cpp:394-403 | `a OR b AND c` differs from the usual reading if and only if a holds and c does not |
| `Eval.CoerceCanonical` | src/sql/executor.cpp:23-51 | coercion of a canonical value is canonical |
| `Comparisons.IntCell` | src/sql/executor.cpp:408-425 | an INT cell meets =, !=, <, >, <=, >= with a literal exactly as integers do; a float literal is cut, a text that is no number and a boolean count as 0 |
| `Comparisons.FloatCell` | src/sql/executor.cpp:408-425 | a FLOAT cell meets them as the library compares floats |
| `Comparisons.TextCell` | src/sql/executor.cpp:408-425 | a TEXT cell meets them in byte order, against what the literal prints as |
| `Comparisons.BoolCell` | src/sql/executor.cpp:408-425 | a BOOL cell knows equality only, and any literal that is no boolean counts as FALSE |
| `Comparisons.NullMeets` | src/sql/executor.cpp:408-425 | with a NULL on either side only != holds |
| `Comparisons.UnknownMeets` | src/sql/executor.cpp:408-425 | a condition on a column that does not exist never holds, != included |
| `Comparisons.ShowPrints` | include/mosaicdb/types.h:61-74 | what a value prints as: decimal digits, the text, TRUE, FALSE or NULL |
| `Comparisons.ToText` | src/sql/executor.cpp:46-48 | any value becomes the TEXT it prints as |
| `Comparisons.ToNumber` | src/sql/executor.cpp:27-44 | a text that is a number becomes it, one number type becomes the other, and what cannot be converted stays |
| `Comparisons.ToBool` | src/sql/executor.cpp:23-51 | to BOOL or to its own type a value stays as it is; NULL becomes the NULL of the type |
| `Comparisons.IntThroughText` | src/sql/executor.cpp:36-48 | an integer converted to TEXT and back is the same |
| `Assignments.AssignAll` | src/sql/executor.cpp:304-309 | the assigned row, or None if some column is unknown |
| `Assignments.AssignedCell` | src/sql/executor.cpp:304-309 | a cell holds the coerced value of the last assignment to its column, or is as before |
| `Assignments.UpdateExact` | src/sql/executor.cpp:281-318 | after UPDATE a matching row holds the assigned cells and every other row of the table is unchanged |
| `PrimaryKeys.UpdateMatchesExactly` | src/sql/executor.cpp:295-315 | from rows stored under their own keys, UPDATE leaves all rows so if and only if every selected row is given a key cell with its old key text |
| `PrimaryKeys.UpdateBreaksKeys` | src/sql/executor.cpp:281-318 | `UPDATE t SET id = 2` on row 1, after which INSERT of 2 is accepted and INSERT of 1 refused |
| `PrimaryKeys.PrimaryKeyUnique` | src/sql/executor.cpp:173-177 | rows stored under their own keys have different key cells |
| `PrimaryKeys.InsertMatches` | src/sql/executor.cpp:173-181 | INSERT stores the new row under its own key |
| `KeyTexts.RowStoredUnder` | src/sql/executor.cpp:173-174 | a row is stored under the prefix of its table and exactly the text of its key cell |
| `KeyTexts.OneTypeOneText` | src/sql/executor.cpp:13-21 | for key cells of one type, INT, TEXT or BOOL, and not NULL: one text if and only if one cell |
| `KeyTexts.MixedTypesOneText` | src/sql/executor.cpp:13-21 | across types an INT shares its text only with the TEXT that spells it, a BOOL with its word |
| `KeyTexts.NullText` | src/sql/executor.cpp:13-21 | NULL in an INT key is stored as 0, any other as the word NULL |
| `KeyTexts.RefusedExactly` | src/sql/executor.cpp:173-177 | an INSERT that passes the other checks is refused if and only if a row of the table has its key text |
| `KeyTexts.RefusedForDuplicates` | src/sql/executor.cpp:173-177 | where all keys are of one type, INT, TEXT or BOOL, and not NULL: if and only if the same key cell is stored |
| `Assignments.MakePlan` | src/sql/executor.cpp:120-171 | the row an INSERT builds, or its refusal; the remembered key value is the row's key cell |
| `Assignments.InsertedCell` | src/sql/executor.cpp:132-152 | a cell of the new row is the coerced value given last for its column, NULL where none is given |
| `Assignments.InsertVisible` | src/sql/executor.cpp:174-181 | an inserted row reads back, and is scanned if and only if its key text is; integer keys always are |
| `Assignments.AutoKeyUnreachable` | src/sql/executor.cpp:154-171 | a table whose key columns are NOT NULL never gets a generated key |
| `NotNull.RejectedExactly` | src/sql/executor.cpp:120-171 | the checks before: an INSERT is rejected if and only if counts differ, a column is unknown, a NOT NULL column gets no value or NULL last, or no key is given and none can be generated |
| `NotNull.InsertFills` | src/sql/executor.cpp:154-158 | INSERT keeps NULL out of NOT NULL columns |
| `NotNull.UpdateFillsExactly` | src/sql/executor.cpp:295-315 | UPDATE does if and only if it selects no row or assigns no such column NULL last |
| `NotNull.UpdateStoresNull` | src/sql/executor.cpp:304-309 | `UPDATE t SET id = NULL` makes the key cell of row 1 NULL |
| `Relation.DeleteLeavesNone` | src/sql/executor.cpp:320-350 | after DELETE the same WHERE selects no row of the table |
| `Relation.DeleteExact` | src/sql/executor.cpp:332-347 | a row of the table is left, as it was, if and only if the WHERE does not hold of it |
| `Relation.RewriteKeepsOthers` | src/sql/executor.cpp:295-315 | rewriting a table leaves every key of another table's scan alone |
| `Relation.RemoveKeepsOthers` | src/sql/executor.cpp:332-347 | removing from a table does too |
| `Relation.RewrittenOk` | src/sql/executor.cpp:281-318 | UPDATE keeps catalog and rows consistent |
| `Relation.RowAddedOk` | src/sql/executor.cpp:180-181 | so does adding a row |
| `Relation.CreatedOk` | src/sql/executor.cpp:78-98 | so does CREATE TABLE: no stored key lies in the new table's scan |
| `Relation.DroppedOk` | src/sql/executor.cpp:100-111 | so does DROP TABLE |
| `Relation.HalfCreatedOk` | src/relational/catalog.cpp:59-66 | between the two writes of CREATE TABLE the database is consistent |
| `Relation.ThinnedOk` | src/relational/catalog.cpp:78-88 | so it is between any two removals of DROP TABLE |
| `Relation.ReloadConsistent` | src/relational/catalog.cpp:31-52 | a catalog freshly loaded after a crash between two writes makes a consistent database |
| `Executor.Database.ExecInsert` | src/sql/executor.cpp:113-186 | a refused INSERT changes nothing; otherwise one row is added under a key that was free, never overwriting |
| `Executor.Database.ExecUpdate` | src/sql/executor.cpp:281-318 | exactly the matching rows are rewritten; with an unknown column none is, and it is an error if and only if some row matches |
| `Executor.Database.ExecDelete` | src/sql/executor.cpp:320-350 | exactly the matching rows are removed |
| `Executor.Database.ExecSelect` | src/sql/executor.cpp:188-279 | the answer is filter, project, sort and limit of the table's scan |
| `Executor.Database.ExecCreate` | src/sql/executor.cpp:78-98 | the refusals, or the new schema; the database stays consistent |
| `Executor.Database.ExecDrop` | src/sql/executor.cpp:100-111 | IF EXISTS, or the table gone; the database stays consistent |
| `Executor.Database.NextRowId` | src/relational/catalog.cpp:125-134 | the counter, 1 if missing or unreadable, and its increment modulo 2^64 |
| `Selection.PickedRows` | src/sql/executor.cpp:222-242 | a projected row is in the answer if and only if some selected row of the table projects to it |
| `Selection.PickedCount` | src/sql/executor.cpp:222-242 | one answer row for each selected row of the table |
| `Selection.SortRows` | src/sql/executor.cpp:261-265 | a permutation, sorted whenever the comparator is a strict weak order |
| `Selection.SortKeysOrdered` | include/mosaicdb/types.h:87-107 | keys of one type without NULL and NaN are strictly weakly ordered in both directions |
| `Selection.SortableExactly` | include/mosaicdb/types.h:87-107 | for all stored keys, NULL, NaN and mixed types included, the comparator is a strict weak order if and only if any three keys are coherent |
| `Ordering.BeforeIs` | include/mosaicdb/types.h:87-107 | the comparator by cases: NULL ties, one type compares as such, and across types only the left key counts, against 0 or the empty text |
| `Selection.PickedCanonical` | src/sql/executor.cpp:222-242 | the rows a SELECT sorts are such keys |
| `Selection.NullTiesAll` | include/mosaicdb/types.h:87-107 | with a NULL among them, rows can be sorted if and only if no two are told apart |
| `Selection.MixedTypesBreakOrder` | src/sql/executor.cpp:23-51 | 1, 'a', 2 ascending and 1, 'a' descending break the order, and a BOOL column keeps them as given |
| `Selection.NullBreaksOrder` | include/mosaicdb/types.h:87-107 | one NULL between two integers breaks the strict weak order |
| `Selection.LimitKeepsFirst` | src/sql/executor.cpp:269-271 | no row left out comes before a row returned |
| `Answers.SelectAnswer` | src/sql/executor.cpp:188-279 | every answer: the selected rows, each once, in key order or as ORDER BY says, each with the cells its titles name, and of these the first `limit`, or all if it is negative or not below their number |
| `Answers.ProjectedShows` | src/sql/executor.cpp:232-240 | a cell of an answer row is the cell of the first column with its title; for `*` the row is the stored one |
| `Answers.FailsExactly` | src/sql/executor.cpp:199-258 | SELECT on a table fails if and only if it names an unknown column or orders by one it does not return |
| `Answers.OrderedInts` | src/sql/executor.cpp:261-265 | integer keys come ascending, and descending with DESC |
| `Answers.OrderedTexts` | src/sql/executor.cpp:261-265 | text keys come in byte order, and against it with DESC |
| `Selection.DeletedNotSelected` | src/sql/executor.cpp:320-350 | after DELETE, SELECT with the same WHERE is empty |
| `Tokenizer.SqlTokenizer.Tokenize` | src/sql/sql_tokenizer.cpp:143-217 | terminates on every text with the functional token list, or None for the exception |
| `Tokenizer.SqlTokenizer.ReadString` | src/sql/sql_tokenizer.cpp:97-118 | a doubled quote stands for one, a single one ends the literal |
| `Tokenizer.LexShape` | src/sql/sql_tokenizer.cpp:143-217 | one END token, at the end; well-formed names; positions strictly ascending inside the text |
| `Tokenizer.QuoteRoundTrip` | src/sql/sql_tokenizer.cpp:97-118 | any text with its quotes doubled reads back unchanged |
| `Tokenizer.RenderRoundTrip` | src/sql/sql_tokenizer.cpp:143-217 | any list of tokens, printed with spaces, tokenizes to itself |
| `Tokenizer.LexIsLexable` | src/sql/sql_tokenizer.cpp:143-217 | the tokenizer yields no tokens other than those |
| `Tokenizer.WordsArePlain` | src/sql/sql_tokenizer.cpp:120-141 | names hold no colon and begin below `~` |
| `Spelling.KeywordSpelled` | src/sql/sql_tokenizer.cpp:25-71 | a word is a given keyword if and only if in capitals it is spelled so, for all forty |
| `Spelling.TypeNames` | include/mosaicdb/types.h:29-35 | which words name which column type |
| `Spelling.MarkSpelled` | src/sql/sql_tokenizer.cpp:162-209 | which signs are which marks |
| `Spelling.LongestMark` | src/sql/sql_tokenizer.cpp:182-209 | one character of lookahead takes the longer mark |
| `Spelling.ComparisonSpelled` | src/sql/sql_parser.cpp:349-370 | how the six comparisons are written |
| `Spelling.NumberSpelled` | src/sql/sql_tokenizer.cpp:73-95 | a number is perhaps a minus sign, a digit, and digits with at most one point |
| `Spelling.StringSpelled` | src/sql/sql_tokenizer.cpp:97-118 | any text between single or double quotes, those inside doubled, is one string literal |
| `Spelling.Characters` | src/sql/sql_tokenizer.cpp:20-23 | the character classes and capitals |
| `Parser.SqlParser.Advance` | src/sql/sql_parser.cpp:33-35 | the cursor stays on a token |
| `Parser.SqlParser.ParseStatement` | src/sql/sql_parser.cpp:48-59 | success returns the meaning of the sentence read, and every sentence of the grammar standing at the cursor is read, up to its end |
| `Parser.SqlParser.ParseCreateTable` | src/sql/sql_parser.cpp:90-154 | both directions for CREATE TABLE, optional commas, type synonyms, constraints and key marking included |
| `Parser.SqlParser.ParseColumnType` | src/sql/sql_parser.cpp:61-88 | both directions for types, with the skipped size of text types |
| `Parser.SqlParser.ParseDropTable` | src/sql/sql_parser.cpp:156-170 | both directions for DROP TABLE |
| `Parser.SqlParser.ParseInsert` | src/sql/sql_parser.cpp:204-233 | both directions for INSERT |
| `Parser.SqlParser.ParseSelect` | src/sql/sql_parser.cpp:235-283 | both directions for SELECT |
| `Parser.SqlParser.ParseUpdate` | src/sql/sql_parser.cpp:285-312 | both directions for UPDATE |
| `Parser.SqlParser.ParseDelete` | src/sql/sql_parser.cpp:314-328 | both directions for DELETE |
| `Parser.SqlParser.ParseWhere` | src/sql/sql_parser.cpp:330-347 | both directions for WHERE |
| `Parser.SqlParser.ParseCondition` | src/sql/sql_parser.cpp:349-370 | both directions for a condition |
| `Parser.SqlParser.ParseValue` | src/sql/sql_parser.cpp:172-202 | both directions for a literal; the value is canonical |
| `Grammar.WhereMeaning` | src/sql/sql_parser.cpp:330-347 | every parsed WHERE has one more condition than connectives |
| `Grammar.Marked` | src/sql/sql_parser.cpp:143-151 | exactly the columns that the key names become PRIMARY KEY and NOT NULL; nothing else of a column changes |
| `Grammar.KeyNameIs` | src/sql/sql_parser.cpp:90-154 | the key is what the last item to name one says |
| `Samples.CreateSentence` | src/sql/sql_parser.cpp:90-154 | CREATE TABLE with an INT key and a VARCHAR NOT NULL column, token by token, and what it means |
| `Samples.InsertSentence` | src/sql/sql_parser.cpp:204-233 | INSERT with names and values |
| `Samples.SelectSentence` | src/sql/sql_parser.cpp:235-283 | SELECT with WHERE, OR, ORDER BY DESC and LIMIT |
| `Samples.SelectAllSentence` | src/sql/sql_parser.cpp:235-283 | SELECT * ordered ascending without a limit |
| `Samples.UpdateSentence` | src/sql/sql_parser.cpp:285-312 | UPDATE of two columns with WHERE |
| `Samples.ShortSentences` | src/sql/sql_parser.cpp:314-328 | DELETE and DROP TABLE, with and without IF EXISTS |
| `Sql.Execute` | src/sql/executor.cpp:62-76 | every statement keeps the database consistent, after each of its writes too, reports OK or an error as stated, has its stated effect, and SELECT its answer |
| `Sql.ExecuteSql` | src/sql/executor.cpp:53-60 | every text keeps the database consistent, after each write too; one that begins with a sentence of the grammar has its effect, report and answer; any other is an error that changes nothing |
| `Sql.OtherTablesUntouched` | src/sql/executor.cpp:62-76 | no statement touches rows of a table it does not name |
| `Sql.KeysStayMarked` | src/sql/executor.cpp:160-171 | no INSERT through SQL ever generates a key |
| `Sql.StatementKeepsKeys` | src/sql/executor.cpp:62-76 | a statement leaves every row under its own key if and only if it is not an UPDATE that changes the key text of a row it selects |
| `Sql.StatementKeepsFilled` | src/sql/executor.cpp:62-76 | a statement keeps NULL out of NOT NULL columns if and only if it is not an UPDATE that selects a row and assigns one of them NULL |

## Assumptions the contracts state

- Records stay within the limits recovery accepts (`Recoverable`); a table that a call does write stays within the
  widths of its file format (`Writable`, `Storable`, `RoomFor`); rows, schemas and SQL texts are below 2^32 bytes.
- A half-written table file fails `validate` (`CrashInWrite`); disk steps take effect in program order.
- No crash is considered while records stand behind a leftover torn log tail; `LostBehindTail` shows what one would do.
- Number parsing and printing and the order of floats come from the C++ library: `Eval.Numeric` is an arbitrary
  implementation of them, constrained only by `NumericOk` and, for sorting, by the order of IEEE 754 (`DoubleOrder`).

## Left out

- SSTableWriter.Build: keys, values and files beyond the widths of their length fields, which the code truncates, are outside its contract.
- Wal.WriteAheadLog.Append: a payload size that wraps in 32 bits, after which the code writes past its buffer, is outside its contract.
- Concurrency: operations run one at a time; `get` and `scan` take no engine lock in the code, so interleavings have no defined meaning there.
- I/O failures: `fwrite`, `fsync`, `ftruncate` and file opening always succeed, so the `IO_ERROR` branches and the log messages are not modelled; partial read and write retries are byte sequences.
- `read_index` loops to the vector's `capacity()`; the model takes it to be the reserved count.
- File names: a directory is a map from sequence number to bytes; `sst_%06llu.db` and files with other names are not modelled.
- Row and schema decoding past the end of the data, undefined in the code, is None in the model.
- The relational layer runs on `KeyValue.Store`, an ordered list with the engine's contract, instead of on a `StorageEngine` object; `Refinement` shows that the contract determines every answer. Size limits of the engine are therefore not preconditions of SQL statements.
- The executor skips scanned keys without `:row:`; by `ScanExact` there are none, so the test is not modelled.
- Executor.Database.ExecSelect: `std::sort` is represented by an insertion sort; for a comparator that is not a strict weak order (NULL, NaN, mixed types) only the permutation is claimed, which the C++ library does not promise.
- SHOW TABLES, DESCRIBE (only that they change nothing), result messages, and `src/query/query.cpp`: easy members without a hard property.
- Bloom false-positive rate: probabilistic and not decided by the code.
- Server, clients, visualizer: sockets, threads and user interface.
