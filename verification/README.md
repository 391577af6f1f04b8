# Verification of miniLSM

miniLSM is a small key-value store built as a log-structured merge tree: writes go to a log and to a skip list in
memory, full memory tables are flushed to sorted table files, and level 0 files are merged into level 1. A store with
all these layers, flushed and compacted while readers search it without a lock, is meant to answer like a plain map.
These Dafny files model that code and prove the claim level by level, together with the joins between the levels.

The files, from the bottom up:

- `slices.dfy`, `coding.dfy`, `checksum.dfy`, `checksum_values.dfy`: byte order, fixed and variable-length numbers,
  table-driven CRC32 and the laws that tell it from other CRCs.
- `arena.dfy`, `entries.dfy`, `skiplist.dfy`, `skiplist_readers.dfy`: the memory pool, sorted entries, the linked
  12-level skip list, and the same list with readers interleaved between two pointer writes.
- `internal_keys.dfy`, `memtable.dfy`: internal keys, and memory tables against the history of their Adds.
- `bloom.dfy`, `wal.dfy`: the Bloom filter and the write-ahead log.
- `table_format.dfy`, `table_builder.dfy`, `table.dfy`, `table_iterator.dfy`, `table_store.dfy`: table files byte by
  byte, the builder, Open and Get, the iterator, and all of them end to end, flush and compaction output included.
- `merge.dfy`, `levels.dfy`, `compaction.dfy`, `compaction_output.dfy`, `compaction_result.dfy`,
  `compaction_survivors.dfy`, `compaction_touching.dfy`: the k-way merge, lookups in levels, what a compaction reads,
  writes and commits, which version of a key survives it, and compactions that leave files which share a key.
- `ref_counts.dfy`, `db.dfy`, `db_answers.dfy`, `db_recovery.dfy`, `db_counts.dfy`, `db_runs.dfy`, `db_reads.dfy`,
  `db_effects.dfy`, `db_logs.dfy`, `db_walks.dfy`, `db_stops.dfy`, `db_object.dfy`, `db_tables.dfy`: the database as a
  machine of steps, its invariants, whole runs, the reads, what each step and each run does in terms of the writes that
  were made, the logs and their numbers, the iterator over everything, what a stop leaves behind, the database object
  whose locked sections are those steps, and the tables and memory tables of the machine as real objects.
- `wakeups.dfy`: the one condition variable, everyone who waits on it, and what they wait for.

## What has to be assumed, and where the code differs from its comments

The unrestricted claim is false of this code. Each hypothesis is a guard or a precondition, and next to it stands a
lemma that shows what happens without it.

- Trailers are copied in host order; the stated platform is x86, so they are little-endian. The order "newer versions
  first" (include/minilsm/internal_key.h:4) then holds only under a condition, which is proved exactly
  (`VersionOrder`, `NewestFoundExactly`). What Get returns is right under a weaker one, proved exactly too
  (`MemGetIsLastAddExactly`); a write step of the machine requires that one of the memory table's history (`Faithful`).
  At most 255 Adds and no key revived after its deletion are enough (`LimitsAreFaithful`).
- Byte order of internal keys is user-key order for keys whose bytes are at least 2 (`Plain`); the exact condition for
  two arbitrary keys is `UserKeyOrderExactly`.
- The merge is documented as removing duplicates (include/minilsm/iterator.h:37). It does not: `Advance` clears
  `current_` before it tests it. The model emits every entry (`MergeDistinctExactly`).
- Sequence numbers restart in each table file and deletions are dropped by a compaction, so a key held more than once
  may be answered wrongly afterwards. Exactly when is `CompactionKeepsAnswerExactly`, and that condition is the guard of
  the machine's compaction step (`Rightful`). Overwrites inside one memory table keep to it, unless a deletion hides an
  older value there (`SoloIsGuarded`).
- Two things go wrong at a shared key between files. The overlap test can miss a level 1 file that shares its boundary
  key with level 0, and the size limit can cut an output between two versions of a key. Each can make a lookup return
  the older value (`MissedFileIsRead`, `CutKeyMisleads`). The new level 1 is then one whose files touch
  (`NewLevelTouches`), and `CompactionMeetsExactly` says exactly when it answers as before. The guard of the machine
  excludes the first and its emitting step the second; where keys are not repeated neither can happen
  (`UniqueIsGuarded`, `UniqueCutsAreWhole`).
- Only the log that the manifest names is replayed, so a stop while `imm_` is pending loses one of the two memory
  tables: `mem_` while the manifest still names the old log (`PendingStopLosesExactly`), `imm_` once a compaction commit
  has saved the new number (`CommittedStopLosesExactly`). Both happen (`NewestPutIsLost`, `PendingPutIsLost`).
- `Put(k, "")` means removal, because an empty value reads as deleted (src/db.cc:242).
- A CompactRange whose flush fails drops the pending memory table, where a background flush keeps it for another try
  (`FlushEndClears`, `FlushFailureKeeps`).
- There is one compaction at a time; a flush may run beside it.

## Model

| member | source | states |
|---|---|---|
| Slices.CompareIsLexicographic | include/minilsm/slice.h:38-50 | `compare` by memcmp and then length is the lexicographic order: negative, positive or zero exactly when the first is less, greater or equal |
| Slices.LessIsStrictTotalOrder | include/minilsm/slice.h:48-50 | the order behind `<` is irreflexive, transitive and total |
| Slices.LessCommonPrefix | include/minilsm/slice.h:38-46 | a common prefix does not change how two byte strings compare |
| Coding.FixedRoundTrip | include/minilsm/coding.h:21-36 | any number, written in any fixed width, decodes to the number modulo what the width can hold |
| Coding.FixedDigits | include/minilsm/coding.h:21-36 | byte i of a fixed-width number is its digit of 256 to the power i, the least significant first |
| Coding.Fixed32RoundTrip | include/minilsm/coding.h:21-28 | four encoded bytes of any number decode to it modulo 2^32 |
| Coding.Fixed64RoundTrip | include/minilsm/coding.h:29-36 | eight encoded bytes of any number decode to it modulo 2^64 |
| Coding.FixedInjective | include/minilsm/coding.h:24-36 | equal decoded numbers of equal width come from equal bytes |
| Coding.VarintRoundTrip | src/coding.cc:41-95 | a varint placed anywhere in a buffer reads back as the number and the position behind it, whatever follows |
| Coding.VarintCut | src/coding.cc:52-63 | a varint cut before its last byte never reads as a number |
| Coding.VarintSize | src/coding.cc:33-39 | a number needs at most n bytes exactly when it is below 128^n |
| Coding.VarintDigits | src/coding.cc:42-51 | byte i of a varint holds the digit of 128 to the power i, with 128 added on every byte but the last |
| Coding.Varint32Length | src/coding.cc:33-39 | the length table equals the length of the actual encoding for every 32-bit number |
| Coding.VarintEncode | src/coding.cc:41-50 | the encoding loop produces the specified varint |
| Coding.VarintDecode | src/coding.cc:52-95 | the decoding loop with its growing shift, truncating to 32 or 64 bits, equals the specified reading |
| Checksum.RegisterIsBitSerial | src/coding.cc:102-124 | feeding bytes through eight shift-and-xor steps equals feeding their bits one at a time into the division by 0xEDB88320 (section 8 of RFC 1952) |
| Checksum.InitTable | src/coding.cc:102-115 | every table entry is eight division steps of its index |
| Checksum.TableStep | src/coding.cc:117-122 | one table-driven byte step equals eight bit steps of the register |
| Checksum.ComputeCrc32 | src/coding.cc:117-124 | the table-driven loop computes for every byte string the bit-serial division started at 0xFFFFFFFF and inverted at the end |
| Checksum.StepInjective | src/coding.cc:106-111 | a division step never maps two register values to one |
| Checksum.RegisterInjective | src/coding.cc:120-122 | feeding the same bytes keeps different register values different |
| Checksum.RegisterOfWord | src/coding.cc:120-122 | four bytes fed from a register act as one xor with the word they form, followed by 32 steps |
| Checksum.CrcDetectsBurst | src/coding.cc:117-124 | changing at most four consecutive bytes, whatever surrounds them, always changes the checksum |
| ChecksumValues.Residue | src/coding.cc:117-124 | a message followed by its own checksum leaves the register 0xDEBB20E3, and has checksum 0x2144DF1C, whatever the message |
| ChecksumValues.LeadingZero | src/coding.cc:117-124 | a zero byte put in front of a message always changes its checksum |
| ChecksumValues.CheckValue | src/coding.cc:102-124 | the checksum of "123456789" is 0xCBF43926 |
| Entries.PutKeepsSorted | src/skiplist.cc:86-106 | inserting or updating a key keeps strictly increasing keys |
| Entries.PutFind | src/skiplist.cc:86-127 | inserting changes what is found for exactly that key |
| Entries.FindExactly | src/skiplist.cc:108-127 | in a sorted sequence lookup finds exactly the entries present |
| Entries.LookupNone | src/sstable.cc:238-266 | a scan finds nothing exactly when no entry has the key |
| SkipLists.SkipList.LevelsSorted | src/skiplist.cc:101-105 | along every level the keys strictly increase |
| SkipLists.SkipList.LevelsNested | src/skiplist.cc:101-105 | every node of a level is also on the level below, so each level is a subsequence of the one below |
| SkipLists.SkipList.BoundIsLowerBound | src/skiplist.cc:61-84 | the node position the search must reach is the lower bound in the sorted contents |
| SkipLists.SkipList.FindGreaterOrEqual | src/skiplist.cc:61-84 | the search ends at the first key not less than the target and leaves in `prev` the last smaller node of every level; it terminates on (level, nodes ahead) |
| SkipLists.SkipList.Contains | src/skiplist.cc:108-127 | the search reports exactly what the sorted contents hold for the key |
| SkipLists.SkipList.RandomHeight | src/skiplist.cc:53-59 | the height is one more for each draw divisible by four until one is not, and at most 12 |
| SkipLists.SkipList.Insert | src/skiplist.cc:86-106 | whatever is drawn, all levels stay linked and sorted, the represented map changes by exactly that key, and a new node has that key and the drawn height |
| SkipLists.SkipList.UpdateValue | src/skiplist.cc:90-96 | writing a new value into a found node is an update of that key alone |
| SkipLists.SkipList.Link | src/skiplist.cc:98-105 | linking a new node behind its predecessors yields a list whose contents gained exactly that entry |
| SkipLists.SkipList.LinkLevel | src/skiplist.cc:102-105 | one iteration of the linking loop changes one pointer of the new node and one of its predecessor |
| SkipListReaders.StepKeepsInv | src/skiplist.cc:61-105 | every interleaved step, be it one pointer write of an Insert or one pointer read of any reader, keeps the list's invariant |
| SkipListReaders.PublishLinks | src/skiplist.cc:101-105 | after one level is linked, every pointer of that level leads to the next key of that level |
| SkipListReaders.RunKeepsInv | src/skiplist.cc:61-105 | the invariant holds in every state of every interleaving of one writer and any number of readers |
| SkipListReaders.SearchIsExact | src/skiplist.cc:61-84 | a reader that finishes has found the least key not below its target at the instant of its last level-0 read; a target present when the search began is never missed |
| SkipListReaders.HistoryIsHonest | src/skiplist.cc:61-84 | what a search records about itself is what happened: the keys present when it began, and those present at its last level-0 read |
| InternalKeys.InternalKeyRoundTrip | include/minilsm/internal_key.h:44-75 | user key and sequence number are recovered from an internal key |
| InternalKeys.InternalKeyLayout | include/minilsm/internal_key.h:65-75 | an internal key is the user key, a type byte 0 for a deletion and 1 for a value, and the complemented number with its least significant byte first |
| InternalKeys.InternalKeyInjective | include/minilsm/internal_key.h:68-75 | different user keys or sequence numbers give different internal keys |
| InternalKeys.UserKeyOrderFirst | include/minilsm/internal_key.h:1-4 | for keys whose bytes are all at least 2, internal keys of different user keys compare as the user keys do |
| InternalKeys.UserKeyOrderExactly | include/minilsm/internal_key.h:1-4 | for any two keys, that agreement holds if and only if neither extends the other by bytes that sort on the wrong side of the shorter key's trailer |
| InternalKeys.SmallBytesBreakTheOrder | include/minilsm/internal_key.h:1-4 | a concrete key with a zero byte for which the agreement fails |
| InternalKeys.LookupCompares | include/minilsm/internal_key.h:77-81 | a lookup key precedes every stored version of its key and otherwise compares by user key |
| InternalKeys.ComplementOrder | include/minilsm/internal_key.h:29-31 | little-endian bytes of complemented numbers compare by the lowest byte in which the numbers differ, growing numbers first |
| InternalKeys.VersionOrder | include/minilsm/internal_key.h:1-4 | exactly when one version of a key sorts before another: deletions before values, then by the sequence numbers compared from their lowest byte up |
| InternalKeys.NewestFirstBelow256 | include/minilsm/internal_key.h:4-4 | up to number 255, of two versions of one key and one type the newer internal key sorts first, as documented |
| InternalKeys.NewestFirstFails | include/minilsm/internal_key.h:4-4 | it fails at 256: version 255 sorts before version 256 |
| InternalKeys.FindVersionIsLookup | src/sstable.cc:268-297 | in sorted plain entries the search for a lookup key finds the value of the first entry of the key, whatever the trailers |
| MemTables.StoredExactly | src/memtable.cc:43-49 | the skip list holds exactly one entry for each Add, in key order; no Add overwrites another |
| MemTables.MemGetIsFirstVersion | src/memtable.cc:51-66 | for plain keys Get returns the version of the key that sorts first, and nothing exactly when the key was never added |
| MemTables.NewestFoundExactly | src/memtable.cc:51-66 | the version that sorts first is that of the last Add if and only if its trailer sorts before those of all earlier versions |
| MemTables.MemGetIsLastAddExactly | src/memtable.cc:51-66 | Get returns the value of the last Add if and only if the Add whose trailer sorts first has that value |
| MemTables.LimitsSuffice | src/memtable.cc:43-66 | at most 255 Adds with no key revived after a deletion are enough for that |
| MemTables.LimitsAreFaithful | src/memtable.cc:43-66 | so histories within those limits answer like a map for every key |
| MemTables.MemGetIsLastAdd | src/memtable.cc:51-66 | on a history for which that holds of every key, Get returns the last Add of any key |
| MemTables.RevivedKeyStaysDeleted | src/memtable.cc:43-66 | outside the limits: a key put again after its deletion is still reported deleted |
| MemTables.FlushEntriesSorted | src/db.cc:408-414 | what a flush hands to the builder has non-decreasing plain user keys, one entry for each Add |
| MemTables.FlushPreservesLookups | src/db.cc:405-414 | a scan of the flushed entries answers every plain key as the memory table did, whatever the order of a key's versions |
| MemTables.MemTable.Add | src/memtable.cc:43-49 | an Add extends the table's history by one entry and keeps the skip list equal to what the history determines |
| MemTables.MemTable.Get | src/memtable.cc:51-66 | Get over the real skip list returns what the history determines, and the last Add within the limits |
| MemTables.MemTableIterator.Next | src/memtable.cc:12-38 | the iterator moves to the next entry of the sorted contents |
| MemTables.MemTableIterator.Seek | src/memtable.cc:23-27 | Seek moves forward to the first entry from here on that is not below the target |
| BloomFilters.FnvHash | src/bloom.cc:13-20 | the hashing loop computes the 32-bit FNV value |
| BloomFilters.FnvCheckValues | src/bloom.cc:13-20 | the hash takes the published FNV-1a values on "", "a" and "foobar" |
| BloomFilters.RotateMovesBits | src/bloom.cc:30-38 | the second hash is the first with every bit moved down by 17 places, the lowest ones to the top |
| BloomFilters.CreateFilter | src/bloom.cc:91-122 | the built filter has set exactly the probed bits of exactly the given keys, none lost, behind the eight-byte header |
| BloomFilters.SetProbes | src/bloom.cc:103-112 | one key's loop sets the bits that Hash's closed form names and clears none |
| BloomFilters.HeldKeysAreCovered | src/bloom.cc:55-64 | a filter that holds a key list covers every key in it: no false negatives |
| BloomFilters.BloomFilter.MayContain | src/bloom.cc:55-64 | it answers yes exactly when all probed bits are set |
| BloomFilters.BloomFilter.Add | src/bloom.cc:41-53 | adding a key sets its probes and keeps all earlier bits |
| BloomFilters.FilterRoundTrip | src/bloom.cc:66-82 | decoding an encoded filter gives back its bits and, as 32-bit numbers, both its parameters |
| BloomFilters.BloomFilter.Decode | src/bloom.cc:76-82 | Decode sets exactly what that parsing yields; fewer than eight bytes are refused and change nothing |
| Wal.WALWriter.AddRecord | src/wal.cc:47-70 | a record is appended behind what the file held, with lengths and a checksum of everything before it |
| Wal.WALReader.ReadLen | src/wal.cc:105-119 | the length loop, whose overflow check precedes the terminator test, accepts exactly varints of at most four bytes |
| Wal.WALReader.ReadRecord | src/wal.cc:89-162 | one call delivers what the record grammar says: a record, the end of the log, or corruption |
| Wal.Recover | src/wal.cc:164-192 | recovery delivers exactly the records before the log ends or goes bad, in order |
| Wal.RecordLayout | src/wal.cc:47-70 | a record is the kind, the key behind its length, the value behind its length, and the checksum of all of that |
| Wal.WrittenIsReadExactly | src/wal.cc:47-162 | a written record is read back if and only if its key and its value are shorter than 2^28 bytes |
| Wal.CutIsRefused | src/wal.cc:94-152 | a record cut at any byte short of its end is not delivered |
| Wal.CutLogDelivers | src/wal.cc:89-192 | writing any readable records and cutting the log at any byte, recovery delivers exactly the records wholly before the cut |
| Wal.LogRoundTrip | src/wal.cc:164-192 | an uncut log gives back every record |
| Wal.DamageIsReported | src/wal.cc:154-159 | changing at most four consecutive bytes of a record's key, or of its value, makes the reader report corruption |
| TableFormat.BlockEntry | src/sstable_builder.cc:136-141 | an entry of a block lies at the offset that the entries before it add up to |
| TableFormat.BlockParts | src/sstable_builder.cc:150-187 | the end of the entries can be computed back from the restart count, and the block's checksum holds |
| TableFormat.RestartAt | src/sstable_builder.cc:131-134 | restart i of a block is where entry 16 * i begins, and there is one for every sixteenth entry |
| TableFormat.BlockRestart | src/sstable_builder.cc:161-166 | the restart points are stored behind the entries, four bytes each, and entry 16 * i stands at the i-th of them |
| TableFormat.BlockAt | src/sstable_builder.cc:195-202 | each index entry's offset and size cut exactly its block out of the file |
| TableFormat.FooterParts | src/sstable_builder.cc:277-285 | the four numbers, the magic number 0x4C534D54 and a zero are read back from the footer |
| TableFormat.FileParts | src/sstable_builder.cc:211-290 | a file is its data blocks, the index block, the filter block and the footer that says where they lie |
| TableFormat.HandleParts | src/sstable_builder.cc:228-234 | offset and size are read back from a block handle |
| TableFormat.FlattenAt | src/sstable_builder.cc:126-148 | the blocks one after another hold the added entries in order |
| TableFormat.ParseEntry | src/sstable.cc:238-249 | parsing at an entry's offset yields the entry and the offset behind it |
| TableFormat.EntryParts | src/sstable_builder.cc:136-141 | an entry is a zero, the key behind its length and the value behind its length |
| TableBuilders.SSTableBuilder.Add | src/sstable_builder.cc:108-148 | an Add extends the added sequence by one entry and keeps blocks, restart points, keys and offsets equal to what that sequence determines |
| TableBuilders.SSTableBuilder.MakeRoom | src/sstable_builder.cc:126-129 | the open block is cut exactly when it is not empty and the entry would overfill it, and no entry is lost |
| TableBuilders.SSTableBuilder.FlushBlock | src/sstable_builder.cc:150-208 | the open block is written with restarts, count and checksum and listed in the index |
| TableBuilders.SSTableBuilder.Finish | src/sstable_builder.cc:210-305 | the finished file is exactly the format of the added entries with a filter that holds all their keys; a second call changes nothing |
| TableBuilders.BuildIndex | src/sstable_builder.cc:219-252 | the index loop produces the specified index block |
| Tables.FindBlock | src/sstable.cc:280-289 | the index search reaches the block that holds the wanted position, or the last one |
| Tables.PositionInBlock | src/sstable.cc:280-296 | within that block the first entry not below the key is the one wanted from the whole table |
| Tables.BinarySearchInBlock | src/sstable.cc:215-266 | the block scan finds the version searched for; short blocks are not found, bad checksums are corruption |
| Tables.ParseIndex | src/sstable.cc:115-151 | the parsing loop of Open recovers the index that was written |
| Tables.ReadFooter | src/sstable.cc:63-85 | short files and wrong magic numbers are corruption; otherwise the four numbers are recovered |
| Tables.ReadIndex | src/sstable.cc:92-151 | reading the index block back, and its error for a bad checksum or a range outside the file |
| Tables.ReadBloom | src/sstable.cc:183-198 | an intact filter is loaded with its bits and its number of probes |
| Tables.EndKeys | src/sstable.cc:153-181 | the first and last key are those of the first and the last added entry, empty for an empty table |
| Tables.SSTable.Open | src/sstable.cc:47-202 | a well-formed file opens to a reader that stands for its blocks and filter; short files and bad magic numbers are refused |
| Tables.SSTable.Get | src/sstable.cc:268-297 | on a table built from sorted plain entries: the value of the first entry added for the key, or NotFound when there is none |
| Tables.FilterRulesOut | src/sstable.cc:269-272 | a negative filter answer means that no entry has the key |
| Tables.SearchEndsRight | src/sstable.cc:276-296 | index search and block scan together agree with a scan of the added entries |
| TableIterators.SSTableIterator.SeekToFirst | src/iterator.cc:30-39 | the iterator stands on the first added entry, or is invalid on an empty table |
| TableIterators.SSTableIterator.Next | src/iterator.cc:86-112 | Next moves from any added entry to the one after it, across block boundaries |
| TableIterators.SSTableIterator.Seek | src/iterator.cc:41-84 | after Seek the iterator stands on the first added entry whose plain user key is not below the target, or is invalid if there is none |
| TableIterators.SeekEndsRight | src/iterator.cc:47-80 | index search plus block scan equal the lower bound among the added entries |
| TableStores.FinishedIsSound | src/sstable_builder.cc:210-305 | what Finish leaves is a well-formed table, its length included, as long as the filter's number of bits is a 32-bit number |
| TableStores.FileBound | src/sstable_builder.cc:254-290 | such a file's length is below 2^64 |
| TableStores.WriteThenGet | src/sstable.cc:268-297 | Add, Finish, Open, Get end to end: the value of the first added entry with the key, or NotFound |
| TableStores.WriteThenWalk | src/iterator.cc:30-112 | Add, Finish, Open, iterate: exactly the added entries, once and in order |
| TableStores.Flush | src/db.cc:405-427 | iterating a memory table into a builder and opening the file gives a table that serves the memory table's entries |
| TableStores.FlushThenGet | src/db.cc:405-427 | the flushed table answers every plain key as the memory table did |
| TableStores.CompactFiles | src/db.cc:496-566 | for inputs of any number of entries, the merge loop with its size limit writes exactly the entries to keep, in order, into non-empty tables that each answer for their part |
| TableStores.RoomyBuilder | src/db.cc:516-541 | the current builder is kept exactly while its blocks are below 2 MiB; otherwise it is finished and opened and an empty one takes over, nothing lost |
| Merging.LeastFromIsLeast | src/iterator.cc:242-250 | the heap's top has the least key, the lower child index among equals |
| Merging.MergeInterleaves | src/iterator.cc:168-240 | the output is an interleaving: what came from each child is that child, in order, and nothing else |
| Merging.MergeMembers | src/iterator.cc:220-239 | every input entry is emitted, and only those |
| Merging.MergeSorted | src/iterator.cc:220-250 | user keys never decrease overall when each child's plain user keys never decrease |
| Merging.MergeIterator.constructor | src/iterator.cc:170-179 | a new merge stands on the least head of all children |
| Merging.MergeIterator.PopNext | src/iterator.cc:220-240 | after Advance the iterator stands on the least head of all children, buffered; the duplicate test never fires, because current_ is cleared before it |
| Merging.MergeIterator.PopLeast | src/iterator.cc:223-224 | popping the priority queue yields the child with the least head |
| Merging.MergeIterator.Next | src/iterator.cc:202-214 | Next drops exactly the current entry from what the merge will still emit |
| Merging.Drain | src/iterator.cc:168-240 | a full run emits the whole merge and ends after as many steps as the children have entries |
| Levels.GetFromLevel | src/db.cc:271-294 | the loop over left and right equals the specified search of a level |
| Levels.SearchIsHeld | src/db.cc:273-294 | on files with ordered disjoint ranges the search reaches the one file that can hold the key: a hit is held, a miss means that nothing is |
| Levels.SearchReaches | src/db.cc:273-294 | and it answers as a lookup in that file |
| Levels.SearchLands | src/db.cc:273-294 | where neighbouring files share a key, the search answers for whichever of them its midpoints meet first, computed from the positions alone |
| Levels.TouchingIsMet | src/db.cc:273-294 | a lookup in such a level answers as the file that the midpoints meet first, and misses exactly when no file holds the key |
| Levels.OutsideRange | src/db.cc:276-283 | a file whose range misses the key cannot be the one that holds it |
| Levels.NewestIsHeld | src/db.cc:251-267 | level 0 hits exactly when one of its tables holds the key |
| Compactions.SelectInputs | src/db.cc:472-491 | the two loops compute the key range of level 0 and the indices of the overlapping level 1 files |
| Compactions.HullBounds | src/db.cc:472-478 | no table of level 0 reaches outside that range |
| Compactions.HullIsMet | src/db.cc:472-478 | both ends of that range are ends of level 0 tables |
| Compactions.EraseLeavesUnflagged | src/db.cc:597-605 | erasing the saved indices from the largest down leaves exactly the files that were not selected |
| CompactionOutputs.LiveMembers | src/db.cc:511-548 | exactly the entries of the inputs whose value is not empty are written |
| CompactionOutputs.LiveIsSorted | src/db.cc:511-548 | whatever the inputs hold, the written user keys never decrease |
| CompactionOutputs.LiveIsStrict | src/db.cc:511-548 | when no key occurs twice in the inputs the written user keys strictly increase |
| CompactionOutputs.ChunksOrdered | src/db.cc:516-541 | cutting sorted entries into non-empty files, anywhere but between two versions of a key, gives an ordered level |
| CompactionOutputs.ChunksTouch | src/db.cc:516-541 | cut anywhere, the files overlap in boundary keys at most |
| CompactionOutputs.UniqueCutsAreWhole | src/db.cc:516-541 | where no key is written twice, any cut will do |
| Survivors.MergeDistinctExactly | src/iterator.cc:226-233 | the merged output has distinct user keys if and only if the inputs have: the merge removes no duplicates, although include/minilsm/iterator.h:37 and README.md:28 say it does |
| Survivors.LeastVersionSurvives | src/iterator.cc:220-250 | of the children's first live versions of a key the first one written is the one with the least internal key, the lower child index among equals; no child need be sorted within a key |
| Survivors.SurvivorAnswers | src/db.cc:496-548 | what the merged entries answer for any key, whatever tables hold it and however often, from positions alone |
| Survivors.MergeAnswersExactly | src/db.cc:496-548 | the merged entries answer as the tables did before if and only if that survivor is the version that answered before |
| Survivors.OneTableExactly | src/db.cc:511-548 | a key held by one table, any number of times, is answered rightly if and only if its first entry is live or none is |
| Survivors.TwoInLevel0Exactly | src/db.cc:496-548 | exactly when a key held by two level 0 tables and no merged level 1 file is answered rightly, whatever else is merged: nothing hidden in the newer one, and the values agree or the newer one's number exceeds the older one's at the lowest byte where they differ |
| Survivors.Level0OverLevel1Exactly | src/db.cc:496-548 | exactly when a key held by a level 0 table over a level 1 file is answered rightly; the tie-break is the other way round, since level 0 comes first among the children |
| CompactionResults.SortOrders | src/db.cc:613-617 | sorting files with pairwise disjoint ranges by first key puts them in order |
| CompactionResults.KeptBeside | src/db.cc:480-490 | a level 1 file that is left out and shares no key with level 0 lies wholly on one side of everything that is merged |
| CompactionResults.NewLevelOrdered | src/db.cc:597-617 | if every level 1 file that shares a key with level 0 is merged and no key is cut in two, the new level 1 is sorted with pairwise disjoint user-key ranges; in general it is `NewLevelTouches` |
| CompactionResults.NewLevelHolds | src/db.cc:586-617 | whatever the overlap test misses and wherever outputs are cut, the new level 1 holds nothing that was not held before, and everything that was and is not a deletion |
| CompactionResults.LevelIsScan | src/db.cc:273-294 | a lookup in an ordered level is a scan of its files one after another |
| CompactionResults.CompactionKeepsAnswerExactly | src/db.cc:455-628 | if every level 1 file that shares a key with level 0 is merged and no key is cut in two, a compaction leaves the answer for a key unchanged if and only if the version that survives the merge, found from positions in the tables, is the one that answered before; in general it is `CompactionMeetsExactly` |
| CompactionResults.CompactionKeepsAnswer | src/db.cc:455-628 | under the guard that this survivor is the right one for every key, the new level 1 answers every lookup as the old two levels did |
| CompactionResults.SoloIsGuarded | src/db.cc:455-628 | the guard holds when no key is in two files and no deletion hides an older value within one, however often keys are overwritten inside a memory table |
| CompactionResults.UniqueIsGuarded | src/db.cc:455-628 | in particular when no user key occurs twice in levels 0 and 1 |
| CompactionResults.DeletedKeyComesBack | src/db.cc:515-515 | a deletion in level 0 over a value in level 1 is dropped and the older value reappears |
| TouchingCompactions.TouchingFileIsMissed | src/db.cc:480-490 | the overlap test compares internal keys and can miss a level 1 file that shares its boundary key with level 0 |
| TouchingCompactions.TouchingAnswersExactly | src/db.cc:273-294 | a lookup among files that share a key answers for the first of them if and only if the file that the search meets first has the same value |
| TouchingCompactions.TouchingFilesMislead | src/db.cc:273-294 | after any file that holds a key, a one-entry file with another value for it answers in its place if it is the middle one of three |
| TouchingCompactions.NewLevelTouches | src/db.cc:455-617 | after any compaction whose resulting files begin with different user keys the new level 1 is sorted and its files overlap in boundary keys at most, whatever the overlap test missed and wherever outputs were cut |
| TouchingCompactions.LiveFirstKeys | src/db.cc:613-617 | for files that begin with a value and not a deletion, to begin with different user keys is to differ in the internal first keys that are sorted by |
| TouchingCompactions.CompactionMeetsExactly | src/db.cc:455-628 | after any such compaction a lookup answers as before if and only if the file that its midpoints meet first, computed from positions, has the value that answered before, or no file holds the key and it was gone |
| TouchingCompactions.AnyOrderMeetsExactly | src/db.cc:273-294 | the same for every order of the new files in which they overlap in boundary keys at most, so also for equal first keys in any such order that the sort leaves |
| TouchingCompactions.MissedFileIsRead | src/db.cc:480-490 | a compaction that misses a level 1 file, from its inputs to its commit: a lookup then finds the older value of that file and not the one of level 0 |
| TouchingCompactions.CutKeyMisleads | src/db.cc:516-541 | a compaction that cuts a key, from its input to its commit: a lookup then finds the older of the two versions of one table |
| RefCounts.UnrefKeeps | include/minilsm/sstable.h:42-46 | Unref by a leaving holder keeps counts equal to holders and deletes the object exactly with the last one |
| RefCounts.UnrefAllKeeps | src/db.cc:622-623 | the same for a loop of Unrefs |
| DatabaseAnswers.WriteKeeps | src/db.cc:188-204 | Put and Delete keep the invariant: the store then answers like the updated map; what the map is updated to is `PutAnswers`, `DeleteAnswers` and `ModelIsWritten` |
| DatabaseAnswers.RotateKeeps | src/db.cc:342-350 | switching memory tables changes no lookup |
| DatabaseAnswers.FlushedAnswers | src/db.cc:437-444 | a table appended to level 0 answers in place of the memory table it was built from |
| DatabaseAnswers.CommitFlushKeeps | src/db.cc:437-446 | a flush commit changes no lookup and keeps a running compaction's snapshot a prefix of level 0 |
| DatabaseAnswers.RemoveSnapshot | src/db.cc:587-593 | find-and-erase of the snapshot leaves exactly what was flushed since |
| DatabaseAnswers.CommittedAnswers | src/db.cc:582-627 | the commit changes no lookup whatever was flushed into level 0 after the snapshot |
| DatabaseAnswers.CommitCompactKeeps | src/db.cc:582-627 | the commit keeps the whole invariant |
| DatabaseRecovery.LogReplays | src/db.cc:162-178 | replaying a log gives back exactly the memory table that was written beside it |
| DatabaseRecovery.WriteIsDurable | src/db.cc:193-203 | a write keeps the log equal to the memory table |
| DatabaseRecovery.CommitFlushIsDurable | src/db.cc:437-445 | after a flush commit the manifest lists the levels and names the log of mem_ |
| DatabaseRecovery.ErasedAreFlagged | src/db.cc:598-605 | the files erased and unlinked by the saved indices are exactly the merged ones |
| DatabaseRecovery.CommitMoves | src/db.cc:586-611 | the commit loses no table but its inputs and adds none but its outputs |
| DatabaseRecovery.CommitCompactIsDurable | src/db.cc:586-619 | no file that a level still needs is unlinked, and the manifest lists the new levels |
| DatabaseRecovery.OpenFilesRestores | src/db.cc:793-805 | opening the listed files gives tables with the same contents |
| DatabaseRecovery.RecoverRestores | src/db.cc:157-184 | recovery rebuilds the same levels, file by file, and the same memory table |
| DatabaseRecovery.RecoverKeepsAnswers | src/db.cc:157-184 | after a stop with nothing pending in imm_ every lookup answers as before |
| DatabaseRecovery.RecoverIsDurable | src/db.cc:157-184 | the reopened store satisfies the same invariant, file numbers included |
| DatabaseCounts.NothingFreedIsUsed | src/db.cc:206-303 | everything a Get may still read has not been deleted |
| DatabaseCounts.CommitBags | src/db.cc:586-617 | who is in the levels before and after a commit, by identity |
| DatabaseCounts.CommitCompactCounts | src/db.cc:586-623 | the two Unrefs of each input are the level's reference and the snapshot's |
| DatabaseCounts.CommitFlushCounts | src/db.cc:437-446 | the flush hands its table to the level and drops the store's reference to imm_ |
| DatabaseCounts.ReleaseReadCounts | src/db.cc:299-306 | each Unref of a finished reader gives up one reference it held |
| DatabaseCounts.CloseFreesEverything | src/db.cc:91-122 | with no reader left the destructor deletes every table and every memory table ever made |
| DatabaseCounts.ReopenCounts | src/db.cc:126-184 | a reopened store starts with one reference for each open table |
| DatabaseRuns.StepInv | src/db.cc:188-656 | every step of writers, flush, compaction, readers and reopening keeps answers, durability and counts together |
| DatabaseRuns.RunInv | src/db.cc:188-656 | so every reachable state satisfies them |
| DatabaseRuns.AnswersLikeAMap | src/db.cc:188-326 | at every moment of every run the store answers like a plain map, which is that of the writes made (`ModelIsWritten`) |
| DatabaseRuns.LevelsStayOrdered | src/db.cc:586-617 | in every reachable state level 1 is sorted with disjoint ranges, and levels 2 and 3 are empty |
| DatabaseRuns.CountsAreHolders | src/db.cc:206-303 | in every reachable state each count is the number of holders, and deleted means held by nobody |
| DatabaseRuns.ReopensAsItWas | src/db.cc:157-184 | whenever imm_ is null the manifest names the current log, the log replays to mem_, and the reopened store answers like the map |
| DatabaseReads.SearchKeepsRemaining | src/db.cc:236-297 | each unlocked step of a Get keeps what the rest of it would return |
| DatabaseReads.StartsWithAnswer | src/db.cc:212-233 | a Get starts with the answer of the whole store at its snapshot |
| DatabaseReads.WriteSeen | src/db.cc:240-243 | a write during the search is invisible or makes the search answer like the map after the write |
| DatabaseReads.SearchIsOnCourse | src/db.cc:206-309 | at every later moment the rest of the search would return something the map held since the snapshot |
| DatabaseReads.GetIsLinearizable | src/db.cc:206-309 | in every run each Get returns what that map held for its key at some moment between its snapshot and its return |
| DatabaseReads.SearchEnds | src/db.cc:236-297 | each step brings a Get closer to its return |
| DatabaseEffects.PutAnswers | src/db.cc:188-204 | after a Put its key is answered with the new value, or as absent if that is empty, and every other key as before |
| DatabaseEffects.DeleteAnswers | src/db.cc:311-326 | after a Delete its key is absent and every other key is answered as before |
| DatabaseEffects.OthersAnswer | src/db.cc:206-656 | no rotation, flush, compaction, read or reopening changes an answer |
| DatabaseEffects.ModelIsWritten | src/db.cc:188-326 | in a run given with its actions, the map of every state is the fold of the Puts and Deletes taken so far |
| DatabaseEffects.LastWrittenExactly | src/db.cc:188-326 | a key has a value in that fold if and only if some Put wrote it, it is not empty, and no later Put or Delete has the key |
| DatabaseEffects.RunHasActions | src/db.cc:188-656 | every run has such actions |
| DatabaseEffects.AnswersAreTheWrites | src/db.cc:188-326 | in every state of every run a key is answered with what was last written to it |
| DatabaseEffects.ReopenedHasTheWrites | src/db.cc:157-184 | so it is in a store reopened from disk whenever imm_ is null |
| DatabaseEffects.GetReturnsAWrite | src/db.cc:206-309 | every Get returns what had last been written to its key at some moment between its snapshot and its return |
| DatabaseEffects.RotationStartsAfresh | src/db.cc:342-350 | a rotation leaves the full table pending beside an empty one, and the next log empty |
| DatabaseEffects.FlushPublishes | src/db.cc:437-446 | a committed flush leaves nothing pending and the table of its entries on disk, newest in level 0 and listed in the manifest |
| DatabaseEffects.CompactionTakes | src/db.cc:459-492 | a compaction takes all of level 0 and exactly the level 1 files whose internal keys reach into those of level 0 from both sides |
| DatabaseEffects.CompactionPublishes | src/db.cc:582-619 | its commit leaves in level 0 exactly what was flushed in the meantime, and trades in level 1 what was taken for outputs that hold the live entries of the merge, as the manifest then says |
| DatabaseEffects.ReleaseGivesOne | src/db.cc:299-306 | every release gives back one reference, so a reader comes to hold none |
| DatabaseLogs.NoNumberIsLarger | src/db.cc:163-171 | after a replay last_sequence_ is at least every number in the log |
| DatabaseLogs.SomeNumberIsThat | src/db.cc:163-171 | and it is one of them, or 0, when no key is too short to have a number |
| DatabaseLogs.ShortKeysCount | src/db.cc:172-176 | a log whose keys are all too short is counted |
| DatabaseLogs.RecoveredNumber | src/db.cc:157-184 | the first two for last_sequence_ of a store that has just been opened |
| DatabaseLogs.LogIsTheWrites | src/db.cc:188-204 | in every reachable state the current log holds one record for each Put and Delete since the last rotation, in order, of the right kind and type, under consecutive numbers that end at last_sequence_, and the memory table holds the same writes |
| DatabaseLogs.NumbersGrow | src/db.cc:157-204 | in every log of every reachable state the numbers strictly increase, across rotations and reopenings, and none in the current one exceeds last_sequence_ |
| DatabaseStops.StopKeepsExactly | src/db.cc:157-184 | whenever the process stops, a reopened store answers from all tables and the one memory table whose log the manifest names |
| DatabaseStops.PendingStopLosesExactly | src/db.cc:342-363 | a stop while imm_ is pending and the manifest still names its log leaves a lookup unchanged if and only if mem_ has no version of the key or one that answers as the layers below it |
| DatabaseStops.CommittedStopLosesExactly | src/db.cc:586-619 | a stop after a compaction commit has saved the new log number while imm_ is pending leaves a lookup unchanged if and only if mem_ has the key, or imm_ has not, or imm_ answers as the tables do |
| DatabaseStops.NewestPutIsLost | src/db.cc:342-363 | a run of Put, rotation and Put after which a stop loses the second Put |
| DatabaseStops.PendingPutIsLost | src/db.cc:582-619 | a run of Delete, rotation, flush, Put, rotation and compaction after which a stop loses the Put |
| DatabaseStops.FlushedFrom | src/db.cc:396-447 | from any state with a table pending and nobody flushing, the four steps of a flush can be taken and end with the table in level 0 |
| DatabaseObjects.DB.Put | src/db.cc:188-204 | the locked body appends one log record, adds to the memory table, and is the machine's write step |
| DatabaseObjects.DB.Delete | src/db.cc:311-326 | the same with a deletion record and an empty value |
| DatabaseObjects.DB.SwitchMemTable | src/db.cc:342-350 | mem_ becomes imm_, with a new table and the next log |
| DatabaseObjects.DB.ClaimFlush | src/db.cc:396-402 | the flush is claimed once, exactly when imm_ is set and not being flushed |
| DatabaseObjects.DB.CommitFlushed | src/db.cc:437-446 | the locked commit is the machine's flush commit |
| DatabaseObjects.DB.WriteManifest | src/db.cc:723-752 | the loops over levels and files save exactly the levels and the two numbers |
| DatabaseObjects.DB.ChooseInputs | src/db.cc:462-492 | the snapshot loops are the machine's first compaction step |
| DatabaseObjects.DB.CommitCompacted | src/db.cc:583-627 | find, erase, unlink, sort and both rounds of Unrefs are the machine's compaction commit |
| DatabaseObjects.DB.RemoveLevel0 | src/db.cc:587-595 | the loop over the snapshot |
| DatabaseObjects.DB.RemoveLevel1 | src/db.cc:597-605 | the loop over the saved indices |
| DatabaseObjects.DB.Recovery | src/db.cc:157-184 | manifest, replay and log reopening are the machine's recovery |
| DatabaseObjects.DB.ReplayLog | src/db.cc:163-178 | the replay callback, with both key formats and the sequence number, which is characterised by `RecoveredNumber` |
| DatabaseObjects.DB.TakeSnapshot | src/db.cc:212-233 | the locked snapshot takes one reference to every layer |
| DatabaseObjects.DB.Get | src/db.cc:206-309 | an uninterrupted Get answers for the whole store and leaves everything, counts included, as it was |
| DatabaseObjects.Search | src/db.cc:236-297 | the unlocked search answers from the newest layer of the snapshot that has the key, an empty value meaning deleted |
| DatabaseTables.BuildFlushed | src/db.cc:404-427 | the table object that a flush builds from the memory table object serves the file that the machine's step records |
| DatabaseTables.OutputsAreEmitted | src/db.cc:506-566 | files that cut no key in two, one after another the entries to write, are emitted by steps of the machine, which then holds exactly them |
| DatabaseTables.EndKeysServe | include/minilsm/sstable.h:34-35 | the user keys of an open table's first and last key are those of its entries |
| DatabaseTables.SearchTables0 | src/db.cc:251-267 | the level 0 loop over open table files answers as the machine's level 0 |
| DatabaseTables.SearchTables | src/db.cc:271-294 | the binary search over open table files and their own first and last keys answers as the machine's level |
| DatabaseTables.SearchObjects | src/db.cc:236-297 | the unlocked search over skip lists and table files answers as the machine's search of the snapshot |
| DatabaseWalks.WalkAll | src/db.cc:639-656 | merging the iterators of mem_, imm_ and every table to the end yields the walk |
| DatabaseWalks.WalkMembers | src/db.cc:639-656 | an entry is in the walk exactly when some layer holds it |
| DatabaseWalks.WalkYields | src/db.cc:639-656 | the walk yields the entries of mem_, of imm_ if there is one and of every file of the four levels, each as often as they hold it |
| DatabaseWalks.WalkInterleaves | src/db.cc:639-656 | and what it takes from each of these layers, counted from mem_ down, comes in that layer's own order |
| DatabaseWalks.WalkIsSorted | src/db.cc:639-656 | its user keys never decrease, and strictly increase when no key is held in two versions |
| DatabaseWalks.WalkIsTheMap | src/db.cc:639-656 | when no key is held in two versions, the walk is in strict key order and looking a key up in it answers as the plain map: it is the map and its deletions |
| DatabaseWalks.EveryWalkIsTheMap | src/db.cc:639-656 | all of that holds in every reachable state of the database |
| Wakeups.RotationReachesBackground | src/db.cc:630-635 | the notify_one at a rotation can only reach the background thread, and does if that thread sleeps |
| Wakeups.OneFlusherStays | src/db.cc:396-402 | at most one thread is flushing, and imm_flushing_ says whether one is |
| Wakeups.StepInv | src/db.cc:330-389 | every step, spurious wake-ups and failed flushes included, leaves nobody asleep who could go on |
| Wakeups.NoWakeupIsLost | src/db.cc:338-389 | in every state before shutdown a pending memory table or a full level 0 finds the background thread awake or notified, and nobody sleeps un-notified for what has already happened |
| Wakeups.PendingTableIsFlushed | src/db.cc:367-389 | with a memory table pending, every own step of the background thread brings it closer to starting the flush |
| Wakeups.OthersDoNotDelay | src/db.cc:330-363 | and no other thread's step takes it further away |
| Wakeups.FlushEndClears | src/db.cc:437-446 | a flush that ends clears imm_, adds its table to level 0 and leaves nobody asleep un-notified; a CompactRange clears imm_ even if its table could not be built (src/db.cc:684-693) |
| Wakeups.FlushFailureKeeps | src/db.cc:426-432 | a background flush that fails leaves the table pending and wakes everybody |
| Wakeups.WriterGetsThrough | src/db.cc:336-360 | a writer that looks gets through if and only if no table is pending, and then its own is |
| Wakeups.RangerFindsNothingPending | src/db.cc:661-695 | a CompactRange goes on to compact only when no table is pending |
| Wakeups.RunningFlushClears | src/db.cc:396-447 | whoever is flushing can end the flush, and then nothing is pending |
| Wakeups.FlushedWithinFive | src/db.cc:367-447 | with a table pending and no CompactRange flushing, at most five steps of the background thread by itself leave nothing pending |
| Wakeups.FullLevelIsCompacted | src/db.cc:367-389 | with level 0 full, every own step of the background thread brings it closer to compacting |
| Wakeups.OthersDoNotDelayCompaction | src/db.cc:330-363 | and no other thread's step takes it further away |
| Wakeups.CompactionLowers | src/db.cc:582-627 | a compaction takes exactly what it merged out of level 0, and nothing if it fails |
| Arenas.Arena.Allocate | src/arena.cc:19-31 | areas handed out are inside the blocks and share no byte; an empty request gets the address 1 |
| Arenas.Arena.AllocateAligned | src/arena.cc:33-47 | the address is a multiple of 8 if and only if the request is not an empty one that fits |
| Arenas.Arena.AllocateFallback | src/arena.cc:49-70 | a large request gets a block of its own; otherwise at most a quarter block and six bytes of the old block are lost |

## Left out

- Real file I/O, directories, fsync, path handling and the Windows branches: a file is a byte sequence that takes whole writes and gives exact reads.
- I/O failures in flush, compaction and log opening: the database machine assumes success (the wake-up protocol does include failed flushes and compactions).
- A stop in the middle of a locked section or of a file write: steps of the machine are atomic, so a stop falls between two of them.
- The text format of MANIFEST: it prints binary keys with `%s`; the manifest is a record of levels and two numbers.
- Weak memory and data races, including the unlocked `next_file_number_++` of a compaction: steps are sequentially consistent.
- Two compactions at once through CompactRange: the machine has one.
- Writes, flushes and compactions during a walk of DB::NewIterator: `WalkAll` is uninterrupted, in any reachable state; the references an iterator holds are in the machine.
- MergeIterator::Seek: it pushes the same heap again after seeking each child; nothing in the store calls it.
- Bloom false-positive rates, the distribution of RandomHeight, performance: random numbers are a parameter, any sequence allowed.
- Status texts, Options, Slice::subslice, remove_prefix and starts_with, SSTable::KeyInRange, tests, benchmark and debug programs: they would add only easy members.
- RefCounts.UnrefKeeps: the counts are kept in a sequence beside the objects instead of in a field of each, and deleting an object is a mark.
- Skip-list nodes are allocated objects, not arena addresses; the arena is proved on its own.
- Destruction order, shutdown and the destructor's own flush: a close starts when nothing is pending.
- Memory usage as the trigger of a rotation, and the 2 MiB cut in the machine: a rotation or a cut may come at any time there, which includes when they really come.
- Merging.MergeIterator.Next: children are cursors over the entries they yield, not SSTableIterator objects; that an SSTableIterator yields exactly those entries is `WriteThenWalk`.
- Merging.MergeIterator.PopLeast: the priority queue is a sequence from which the least element is taken, which is its contract and not its heap layout.
- CompactionResults.CompactionKeepsAnswerExactly: for levels in which every level 1 file that shares a key with level 0 is merged, and outputs that cut no key in two; the others are `CompactionMeetsExactly`.
- CompactionResults.NewLevelOrdered: the same; the others are `NewLevelTouches`.
- TouchingCompactions.CompactionMeetsExactly: for resulting files that begin with different user keys. Equal internal first keys leave the order to std::sort, so the resulting level is not determined; `AnyOrderMeetsExactly` holds for each order in which files overlap in boundary keys at most.
- CompactionResults.SortOrders: std::sort is an insertion sort here; the order of equal first keys is left open by it.
- TableIterators.SSTableIterator.Seek: requires a non-empty table, because the code reads index entry 0.
- Coding.VarintDecode: a varint that runs past its buffer is a failure here; the code would read beyond the buffer.
- Checksum.ComputeCrc32: the table is filled in each call instead of once in a global.
- BloomFilters.CreateFilter: the number of probes is 69 hundredths of the bits per key in integer arithmetic, which after clamping equals the floating-point form; the filter is below 2^32 bits.
- TableStores.WriteThenGet: key and value lengths and the filter's number of bits are 32-bit numbers, as the fields of the file have it.
- TableStores.WriteThenWalk: the same.
- SkipLists.SkipList.FindGreaterOrEqual: the scratch array `prev_` is returned as a sequence.
- SkipListReaders.SearchIsExact: the in-place update of a value is not among the interleaved steps; memory tables never reach it, because their sequence numbers are fresh.
- DatabaseReads.GetIsLinearizable: memory tables and table files are read by their proved contracts in one step each, for plain keys; that real objects answer so is `SearchObjects`, and the pointer-by-pointer interleaving is `SkipListReaders`.
- DatabaseObjects.DB.Get: an uninterrupted call; interleaved ones are the machine's.
- DatabaseRuns.ReopensAsItWas: for states without a pending memory table; the others are `StopKeepsExactly` and its two consequences.
- Wakeups.NoWakeupIsLost: before shutdown; the destructor's notify_one is not included.
- Arenas.Arena.Allocate: where `new` places a block is a parameter, aligned and apart from earlier blocks.
