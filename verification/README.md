# Verified model of the storage engine

A Dafny model of the LSM storage engine of this repository, with its hybrid logical clock, its Raft role state
machine and its block cache, and proofs about it. The classes follow the C++ classes; each method is proved against a
specification on values, and the theorems are about those values.

The engine, from the bottom up:

- `Serializer`, `Blocks`, `Bloom`, `SSTableFormat`, `SSTables`: the file format byte by byte. Writing a table and
  opening the bytes gives a reader whose `ReadAll` is the table and whose `Get` is lookup in it.
- `SkipLists`, `Memtables`: the linked nodes, refined to a sorted run of entries.
- `Merge`, `Catalogue`, `CompactionTheory`, `Compactions`: the heap merge, which file answers a lookup, and what a
  compaction does to the answers, at its end and at every step a reader can see.
- `Crc32s`, `Wals`, `Checkpoints`, `Disks`: the log under torn writes and damage, and the checkpoint under crashes. The
  disk is a map from path to bytes; a crash leaves any prefix of the operations, with a write or append cut anywhere.
- `Formats`: for every decoder, exactly the byte sequences it accepts as a given value, so that nothing cut short is
  accepted; and small examples byte by byte, which fix the order of the fields.
- `Searches`: what a search through the catalogue finds, also when catalogued files are missing.
- `EngineTheory`, `EngineStates`, `EngineSteps`: the engine stands for the log of everything written. Its state is a
  value, and every command is a step of that state. One invariant, which does not ask for durability, is kept by writes,
  flushes and compactions alike; durability is tracked beside it, with the exact steps that lose and restore it. The
  theorems say what a lookup returns after every prefix of every script.
- `EngineCrashes`: which log entries the checkpoint covers after every prefix, and what a crash anywhere in any command
  leaves, compactions and states that are not durable included.
- `Engines`, `EngineRuns`: the engine itself, whose methods take those steps, and whole runs of it: from an empty disk,
  and opening again what a crash left.
- `CompactionLimits`, `EngineLimits`, `EngineExamples`: where the code does not return the last write, with the exact
  condition of each case and concrete runs. The cases are a level-0 compaction that orders files by smallest key, a
  deleted key seen again between two removals of a compaction, a memtable tombstone that falls through to the SSTables,
  a memtable that is invisible while it is flushed, file counters that restart at 1, inputs removed before the
  checkpoint that drops them, a compaction checkpoint that names unflushed entries, and a torn record that stays in the
  log. For restarted counters the condition is exact for what a flush answers; for a compaction after a restart it says
  only which outputs are lost.

Beside it: `Hlcs` (every tick the earliest timestamp it can be, and happens-before against timestamps over runs of any
number of nodes), `Rafts` (over runs with restarts, one vote and one leader per term, and elections that can be won) and
`BlockCaches` (the recency list after every operation and over whole runs).

Conventions: `Byte` is `bv8` and keys, paths and names are byte sequences compared as unsigned bytes, as `std::string`
does. Failures are values of `Common.Result`. A `std::sort` leaves ties open. `std::priority_queue` is a bag from which
a least item is taken. The physical clock, random heights and configuration are parameters or open choices.

Where the code and its documentation differ, the model follows the code: the immutable memtable is never filled, so
lookups have two layers; the block cache is not consulted by lookups; a damaged or torn tail is not cut off the log when
it is opened again; and that nothing acknowledged is lost holds exactly under the conditions `EngineLimits` and
`EngineCrashes` state.

`dafny verify dfyconfig.toml` checks the whole project.

## Model

| member | source | states |
|---|---|---|
| `CompactionTheory.CompactionKeepsAnswers` | src/storage/compaction/compaction_manager.cpp:328-379 | A compaction from level 1 up changes the answer for no non-empty key, also when tombstones are dropped at the bottom; into any other level it does not even turn a tombstone into an absent key |
| `CompactionTheory.AnswerExact` | src/storage/compaction/compaction_manager.cpp:208-379 | Exactly which answers a compaction keeps: from level 1 up those of all non-empty keys; at level 0 those of the non-empty keys no level-0 file holds or whose first holder in smallest-key order shows the same as the newest; and that of the empty key if and only if the files left over show the same |
| `CompactionTheory.Level0AnswerExact` | src/storage/compaction/compaction_manager.cpp:208-379 | A level-0 compaction keeps the answer for a non-empty key if and only if no level-0 file holds it or the first holder in smallest-key order shows the same as the newest holder |
| `CompactionTheory.Level0KeepsAnswers` | src/storage/compaction/compaction_manager.cpp:208-379 | It keeps every answer when, of two level-0 files sharing a key, the newer comes first in smallest-key order |
| `Compactions.OrderedIsNewerFirst` | src/storage/compaction/compaction_manager.cpp:113-144 | Files sorted by smallest key come newer first, whenever of two level-0 files sharing a key the newer starts at a smaller key |
| `CompactionLimits.Level0CanRevert` | src/storage/compaction/compaction_manager.cpp:113-144 | The concrete failure: four level-0 files that ask for a compaction, selected in the order the code sorts them, after which a key shows the value it had before its last overwrite |
| `CompactionLimits.DeletedKeyReturns` | src/storage/compaction/compaction_manager.cpp:365-373 | The concrete failure: a compaction the code asks for into the last level, during whose removals a deleted key shows its old value again |
| `CompactionLimits.EmptyKeyDropped` | src/storage/compaction/compaction_manager.cpp:250-301 | The empty key equals the initial last-emitted key, so a compaction that selects it leaves it in neither of the two levels |
| `CompactionTheory.SwapStepExact` | src/storage/compaction/compaction_manager.cpp:365-373 | Between the AddFile and RemoveFile calls, from level 1 up, a reader sees the old answer for a key if and only if the step has not removed the source tombstone while an older live target version is still there |
| `CompactionTheory.EveryStepAnswers` | src/storage/compaction/compaction_manager.cpp:365-373 | Into any level but the bottom, every intermediate catalogue answers every non-empty key as before, tombstones included |
| `CompactionTheory.Level0StepExact` | src/storage/compaction/compaction_manager.cpp:365-373 | What every intermediate catalogue of a level-0 compaction answers: the newest level-0 file not yet removed, else the merged version, else, for a dropped tombstone, the target files not yet removed; so the exact condition for the old answer |
| `CompactionTheory.CompactionKeepsLevels` | src/storage/compaction/compaction_manager.cpp:113-144 | After a compaction the levels from 1 up are again pairwise disjoint, every recorded range is exact and paths are distinct |
| `CompactionTheory.WinnerIsFirst` | src/storage/compaction/compaction_manager.cpp:348-355 | After renumbering, the merge takes each key from the first input that holds it: source files in their order, then targets |
| `CompactionTheory.ReusedPathIsLost` | src/storage/compaction/compaction_manager.cpp:365-373 | An output survives the removal of the inputs if and only if no input has its path |
| `CompactionTheory.PotentialDrops` | src/storage/compaction/compaction_manager.cpp:328-379 | Every compaction lowers the sum, over all files, of entries times levels still below by at least the number of source entries |
| `CompactionTheory.CountsDrop` | src/storage/compaction/compaction_manager.cpp:328-379 | File counts drop lexicographically from level 0 down: nothing changes above the source level, and the source level loses exactly its selected files |
| `Catalogue.TargetHolderSelected` | src/storage/compaction/compaction_manager.cpp:113-144 | A target-level file that holds a key inside the range of the selection is selected |
| `Catalogue.UnselectedApart` | src/storage/compaction/compaction_manager.cpp:113-144 | An unselected target-level file lies wholly before or wholly after everything selected |
| `Catalogue.OverlapsExactly` | src/storage/compaction/leveled_compaction.h:25-28 | Two non-empty ranges overlap if and only if some key lies in both |
| `Catalogue.SelectedExactly` | src/storage/compaction/compaction_manager.cpp:113-144 | In every selection a next-level file is selected if and only if its range shares a key with the span of the sources |
| `Catalogue.BestIsTop` | src/storage/engine/storage_engine.cpp:200-246 | In a well-formed catalogue the answering file outranks every other file that holds the key |
| `Compactions.CompactionManager.AddFile` | src/storage/compaction/compaction_manager.cpp:29-37 | Refused exactly for a level outside the configured ones; otherwise the file is appended to the catalogue |
| `Compactions.CompactionManager.RemoveFile` | src/storage/compaction/compaction_manager.cpp:39-45 | Exactly the files of that path leave the catalogue, the others keep their order |
| `Compactions.CompactionManager.GetFilesAtLevel` | src/storage/compaction/compaction_manager.cpp:47-58 | Exactly the files of the level, in smallest-key order with ties open |
| `Compactions.CompactionManager.TotalBytesAtLevel` | src/storage/compaction/compaction_manager.cpp:60-67 | The byte sum over the files of the level, in wrapping 64-bit arithmetic: of the recorded sizes and, since every valid catalogue records the real ones, of the lengths of the files on disk |
| `Compactions.CompactionManager.Level0FileCount` | src/storage/compaction/compaction_manager.cpp:69-74 | The number of level-0 files |
| `Compactions.MaxBytesForLevel` | src/storage/compaction/leveled_compaction.h:69-76 | Ten MiB times the power of ten of the levels above, in wrapping 64-bit arithmetic |
| `Compactions.MaxBytesIs` | src/storage/compaction/leveled_compaction.h:69-76 | The loop of wrapping multiplications equals one wrapping of the whole product, for every level |
| `Compactions.TriggeredExactly` | src/storage/compaction/compaction_manager.cpp:87-109 | A level asks for compaction if and only if it is level 0 with at least four files, or a level from 1 up, not the last, whose files on disk are together longer, in 64-bit arithmetic, than its power of ten of MiB |
| `Compactions.CompactionManager.PickCompactionLevel` | src/storage/compaction/compaction_manager.cpp:87-109 | The lowest level that asks for compaction, or none when no level does |
| `Compactions.CompactionManager.NeedsCompaction` | src/storage/compaction/compaction_manager.cpp:83-85 | True if and only if some level asks for compaction |
| `Compactions.CompactionManager.SelectCompactionFiles` | src/storage/compaction/compaction_manager.cpp:113-144 | All of level 0, or the file of a lower level with the least smallest key; with it a next-level file if and only if its range shares a key with the span of the sources; empty if and only if the level is |
| `Compactions.CompactionManager.WriteVectorToSSTable` | src/storage/compaction/compaction_manager.cpp:170-192 | A sorted non-empty list goes through a skip list into a file holding exactly that table; the empty list is refused |
| `Compactions.CompactionManager.FlushOutput` | src/storage/compaction/compaction_manager.cpp:254-279 | Appends one numbered output with an exact key range and the length of its file as size; all outputs together hold the earlier entries followed by these; only its own path changes on disk; the byte counter grows by that length, wrapping |
| `Compactions.CompactionManager.ReadInputs` | src/storage/compaction/compaction_manager.cpp:213-227 | Reads back exactly the catalogued tables, counts their entries and sums their sizes; if a file is missing and those before it are sound, fails with an I/O error |
| `Compactions.CompactionManager.Emit` | src/storage/compaction/compaction_manager.cpp:309-316 | The open output takes the entry and is closed at 64 MiB: every closed output reaches that size and would not without its last entry; written and open entries together gain exactly this one |
| `Compactions.CompactionManager.MergeFiles` | src/storage/compaction/compaction_manager.cpp:208-324 | The outputs concatenate to the merge of the inputs, every one but the last cut at the first entry that reaches 64 MiB; keys merged equal entries written plus duplicates plus tombstones dropped, of which there is one for every key whose newest version is a tombstone at the bottom; bytes read and written are the sizes of inputs and outputs; the only disk operations are one write an output, and the catalogued files stay as they were |
| `Compactions.CompactionManager.Renumber` | src/storage/compaction/compaction_manager.cpp:348-360 | Sources get the highest numbers in their order, targets the lowest; nothing else about a file changes |
| `Compactions.CompactionManager.SwapFiles` | src/storage/compaction/compaction_manager.cpp:365-373 | Every catalogue a reader can see on the way and the final one; at every step each listed file is on disk; the only disk operations are one removal an input |
| `Compactions.CompactionManager.RunCompaction` | src/storage/compaction/compaction_manager.cpp:328-379 | Fails exactly when no level asks; otherwise picks the lowest, leaves a valid catalogue (disjoint exact levels, files on disk with their real sizes, fresh numbers), keeps the answer for a key exactly as the theory says, reports its levels, file counts, the merge accounting and the bytes of its input and output files on disk, lowers the potential, and does to the disk exactly the writes of its outputs followed by the removals of its inputs |
| `Compactions.CompactionManager.CompactUntilQuiet` | src/storage/engine/storage_engine.cpp:330-359 | Repeating compactions with no new files ends with no level asking, after at most as many runs as the potential |
| `Compactions.SwappedMeasured` | src/storage/compaction/compaction_manager.cpp:365-373 | After the swap every catalogued size is still the length of the file on disk |
| `Paths.OutputPathsDiffer` | src/storage/compaction/compaction_manager.cpp:148-154 | Two compaction outputs have the same path only if they have the same number, whatever their levels |
| `Paths.FlushPathIsNoOutput` | src/storage/engine/storage_engine.cpp:276-278 | A flushed file and an output share a path only at level 0 |
| `Formats.PathBytes` | src/storage/compaction/compaction_manager.cpp:148-154 | The names of a flushed file and of an output, whose number is padded to eight digits |
| `Merge.PopLeast` | src/storage/compaction/compaction_manager.cpp:198-206 | The heap gives up an item no other precedes: smallest key, then highest sequence number |
| `Merge.SeedHeap` | src/storage/compaction/compaction_manager.cpp:236-245 | The heap starts with the first entry of every non-empty input |
| `Merge.Advance` | src/storage/compaction/compaction_manager.cpp:282-294 | Popping an item and pushing its successor keeps one frontier entry per unfinished input in the heap; the popped entry is the least |
| `Merge.PoppedIsNewest` | src/storage/compaction/compaction_manager.cpp:282-301 | The first pop of a key is its version of the highest-numbered input |
| `Merge.MergeComplete` | src/storage/compaction/compaction_manager.cpp:281-321 | When every input is read, the output is strictly sorted and holds, for every key, exactly the newest version, minus tombstones at the bottom and the empty key |
| `Merge.ErasingEnds` | src/storage/compaction/compaction_manager.cpp:297-307 | The keys the loop drops as tombstones are exactly those whose newest version is one at the bottom |
| `SSTableFormat.PackIsFaithful` | src/storage/sstable/sstable_writer.cpp:60-100 | Packing into blocks loses, adds and reorders nothing, and every block is non-empty and within 4 KiB or a single entry |
| `SSTableFormat.PackIsGreedy` | src/storage/sstable/sstable_writer.cpp:60-100 | A block is closed only when its bytes with the next entry would exceed 4096 |
| `SSTableFormat.OpensTable` | src/storage/sstable/sstable_reader.cpp:14-99 | Opening the bytes written for any table that fits gives its filter, index and entry count |
| `Formats.FooterExactly` | src/storage/sstable/sstable_reader.cpp:30-44 | Every byte sequence reads as a given footer if and only if it starts with that footer and its magic number |
| `Formats.IndexExactly` | src/storage/sstable/sstable_reader.cpp:61-89 | Every byte sequence reads as a given index if and only if it starts with that index as written |
| `Formats.TableBytes` | src/storage/sstable/sstable_writer.cpp:60-162 | Where block, Bloom section, index and footer of a one-entry file stand, and the numbers in its footer |
| `Formats.BlockBytes` | src/storage/sstable/block.cpp:28-50 | The bytes of two one-entry blocks: count, key length, key, value length, value, flag |
| `Formats.BloomBytes` | src/storage/sstable/sstable_writer.cpp:105-110 | The bytes of a Bloom section: bit count, probe count, bits |
| `Formats.IndexBytes` | src/storage/sstable/sstable_writer.cpp:123-131 | The bytes of a one-entry index: count, key length, key, offset, size |
| `Formats.FooterBytes` | src/storage/sstable/sstable_writer.cpp:141-151 | The bytes of a footer, in the order of its fields, with the magic number |
| `SSTableFormat.ReadsBlock` | src/storage/sstable/sstable_reader.cpp:101-116 | Every index entry points at the bytes of its block, which decode to the block and end in the recorded last key |
| `SSTableFormat.CandidateBlock` | src/storage/sstable/sstable_reader.cpp:118-152 | Lookup in the first block whose last key is not smaller is lookup in the whole table |
| `SSTableFormat.BeyondAllBlocks` | src/storage/sstable/sstable_reader.cpp:118-152 | A key beyond every last key is absent |
| `SSTableFormat.ComfortableTableFits` | src/storage/sstable/sstable_writer.cpp:60-157 | Up to 1.375 GiB of entries, every 32-bit and 64-bit field of the file holds its value |
| `SSTables.Collect` | src/storage/sstable/sstable_writer.cpp:39-52 | The iterator yields the whole list in order |
| `SSTables.BuildBloom` | src/storage/sstable/sstable_writer.cpp:54-58 | The filter of all keys |
| `SSTables.BuildBlocks` | src/storage/sstable/sstable_writer.cpp:60-100 | The block bytes, index and entry count of the packing |
| `SSTables.WriteTable` | src/storage/sstable/sstable_writer.cpp:23-162 | A non-empty list makes one write of a file holding exactly its table; the empty list is refused and leaves no file |
| `SSTables.SearchIndex` | src/storage/sstable/sstable_reader.cpp:124-138 | Binary search for the first last-key not smaller than the key, or none |
| `SSTables.SSTableReader.Open` | src/storage/sstable/sstable_reader.cpp:14-99 | Loads exactly what the file decodes to, or fails as decoding does |
| `SSTables.SSTableReader.ReadBlock` | src/storage/sstable/sstable_reader.cpp:101-116 | The decoded block at that place, or the error of reading it |
| `SSTables.SSTableReader.Get` | src/storage/sstable/sstable_reader.cpp:118-152 | On a file holding a table: lookup in that table, for every key; on any file: never another key |
| `SSTables.SSTableReader.ReadAll` | src/storage/sstable/sstable_reader.cpp:154-166 | On a file holding a table: exactly that table |
| `Blocks.Block.Add` | src/storage/sstable/block.cpp:12-21 | Takes the entry exactly if the block is empty or its bytes with the entry are at most 4096 |
| `Blocks.Block.Serialize` | src/storage/sstable/block.cpp:28-50 | The encoding of the entries |
| `Blocks.Block.Deserialize` | src/storage/sstable/block.cpp:52-89 | The decoded entries, or the decoding error |
| `Blocks.Block.Get` | src/storage/sstable/block.cpp:91-110 | Binary search is lookup in a sorted block, and never returns another key |
| `Blocks.BlockRoundTrip` | src/storage/sstable/block.cpp:28-89 | Decoding inverts encoding for every block whose fields fit |
| `Formats.BlockExactly` | src/storage/sstable/block.cpp:52-89 | Every byte sequence: it decodes to given entries if and only if it starts with their number followed by their encodings back to back, any non-zero flag byte being a tombstone; the only error is corruption |
| `Formats.CutBlockFails` | src/storage/sstable/block.cpp:52-89 | A block cut short at any byte does not decode |
| `Bloom.BloomFilter.Add` | src/storage/sstable/bloom_filter.cpp:38-47 | Sets exactly the probe bits of the key, for every filter size and hash count |
| `Bloom.BloomFilter.MayContain` | src/storage/sstable/bloom_filter.cpp:49-60 | True if and only if every probe bit is set |
| `Bloom.AddAllExact` | src/storage/sstable/bloom_filter.cpp:38-47 | A bit is set if and only if it was set before or some added key probes it |
| `Bloom.AddedKeysHit` | src/storage/sstable/bloom_filter.cpp:38-60 | No false negatives |
| `Bloom.FilterSize` | src/storage/sstable/bloom_filter.cpp:8-15 | At least 64 bits and ten a key, and not a byte more than that takes |
| `Bloom.HashValues` | src/storage/sstable/bloom_filter.cpp:28-36 | The published FNV-1a values of the empty string, of a and of foobar |
| `Bloom.ProbeValues` | src/storage/sstable/bloom_filter.cpp:38-47 | Three probe positions of a key, from the two seeds |
| `Bloom.BitIs` | src/storage/sstable/bloom_filter.cpp:38-60 | Position p is bit p mod 8, counted from the lowest, of byte p / 8 |
| `SkipLists.SkipList.Put` | src/storage/memtable/skip_list.cpp:41-85 | For every key order and every choice of heights the list stays well formed, its contents are the map update and the memory estimate is the exact sum over its nodes |
| `SkipLists.SkipList.Delete` | src/storage/memtable/skip_list.cpp:87-132 | The same with a tombstone, also for an absent key |
| `SkipLists.SkipList.Get` | src/storage/memtable/skip_list.cpp:134-153 | Three-way lookup in the contents: value, tombstone or absent |
| `SkipLists.SkipList.RandomHeight` | src/storage/memtable/skip_list.cpp:32-39 | Any height from 1 to the maximum |
| `SkipLists.SkipList.FindPredecessors` | src/storage/memtable/skip_list.cpp:44-52 | On every level the last node with a smaller key |
| `SkipLists.SkipList.Insert` | src/storage/memtable/skip_list.cpp:65-84 | Links one node in at its rank on all its levels and adds its size |
| `SkipLists.SkipList.ApproximateMemoryUsage` | src/storage/memtable/skip_list.cpp:155-158 | The fixed part plus, per node, node size, key, value and links |
| `SkipLists.SkipList.IsEmpty` | src/storage/memtable/skip_list.cpp:160-163 | True if and only if there are no contents |
| `SkipLists.Iterator.Next` | src/storage/memtable/skip_list.cpp:173-176 | Moves from the n-th entry in key order to the next |
| `SkipLists.LevelsAreSortedSublists` | src/storage/memtable/skip_list.cpp:41-132 | Every level runs without cycles through a strictly sorted sublist of the level below, and level 0 through every node |
| `Tables.UpsertIsUpdate` | src/storage/memtable/skip_list.cpp:41-132 | The update of a sorted run is the map update and keeps it sorted |
| `Memtables.MemTable.Put` | src/storage/memtable/memtable.cpp:6-8 | Map update |
| `Memtables.MemTable.Delete` | src/storage/memtable/memtable.cpp:10-12 | Map update with a tombstone |
| `Memtables.MemTable.Get` | src/storage/memtable/memtable.cpp:14-24 | Returns a value if and only if the entry stored for the key holds exactly that value and is no tombstone; a tombstone and an absent key look the same |
| `Crc32s.ComputeCrc32` | src/storage/wal/wal.cpp:43-50 | The table-driven loop equals the bit-at-a-time CRC of section 8 of RFC 1952 |
| `Crc32s.CheckValue` | src/storage/wal/wal.cpp:26-50 | The published check value, of the digits 1 to 9 |
| `Crc32s.InitTable` | src/storage/wal/wal.cpp:32-41 | Entry i is i shifted eight times |
| `Crc32s.BurstDetected` | src/storage/wal/wal.cpp:32-50 | Any change within four consecutive bytes changes the checksum |
| `Wals.Wal.SerializeEntry` | src/storage/wal/wal.cpp:62-88 | The record of the entry: length, checksum, payload |
| `Wals.PayloadRoundTrip` | src/storage/wal/wal.cpp:62-124 | Decoding inverts encoding for every put and every delete |
| `Formats.PayloadExactly` | src/storage/wal/wal.cpp:90-124 | Every byte sequence decodes to a given entry if and only if it starts with the payload of that entry, in which only a put has a value |
| `Formats.RecordExactly` | src/storage/wal/wal.cpp:221-266 | A record is read at an offset if and only if a header with the right length and checksum stands there, before a payload within the limit that starts with that of the entry |
| `Formats.PayloadBytes` | src/storage/wal/wal.cpp:62-88 | The bytes of a put and of a delete: kind, sequence number, key and, of a put alone, value |
| `Formats.HeaderBytes` | src/storage/wal/wal.cpp:62-88 | The bytes of a header: length, then checksum |
| `Wals.Wal.Open` | src/storage/wal/wal.cpp:140-197 | Resumes after the highest sequence number of the readable records and changes no byte of the log |
| `Wals.Wal.AppendEntry` | src/storage/wal/wal.cpp:199-219 | Stamps the next sequence number and appends exactly the record, in one append |
| `Wals.Wal.ReadAll` | src/storage/wal/wal.cpp:221-266 | The readable records of the file |
| `Wals.ReadsTornLog` | src/storage/wal/wal.cpp:221-266 | A log with a torn last record reads back as all its entries if and only if no payload exceeds 64 MiB; otherwise as those before the first that does |
| `Wals.PrefixReads` | src/storage/wal/wal.cpp:221-266 | Every byte prefix of a log reads back as exactly the entries whose records lie wholly inside it, for reading and for opening |
| `Wals.OpenResumes` | src/storage/wal/wal.cpp:147-188 | Opening resumes one past the last sequence number |
| `Wals.NextLsnExactly` | src/storage/wal/wal.cpp:147-188 | The next sequence number is past every one in the log, in whatever order they stand, and next to the largest; or 1 |
| `Wals.DamagedLogReads` | src/storage/wal/wal.cpp:221-266 | A payload altered within four consecutive bytes, whatever follows, leaves exactly the records before it readable |
| `Wals.ReadsOn` | src/storage/wal/wal.cpp:221-266 | Whatever follows whole records is read as if it stood alone |
| `Wals.TornTailHidesExactly` | src/storage/wal/wal.cpp:190-219 | A torn tail stays in the file: what is appended behind it is unread if and only if the tail, wherever it was cut, and those bytes together do not read as a record |
| `Wals.TornTailSwallows` | src/storage/wal/wal.cpp:190-219 | A tail cut after its length field swallows what is appended until it fills the promised length |
| `Checkpoints.CheckpointRoundTrip` | src/storage/checkpoint/checkpoint_manager.cpp:18-118 | Loading inverts saving for every catalogue and LSN whose fields fit |
| `Formats.CheckpointExactly` | src/storage/checkpoint/checkpoint_manager.cpp:55-118 | Every byte sequence loads as a given checkpoint if and only if it starts with that checkpoint as saved; the only error is corruption |
| `Formats.CutCheckpointFails` | src/storage/checkpoint/checkpoint_manager.cpp:55-118 | A checkpoint cut short at any byte does not load |
| `Formats.CheckpointBytes` | src/storage/checkpoint/checkpoint_manager.cpp:18-33 | The bytes of a checkpoint of one file, in the order of its fields |
| `Checkpoints.CheckpointManager.SaveCheckpoint` | src/storage/checkpoint/checkpoint_manager.cpp:18-53 | Writes the temporary file, renames it, touches nothing else |
| `Checkpoints.CheckpointManager.LoadCheckpoint` | src/storage/checkpoint/checkpoint_manager.cpp:55-118 | The decoded file, an empty checkpoint if there is none, or the decoding error |
| `Checkpoints.LoadedFits` | src/storage/checkpoint/checkpoint_manager.cpp:55-118 | Whatever loads is within the fields of a checkpoint |
| `Checkpoints.SaveIsAtomic` | src/storage/checkpoint/checkpoint_manager.cpp:18-53 | A crash anywhere in a save leaves the old checkpoint or the new one, and every other file as it was |
| `Serializer.ReadsUint32` | src/common/serialization/binary_serializer.cpp:13-53 | Reading inverts writing at any offset |
| `Serializer.ReadsUint64` | src/common/serialization/binary_serializer.cpp:19-61 | Reading inverts writing at any offset |
| `Serializer.ReadsString` | src/common/serialization/binary_serializer.cpp:31-77 | Reading inverts writing at any offset, for every string a 32-bit length can describe |
| `Serializer.LittleEndianOfValue` | src/common/serialization/binary_serializer.cpp:47-61 | Conversely every byte sequence is the encoding of the value it reads as |
| `Serializer.LittleEndianAt` | src/common/serialization/binary_serializer.cpp:13-23 | Byte i is the i-th digit of the number to base 256 |
| `Formats.ReadStringExactly` | src/common/serialization/binary_serializer.cpp:71-77 | A string is read at an offset if and only if its 32-bit length and its bytes stand there |
| `Bytes.LessExactly` | src/storage/sstable/block.cpp:91-110 | A key is smaller if and only if it is a proper prefix or has the smaller unsigned byte where the two first differ |
| `EngineTheory.FoldIsMap` | src/storage/recovery/recovery_manager.cpp:36-57 | Replaying a log gives a sorted memtable that holds, for every key, exactly its last write |
| `EngineTheory.ModelIsMap` | src/storage/engine/storage_engine.cpp:108-194 | For every log and key the reference is what a plain map holds after the log: a put sets the key to its whole value, a delete takes it out |
| `EngineTheory.LayersShowLog` | src/storage/engine/storage_engine.cpp:69-102 | SSTables holding the log up to a point, under a memtable replayed from the rest, show the whole log |
| `EngineTheory.FlushVersion` | src/storage/engine/storage_engine.cpp:252-324 | A new level-0 file with the highest number answers for the keys it holds and for no other |
| `EngineTheory.LogReads` | src/storage/recovery/recovery_manager.cpp:25-34 | A log with whole records and the beginning of one more reads back as the whole ones and resumes after them |
| `EngineTheory.RecoveryShowsLog` | src/storage/engine/storage_engine.cpp:69-102 | What recovery builds from a recoverable disk shows, for every key its SSTables show, the last write in its log |
| `EngineTheory.RecoveryIsIdempotent` | src/storage/engine/storage_engine.cpp:86-102 | A crash during recovery leaves a disk that recovers to the same log under the same checkpoint |
| `EngineTheory.AppendCrash` | src/storage/engine/storage_engine.cpp:125-143 | A crash while appending a record leaves a disk that recovers the log without it or with it |
| `EngineTheory.FlushCrash` | src/storage/engine/storage_engine.cpp:252-324 | A crash anywhere in a flush leaves a disk that recovers the whole log, under the old checkpoint or the new one |
| `EngineTheory.LayoutsSeparate` | src/storage/engine/storage_engine.cpp:86-88 | Whatever the directories, log, checkpoint and temporary file have different names and none is named like an SSTable |
| `EngineStates.AnswerExactly` | src/storage/engine/storage_engine.cpp:172-246 | While serving, a lookup returns the last write to its key if and only if the memtable is live for it, or holds a tombstone over nothing visible, or holds nothing and the SSTables show the flushed log |
| `EngineStates.ServingShowsLog` | src/storage/engine/storage_engine.cpp:172-246 | A layered lookup that keeps tombstones apart from absent keys would be the reference map wherever the SSTables show the flushed log |
| `EngineStates.AppendKeeps` | src/storage/engine/storage_engine.cpp:125-156 | A logged and applied write keeps the invariant, durable or not, with every catalogued size the length of its file, and what the SSTables show |
| `EngineStates.AppendIsDurable` | src/storage/engine/storage_engine.cpp:125-143 | On a durable state it keeps durability, and a crash during it recovers the log without the entry or with it |
| `EngineStates.FlushKeeps` | src/storage/engine/storage_engine.cpp:252-324 | A flush keeps the invariant, durable or not, with every catalogued size the length of its file; afterwards the SSTables show the log for exactly the keys they showed and those the memtable held |
| `EngineStates.FlushIsDurable` | src/storage/engine/storage_engine.cpp:304-311 | Whenever the log file is whole a flush makes the state durable, whatever checkpoint was there: it repairs what the checkpoint of a compaction broke |
| `EngineStates.FlushIsCrashSafe` | src/storage/engine/storage_engine.cpp:252-324 | A crash anywhere in a flush of a durable state recovers the whole log |
| `EngineStates.CompactKeeps` | src/storage/engine/storage_engine.cpp:330-359 | A compaction round keeps the invariant, catalogued sizes included; a key the SSTables showed is shown afterwards if and only if the compaction keeps its answer |
| `EngineStates.CompactIsDurableExactly` | src/storage/engine/storage_engine.cpp:349-356 | The checkpoint of a round covers the whole log: the state is durable afterwards if and only if the memtable was empty |
| `EngineStates.ReopenedServes` | src/storage/engine/storage_engine.cpp:69-102 | A disk that recovers opens to a state that serves its log and shows the keys its checkpoint shows |
| `EngineStates.OpensExactly` | src/storage/engine/storage_engine.cpp:69-102 | For every disk: opening succeeds if and only if the checkpoint, if there is one, decodes, its levels are in range, and every readable log entry past its number is a put or a delete |
| `EngineStates.AheadNames` | src/storage/engine/storage_engine.cpp:275-278 | While the counters are ahead of the numbers in use, the next flush and every later output take names nothing catalogued has |
| `Searches.SortByRank` | src/storage/engine/storage_engine.cpp:203-211 | Lower level first, then higher number, ties open |
| `Searches.WellFormedSearchable` | src/storage/engine/storage_engine.cpp:200-246 | In a well-formed catalogue every holder of a key has it in its range, and two files of which one holds a key in the range of the other are ranked, whatever files are missing |
| `Searches.SearchFinds` | src/storage/engine/storage_engine.cpp:213-242 | The first file in search order that is there and holds the key answers |
| `Searches.FoundExactly` | src/storage/engine/storage_engine.cpp:213-246 | What the search finds is a value if and only if no missing file is in the way and the version on top is an entry holding that whole value |
| `Searches.SearchBlocked` | src/storage/engine/storage_engine.cpp:213-227 | A missing file in range, reached before any holder, makes the lookup fail |
| `Engines.RecoverMemTable` | src/storage/recovery/recovery_manager.cpp:12-58 | Applies exactly the readable entries past the checkpoint, counts them, and fails exactly on an unknown entry kind |
| `Engines.StorageEngine.GetFromSSTables` | src/storage/engine/storage_engine.cpp:200-246 | An I/O error if and only if a missing file whose range takes in the key is reached before any holder; otherwise a value if and only if the entry of the newest holder is exactly that value and no tombstone |
| `Engines.StorageEngine.GetFromFile` | src/storage/engine/storage_engine.cpp:223-232 | One file of the search: an I/O error if it is missing; on a file holding its table, lookup in that table |
| `Engines.StorageEngine.Get` | src/storage/engine/storage_engine.cpp:172-194 | The whole value stored in the memtable if the key is live there; else what the SSTables give, for every key and every searchable catalogue: a value if and only if no missing file is in the way and the entry of the newest holder is that value |
| `Engines.StorageEngine.Open` | src/storage/engine/storage_engine.cpp:42-102 | For every disk: the error of the checkpoint, of a level out of range or of an unknown log entry, in that order; otherwise an engine holding the catalogue of the checkpoint, the replay of the entries after it, the next LSN and file counters of 1, after two empty appends to the log |
| `Engines.StorageEngine.Recover` | src/storage/engine/storage_engine.cpp:69-102 | The same of its steps: catalogue, memtable, next LSN, disk and error |
| `Engines.StorageEngine.Restore` | src/storage/engine/storage_engine.cpp:77-81 | Takes over the whole catalogue, or refuses it exactly for a level out of range |
| `Engines.StorageEngine.Put` | src/storage/engine/storage_engine.cpp:108-111 | One write of a put, in any state |
| `Engines.StorageEngine.Delete` | src/storage/engine/storage_engine.cpp:117-119 | One write of a tombstone, in any state |
| `Engines.StorageEngine.WriteEntry` | src/storage/engine/storage_engine.cpp:125-166 | In any state: the log entry is appended, then applied to the memtable, then flushed or not: only if its memory estimate can have reached the limit, and always if it must have; the memtable ends below its limit; the disk operations are exactly those |
| `Engines.StorageEngine.FlushIfFull` | src/storage/engine/storage_engine.cpp:147-163 | Flushes exactly if the memory estimate of the memtable has reached the configured size, which leaves its entries below that size |
| `Engines.EstimateBounds` | src/storage/memtable/skip_list.cpp:65-84 | The memory estimate lies between that of towers all of height one and that of towers all of the maximum height |
| `Engines.StorageEngine.FlushMemTable` | src/storage/engine/storage_engine.cpp:252-324 | In any state: nothing on an empty memtable; otherwise the table in a new level-0 file, then the checkpoint naming it and the last log entry, and an empty memtable |
| `Engines.StorageEngine.CompactionRound` | src/storage/engine/storage_engine.cpp:330-359 | Nothing if no level asks; otherwise one compaction, then the checkpoint naming the new catalogue and the last log entry, flushed or not; log and memtable stay |
| `EngineSteps.NextKeeps` | src/storage/engine/storage_engine.cpp:108-359 | Every put, delete, flush, compaction and lookup keeps the invariant, durable or not; the log grows by exactly its entry; a key the SSTables showed is shown afterwards if and only if no compaction ran that changes its answer |
| `EngineSteps.OrderedSpares` | src/storage/compaction/compaction_manager.cpp:113-144 | Compactions from level 1 up change no answer but that of the empty key; nor does one at level 0 if newer files start at smaller keys |
| `EngineSteps.RunKeeps` | src/storage/engine/storage_engine.cpp:108-359 | After every prefix of every script the invariant holds and the state stands for the log of exactly its writes |
| `EngineSteps.ScriptAnswers` | src/storage/engine/storage_engine.cpp:108-359 | After every prefix of every script, compactions included, a lookup returns the last write to its key if and only if the condition of `AnswerExactly` holds |
| `EngineSteps.ScriptAnswersMap` | src/storage/engine/storage_engine.cpp:108-359 | The same against a plain map updated by the commands of the script themselves |
| `EngineSteps.RunShowsExactly` | src/storage/engine/storage_engine.cpp:108-359 | A key shown at the start is shown after every prefix if and only if no compaction of the run changes its answer |
| `EngineSteps.SparedAnswers` | src/storage/engine/storage_engine.cpp:108-359 | Such a key is answered by its last write after every prefix, except exactly where the memtable holds a tombstone over a live SSTable version |
| `EngineSteps.NextDurable` | src/storage/engine/storage_engine.cpp:108-359 | Every command keeps the log file whole; the state is durable afterwards if and only if the catalogue fits a checkpoint and the command flushed, or compacted under an empty memtable, or did neither on a durable state |
| `EngineSteps.NextIsCrashSafe` | src/storage/engine/storage_engine.cpp:108-324 | A crash inside any command but a running compaction recovers, for every key shown, the log before it or after it |
| `EngineSteps.RunDurableExactly` | src/storage/engine/storage_engine.cpp:108-359 | A run that starts durable is durable after every prefix if and only if no compaction runs over unflushed writes |
| `EngineSteps.RunIsCrashSafe` | src/storage/engine/storage_engine.cpp:108-324 | So a crash inside command i of a script recovers the log of the commands before it, or that log and its own entry |
| `EngineSteps.EmptyDiskRecovers` | src/storage/engine/storage_engine.cpp:69-102 | An empty disk recovers to the empty log |
| `EngineSteps.EmptyDiskStarts` | src/storage/engine/storage_engine.cpp:69-102 | Opening it gives a durable state that keeps the invariant and shows every key |
| `EngineRuns.Do` | src/storage/engine/storage_engine.cpp:108-359 | One command of the engine is one step of the state |
| `EngineRuns.Run` | src/storage/engine/storage_engine.cpp:108-359 | Runs any script of puts, deletes, flushes, compactions and lookups: each lookup in it returns the last write of the script so far if and only if the condition of `AnswerExactly` holds at that point |
| `EngineRuns.Session` | src/storage/engine/storage_engine.cpp:42-359 | The same from an empty disk, which is opened first; each lookup returns what a plain map updated by the puts and deletes of the script holds if and only if the condition of `AnswerExactly` holds at that point |
| `EngineRuns.Reopen` | src/storage/engine/storage_engine.cpp:42-102 | Opening any disk a crash can leave of a crash-safe run of operations gives an engine that serves the log from before or from after, shows every key shown before, and answers a lookup by the last write exactly under the condition of `AnswerExactly` |
| `EngineRuns.Survive` | src/storage/engine/storage_engine.cpp:42-359 | From an empty disk, through any script, a crash anywhere in any command, compactions included, or between two commands; then opening what is left and a lookup. The disk opens to the state before the command, that state with its entry, or the state after it, under the checkpoint `MarkAt` says, and for a key no compaction changed the answer is the last write in that log if and only if `Recalls` holds; on a durable state, outside a compaction, the engine serves that log and the condition is that of `AnswerExactly` |
| `EngineRuns.OpenAndGet` | src/storage/engine/storage_engine.cpp:42-246 | Opening a disk that resembles a state, torn log tail and missing files allowed, and a lookup: the last write if and only if `Recalls` holds |
| `EngineRuns.ReopenAfterRound` | src/storage/engine/storage_engine.cpp:330-359 | Opening what a crash inside a compaction round left, whatever checkpoint was there before, and a lookup: the answer of a restart before the round, or an I/O error where a removed input is in the way; or, once the checkpoint is in place, what the new SSTables show, which is the last write exactly if the memtable had nothing to add |
| `EngineLimits.FlushVersionExactly` | src/storage/engine/storage_engine.cpp:275-303 | The version on top after a flush, whatever numbers are in use: a memtable key is answered by the new file unless a level-0 file with a higher number holds it, any other key as if the file whose name is taken were gone |
| `EngineLimits.FlushAnswersExactly` | src/storage/engine/storage_engine.cpp:275-303 | For every key and every file number: after a flush a lookup returns the last write if and only if, for a memtable key, no higher-numbered level-0 file shows something else and, for any other key, the answering file does not have the name the flush takes or the rest shows the same |
| `EngineLimits.RestartThenFlush` | src/storage/engine/storage_engine.cpp:69-324 | Reopening a durable store, any writes and then a flush: for every key a lookup returns the last write if and only if that condition holds for the counter at 1 and the memtable about to be flushed |
| `EngineLimits.NoHigherNumbers` | src/storage/engine/storage_engine.cpp:275-303 | That holds for every key if no level-0 file is numbered from the counter on, so also after a restart with files from level 1 on only |
| `EngineLimits.RestartIsAheadExactly` | src/storage/engine/storage_engine.h:161 | Counters that restart at 1 are ahead of every number in use if and only if no SSTable is catalogued |
| `EngineLimits.RestartResets` | src/storage/engine/storage_engine.cpp:69-102 | Reopening a durable state changes nothing but the file counters; it keeps the invariant if and only if nothing is catalogued |
| `EngineLimits.TornTailIsNotDurable` | src/storage/engine/storage_engine.cpp:83-90 | A reopened store is durable if and only if the log has no torn tail |
| `EngineLimits.TornTailRecovers` | src/storage/engine/storage_engine.cpp:83-100 | After reopening a log with a torn tail and any writes, the log the next recovery finds is the whole records and whatever the tail and the new records read as together: all new writes exactly if that reads as them, none exactly if it does not read as a record |
| `EngineLimits.MidFlushAnswersExactly` | src/storage/engine/storage_engine.cpp:252-303 | Between the swap of the memtables and the cataloguing of the new file a lookup returns the last write if and only if the memtable being flushed adds nothing to the SSTables for its key |
| `EngineLimits.RoundCrash` | src/storage/compaction/compaction_manager.cpp:365-379 | A crash anywhere in a compaction round leaves the old checkpoint with the first n inputs gone, or the round finished |
| `EngineLimits.RestartAnswersExactly` | src/storage/engine/storage_engine.cpp:69-246 | Opening any disk with the log of a state, possibly torn, and a checkpoint of its catalogue over the first c log entries, possibly past the flushed ones, possibly with files missing: entries from c on are replayed, and a lookup of a key the SSTables show returns the last write if and only if it is replayed and live, or is a replayed tombstone over nothing visible, or is not among the skipped entries or shows the same as the SSTables, and no missing file is in the way |
| `EngineLimits.DurableRecalls` | src/storage/engine/storage_engine.cpp:69-246 | With nothing skipped that is every last write, except exactly a replayed tombstone over a live SSTable version |
| `EngineLimits.HalfRemovedAnswers` | src/storage/compaction/compaction_manager.cpp:365-379 | Opening the former replays what opening it before the round would have replayed, and a lookup returns what it would have returned then, or an I/O error if and only if the replayed entries are not live for the key and a removed file is in the way |
| `EngineLimits.NothingMissing` | src/storage/compaction/compaction_manager.cpp:365-379 | Before the first removal nothing is in the way |
| `EngineLimits.RoundMarks` | src/storage/engine/storage_engine.cpp:349-356 | A round leaves the checkpoint over the whole log, whatever checkpoint was there before |
| `EngineLimits.FinishedRoundAnswers` | src/storage/engine/storage_engine.cpp:349-356 | Opening the latter replays nothing: a key the new SSTables show is answered by the log if and only if the memtable had nothing to add for it |
| `EngineCrashes.NextMarks` | src/storage/engine/storage_engine.cpp:252-359 | Which log entries the checkpoint covers after every command: those flushed after a flush, all after a compaction, and otherwise those before |
| `EngineCrashes.NextCrash` | src/storage/engine/storage_engine.cpp:108-359 | A crash anywhere in any command, on any state, durable or not, leaves a disk that opens to the state before, that state with the logged entry, or the state after, under its checkpoint; only a compaction leaves catalogued files missing |
| `EngineCrashes.LandedKeeps` | src/storage/engine/storage_engine.cpp:108-359 | Each of those keeps the invariant, has the log before or after the command, and shows every key shown before but those the compaction changed |
| `EngineCrashes.RunMarks` | src/storage/engine/storage_engine.cpp:108-359 | After every prefix of every run the checkpoint on disk names the catalogue and exactly the log entries `MarkAt` computes from the flushes and compactions so far |
| `EngineCrashes.RunDurableAt` | src/storage/engine/storage_engine.cpp:108-359 | A run that starts durable is durable after n commands if and only if every compaction over unflushed writes among them was followed by a flush among them |
| `EngineExamples.DeleteIsMissed` | src/storage/engine/storage_engine.cpp:172-194 | The concrete failure, from an empty disk: put, flush, delete, and a lookup returns the deleted value |
| `EngineExamples.RestartLosesKey` | src/storage/engine/storage_engine.cpp:275-303 | The concrete failure: put a, flush, restart, put b, flush, and a is gone |
| `EngineExamples.CompactionHidesWrite` | src/storage/engine/storage_engine.cpp:349-356 | The concrete failure: four puts each flushed, one more put, a compaction, a restart, and the last put is gone; with another put before the restart, only that one is found |
| `EngineExamples.TornTailLosesWrite` | src/storage/engine/storage_engine.cpp:83-100 | The concrete failure: a put torn by a crash, a restart, a put that is acknowledged and answered, another restart, and it is gone |
| `Hlcs.Hlc.Now` | src/common/clock/hlc.cpp:7-23 | The tick of the clock: the earliest timestamp after the old one whose physical part has reached the reading, if and only if the reading is ahead, the counter is not full or its carry meets a clear bit |
| `Hlcs.Hlc.Update` | src/common/clock/hlc.cpp:25-54 | The three-way comparison is a tick of the later of the two timestamps: the earliest timestamp after both whose physical part has reached the reading, under the same exact condition |
| `Hlcs.ShiftOr` | src/common/clock/hlc.cpp:16-19 | On 64-bit words, shift and or add the counter, except that 65536 is absorbed by an odd physical part |
| `Hlcs.TickIsEarliestExactly` | src/common/clock/hlc.cpp:7-23 | Of all timestamps after the old one whose physical part has reached the reading a tick gives the first, if and only if the reading is ahead, the counter is not full or its carry meets a clear bit |
| `Hlcs.TickAdvancesExactly` | src/common/clock/hlc.cpp:7-23 | A tick moves forward if and only if the reading is ahead, the counter is not full, or its carry meets a clear bit |
| `Hlcs.TickPhysicalExactly` | src/common/clock/hlc.cpp:7-23 | A tick takes its physical part from the reading or the old timestamp if and only if the counter does not carry |
| `Hlcs.CausalOrderExactly` | src/common/clock/hlc.cpp:7-54 | In every run of any number of nodes and any readings, happens-before implies a smaller timestamp if and only if every event advances |
| `Hlcs.PhysicalWasRead` | src/common/clock/hlc.cpp:7-54 | Without a carry, every physical part is at most some reading in its causal past |
| `Hlcs.OverflowGoesBack` | src/common/clock/hlc.cpp:18-20 | The concrete overflow: a tick that goes backwards |
| `Rafts.RaftState.TransitionToCandidate` | src/raft/core/raft_state.cpp:27-47 | Refused exactly to a leader; otherwise next term, own vote, no leader |
| `Rafts.RaftState.TransitionToLeader` | src/raft/core/raft_state.cpp:49-66 | Granted exactly to a candidate, who then knows itself as leader and keeps term and vote |
| `Rafts.RaftState.StepDown` | src/raft/core/raft_state.cpp:68-92 | Refused exactly to a lower term; otherwise a follower of the known leader in that term, with the vote kept in the same term and cleared in a later one |
| `Rafts.RaftState.GrantVote` | src/raft/core/raft_state.cpp:94-104 | Granted exactly if there is no vote or the same one |
| `Rafts.RaftState.LoadState` | src/raft/core/raft_state.cpp:131-135 | Term and vote as persisted, the rest unchanged |
| `Rafts.SecondVoteExactly` | src/raft/core/raft_state.cpp:94-104 | A second, different vote in a term is granted if and only if the first was for the empty name |
| `Rafts.StepDownVotesExactly` | src/raft/core/raft_state.cpp:68-104 | Stepping down to a later term frees the vote for every candidate; to the same term it leaves every vote as grantable as before; to an earlier one it is refused |
| `Rafts.CampaignVotesExactly` | src/raft/core/raft_state.cpp:27-47 | A campaign opens exactly the next term, in which the node can vote for none but itself |
| `Rafts.VotesAreUnique` | src/raft/core/raft_state.cpp:27-104 | In every run with restarts each node votes for at most one candidate per term |
| `Rafts.OneLeaderPerTerm` | src/raft/core/raft_state.cpp:49-66 | If the lead is taken only with a majority of votes, each term has at most one leader (section 5.2 of the Raft paper) |
| `Rafts.LeadersDiffer` | src/raft/core/raft_state.cpp:49-66 | At no point of a run do two nodes lead in the same term |
| `Rafts.TermsNeverFall` | src/raft/core/raft_state.cpp:68-92 | Terms never fall, across restarts too |
| `Rafts.FreshTermVotes` | src/raft/core/raft_state.cpp:68-104 | From any state of any run, a node that concedes to a term it has not reached can grant any named candidate its vote there, and had cast none in it |
| `Rafts.ElectionCanBeWon` | src/raft/core/raft_state.cpp:27-104 | From any state of any run any node can be elected in any term no node has reached: steps are given that lead there |
| `BlockCaches.BlockCache.Get` | src/storage/cache/block_cache.cpp:16-43 | A hit returns the cached data and moves the item to the front; a miss changes only its counter; list and index keep the same distinct keys |
| `BlockCaches.BlockCache.Put` | src/storage/cache/block_cache.cpp:45-75 | Ignores an item larger than the cache; otherwise leaves exactly the longest fitting prefix of the new item and the old list without its key, so never evicts the new item |
| `BlockCaches.BlockCache.Evict` | src/storage/cache/block_cache.cpp:66-74 | Popping from the back stops at the longest prefix that fits |
| `BlockCaches.FitIsLongest` | src/storage/cache/block_cache.cpp:66-74 | That prefix is unique |
| `BlockCaches.HitsAreCurrent` | src/storage/cache/block_cache.cpp:16-75 | In every run a hit returns the data of the last put of its key that was small enough to be kept |
| `BlockCaches.LeastRecentGoes` | src/storage/cache/block_cache.cpp:16-75 | In every run the list is ordered by last use, so eviction from the back takes what was used the longest ago |
| `BlockCaches.CacheKeysDiffer` | src/storage/cache/block_cache.cpp:10-14 | Two blocks share a cache key only if path and offset agree |

## Left out

- Threads: the model has no schedules between locked sections. What a reader can see between two lock sections of a
  compaction or a flush is stated, in `SwapStepExact`, `Level0StepExact` and `MidFlushAnswersExactly`.
- Disk failures: every write, append, rename and removal succeeds or the process has crashed; error returns for failed
  streams are not modelled. Nothing is claimed about data the operating system has not yet written out.
- Directory creation and the final flush in the engine's destructor, which is a `FlushMemTable`.
- Blocks.Block.Deserialize: says nothing about the size counter of the block, to which the code adds the size of an
  entry it has already moved from (src/storage/sstable/block.cpp:84-85).
- Engines.StorageEngine.Open: requires at least one level and a memtable size of at most 384 MiB, which leaves room for
  an entry of 1 GiB in an SSTable.
- Engines.StorageEngine.WriteEntry: says nothing when the memtable with the new entry no longer fits the 32-bit fields
  of an SSTable; `EngineSteps.AppendedFits` says when it does.
- Engines.StorageEngine.FlushMemTable: the same.
- Engines.StorageEngine.GetFromSSTables: requires that a file which opens has a usable filter. The code divides by the
  filter size without checking it; every table written by the engine has one (`Engines.TablesHaveFilters`). It says
  nothing about a catalogued file whose bytes are not the table it was written with.
- Engines.StorageEngine.CompactionRound: requires a readable catalogue and an output counter ahead of the numbers in
  use. A compaction after a restart can take a name that is catalogued; `CompactionTheory.ReusedPathIsLost` says exactly
  when its output is then lost, but what the whole round answers is not stated.
- Compactions.CompactionManager.MergeFiles: requires its inputs to be sound tables of entries of up to 1 GiB; a missing
  input is covered by `ReadInputs`.
- Compactions.CompactionManager.Emit: covers entries of up to 1 GiB.
- Compactions.CompactionManager.FlushOutput: covers entries of up to 1 GiB and outputs of up to 1.375 GiB, which the
  split at 64 MiB guarantees for such entries.
- Compactions.CompactionManager.WriteVectorToSSTable: says what the file holds when the table fits the 32-bit fields.
- Compactions.CompactionManager.RunCompaction: the same as `CompactionRound`, and at least two levels, without
  which every output is refused.
- EngineSteps.NextKeeps: covers entries of up to 1 GiB and counters that do not wrap around.
- EngineSteps.NextDurable: covers payloads of up to 64 MiB. The code accepts more; `Wals.ReadsTornLog` says what is read
  back then.
- EngineRuns.Survive: covers one crash of a run from an empty disk, of payloads of up to 64 MiB and catalogues that fit
  a checkpoint. What a run that goes on after the restart keeps is `EngineLimits.RestartThenFlush` and
  `EngineLimits.TornTailRecovers`. For a key whose answer a compaction changed, it says what the lookup returns
  (`EngineLimits.RestartAnswersExactly`), without comparing it to the log.
- EngineRuns.ReopenAfterRound: covers a round that started with its counters ahead, as `CompactionRound` does.
- EngineRuns.Run: covers the run of one process that opened an empty disk or whose counters are ahead. A run that goes
  on after a restart with SSTables is covered up to its first flush, by `EngineLimits.RestartThenFlush`.
- SkipLists.SkipList.RandomHeight: any height; its distribution is not modelled.
- Bloom: the hash count of a new filter is the constant seven that ten bits a key give; the rate of false positives is
  not modelled.
- Hlcs.Hlc.Now: timestamps are naturals below 2^64 with shift and or written as arithmetic; `Hlcs.ShiftOr` is the same
  fact on machine words. Readings of 2^48 and above are outside the claims.
- BlockCaches.BlockCache.Put: sizes are natural numbers, without 64-bit wrap-around.
- Rafts: log replication, snapshots and membership have no code here; a majority before `TransitionToLeader` is an
  assumption of the cluster model, since no election code exists. State-change callbacks are left out.
- Time statistics, logging, metrics, configuration loading, the thread pool, UUIDs and string helpers: they
  would only add easy members.
- Float and float-vector serialization.
