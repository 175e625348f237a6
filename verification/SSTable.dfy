/** Writing and reading SSTable files (src/storage/sstable/sstable_writer.cpp and sstable_reader.cpp). */
module SSTables {
  import opened Common
  import opened Bytes
  import opened Serializer
  import opened Tables
  import opened Blocks
  import opened Bloom
  import opened SSTableFormat
  import opened Disks
  import opened SkipLists

  // ---- SSTableWriter ----

  /** Phase 1: drains the iterator. */
  method Collect(it: Iterator) returns (all: seq<Entry>)
    requires it.Positioned() && it.index == 0
    modifies it
    ensures all == it.list.Entries()
  {
    all := [];
    ghost var es := it.list.Entries();
    while it.Valid()
      invariant it.Positioned() && es == it.list.Entries() && all == es[..it.index]
      decreases |es| - it.index
    {
      all := all + [it.Current()];
      it.Next();
    }
  }

  /** Phase 2: the Bloom filter of all keys. */
  method BuildBloom(all: seq<Entry>) returns (bloom: BloomFilter)
    ensures fresh(bloom) && bloom.bits == BloomBits(all)
    ensures bloom.numBits == 8 * NumBytes(|all|) && bloom.numHashes == NUM_HASHES
  {
    hide AddProbes, NumBytes;
    bloom := new BloomFilter(|all|);
    ghost var keys := Keys(all);
    var i := 0;
    while i < |all|
      invariant 0 <= i <= |all| && fresh(bloom) && |bloom.bits| == NumBytes(|all|)
      invariant AddAll(bloom.bits, bloom.numBits, NUM_HASHES, keys[i..]) == BloomBits(all)
    {
      bloom.Add(all[i].key);
      assert keys[i..][0] == all[i].key && keys[i..][1..] == keys[i + 1..];
      i := i + 1;
    }
  }

  /** Phase 3: the data blocks and their index. */
  method BuildBlocks(all: seq<Entry>) returns (data: seq<Byte>, index: seq<IndexEntry>, total: nat)
    ensures data == EncodeBlocks(Pack([], all)) && index == IndexOf(Pack([], all)) && total == |all|
  {
    hide EncodeBlock, HasRoom, EncodeBlocks, IndexOf, Pack, TotalSize;
    data, index, total := [], [], 0;
    var block := new Block();
    ghost var done: seq<seq<Entry>> := [];
    EmptyBlocks();
    assert done + Pack([], all) == Pack([], all);
    var i := 0;
    while i < |all|
      invariant 0 <= i <= |all| && fresh(block) && block.Sized()
      invariant data == EncodeBlocks(done) && index == IndexOf(done) && total + |block.entries| == i
      invariant done + Pack(block.entries, all[i..]) == Pack([], all)
    {
      ghost var cur := block.entries;
      PackNext(done, cur, all[i..]);
      assert all[i..][1..] == all[i + 1..];
      FreshBlockTakes(all[i]);
      var added := block.Add(all[i]);
      if !added {
        data, index, total := FlushBlock(block, data, index, total, done);
        done := done + [cur];
        block := new Block();
        var _ := block.Add(all[i]);
        assert block.entries == [all[i]];
      }
      i := i + 1;
    }
    assert all[i..] == [];
    PackEnds(done, block.entries);
    if block.entries != [] {
      data, index, total := FlushBlock(block, data, index, total, done);
      done := done + [block.entries];
    }
  }

  /** What the writer does with the next entry is what packing does. */
  lemma PackNext(done: seq<seq<Entry>>, cur: seq<Entry>, es: seq<Entry>)
    requires es != []
    ensures HasRoom(cur, es[0]) ==> Pack(cur, es) == Pack(cur + [es[0]], es[1..])
    ensures !HasRoom(cur, es[0]) ==> done + Pack(cur, es) == (done + [cur]) + Pack([es[0]], es[1..])
  {
    hide HasRoom;
  }

  lemma PackEnds(done: seq<seq<Entry>>, cur: seq<Entry>)
    ensures done + Pack(cur, []) == if cur == [] then done else done + [cur]
  {
  }

  lemma EmptyBlocks()
    ensures EncodeBlocks([]) == [] && IndexOf([]) == []
  {
  }

  lemma FreshBlockTakes(e: Entry)
    ensures HasRoom([], e)
  {
  }

  /** Appends one block to the file and its entry to the index. The 32-bit cast of the block size happens
      when the entry is written, where only the low 32 bits are kept. */
  method FlushBlock(block: Block, data0: seq<Byte>, index0: seq<IndexEntry>, total0: nat, ghost done: seq<seq<Entry>>)
    returns (data: seq<Byte>, index: seq<IndexEntry>, total: nat)
    requires block.entries != [] && data0 == EncodeBlocks(done) && index0 == IndexOf(done)
    ensures data == EncodeBlocks(done + [block.entries]) && index == IndexOf(done + [block.entries])
    ensures total == total0 + |block.entries|
  {
    hide EncodeBlock;
    var serialized := block.Serialize();
    index := index0 + [IndexEntry(block.LastKey(), |data0|, |serialized|)];
    data := data0 + serialized;
    total := total0 + |block.entries|;
    assert (done + [block.entries])[..|done|] == done;
  }

  /** Phases 2 to 6. Sizes of the filter and the index are cut to 32 bits. */
  method BuildTable(all: seq<Entry>) returns (file: seq<Byte>)
    requires all != []
    ensures Fits(all) ==> file == EncodeTable(all)
  {
    hide EncodeBlocks, IndexOf, Pack, BloomBits, WriteUint32, WriteUint64, EncodeIndexEntries, NumBytes;
    var bloom := BuildBloom(all);
    var data, index, total := BuildBlocks(all);
    var fileOffset := |data|;
    var bloomOffset := fileOffset;
    var bloomBlock := WriteUint32(bloom.numBits);
    bloomBlock := bloomBlock + WriteUint32(bloom.numHashes);
    bloomBlock := bloomBlock + bloom.bits;
    assert bloomBlock == EncodeBloom(BloomBits(all));
    var bloomSize := |bloomBlock| % U32_LIMIT;
    fileOffset := fileOffset + bloomSize;
    var indexOffset := fileOffset;
    var indexBlock := BuildIndex(index);
    var indexSize := |indexBlock| % U32_LIMIT;
    var footer := WriteUint64(bloomOffset);
    footer := footer + WriteUint64(bloomSize);
    footer := footer + WriteUint64(indexOffset);
    footer := footer + WriteUint64(indexSize);
    footer := footer + WriteUint64(total);
    footer := footer + WriteUint64(MAGIC);
    assert footer == EncodeFooter(Footer(bloomOffset, bloomSize, indexOffset, indexSize, total));
    file := data + bloomBlock + indexBlock + footer;
  }

  method BuildIndex(index: seq<IndexEntry>) returns (block: seq<Byte>)
    ensures block == EncodeIndex(index)
  {
    hide WriteUint32, WriteUint64;
    block := WriteUint32(|index|);
    var i := 0;
    while i < |index|
      invariant 0 <= i <= |index| && block == WriteUint32(|index|) + EncodeIndexEntries(index[..i])
    {
      ghost var before := block;
      block := block + WriteUint32(|index[i].lastKey|) + index[i].lastKey;
      block := block + WriteUint64(index[i].offset);
      block := block + WriteUint32(index[i].size);
      assert block == before + EncodeIndexEntry(index[i]);
      assert index[..i + 1][..i] == index[..i];
      i := i + 1;
    }
    assert index[..i] == index;
  }

  /** Writes the iterator's entries to `path`. An empty input leaves no file behind. */
  method WriteTable(disk: Disk, path: Str, it: Iterator) returns (r: Result<()>)
    requires it.Positioned() && it.index == 0
    modifies disk, it
    ensures var es := it.list.Entries();
            if es == [] then
              && r == Err(InvalidArgument) && disk.files == old(disk.files) - {path}
              && disk.trace == old(disk.trace) + [Write(path, []), Remove(path)]
            else
              && r.Ok? && path in disk.files && disk.files == old(disk.files)[path := disk.files[path]]
              && disk.trace == old(disk.trace) + [Write(path, disk.files[path])]
              && (Fits(es) ==> disk.files[path] == EncodeTable(es))
  {
    hide Fits, EncodeTable;
    var all := Collect(it);
    if all == [] {
      disk.Perform(Write(path, []));
      disk.Perform(Remove(path));
      assert disk.files == old(disk.files) - {path};
      return Err(InvalidArgument);
    }
    var file := BuildTable(all);
    disk.Perform(Write(path, file));
    r := Ok(());
  }

  // ---- SSTableReader ----

  /** The first index entry whose last key is not below `key`, or -1. */
  method SearchIndex(index: seq<IndexEntry>, key: Str) returns (candidate: int)
    ensures -1 <= candidate < |index|
    ensures SortedIndex(index) && candidate == -1 ==> forall i :: 0 <= i < |index| ==> Less(index[i].lastKey, key)
    ensures candidate >= 0 ==> !Less(index[candidate].lastKey, key)
    ensures SortedIndex(index) && candidate >= 0 ==> forall i :: 0 <= i < candidate ==> Less(index[i].lastKey, key)
  {
    hide Less;
    var lo, hi := 0, |index| - 1;
    candidate := -1;
    while lo <= hi
      invariant 0 <= lo <= hi + 1 <= |index|
      invariant if candidate == -1 then hi == |index| - 1 else
        candidate == hi + 1 && candidate < |index| && !Less(index[candidate].lastKey, key)
      invariant SortedIndex(index) ==> forall i :: 0 <= i < lo ==> Less(index[i].lastKey, key)
    {
      var mid := lo + (hi - lo) / 2;
      if !Less(index[mid].lastKey, key) {
        candidate := mid;
        hi := mid - 1;
      } else {
        SmallerBefore(index, key, mid);
        lo := mid + 1;
      }
    }
  }

  lemma SmallerBefore(index: seq<IndexEntry>, key: Str, mid: nat)
    requires mid < |index| && Less(index[mid].lastKey, key)
    ensures SortedIndex(index) ==> forall i :: 0 <= i <= mid ==> Less(index[i].lastKey, key)
  {
    if SortedIndex(index) {
      forall i | 0 <= i < mid ensures Less(index[i].lastKey, key) {
        hide Less;
        LessTrans(index[i].lastKey, index[mid].lastKey, key);
      }
    }
  }

  class SSTableReader {
    const path: Str
    const bloom: BloomFilter
    const index: seq<IndexEntry>
    const numEntries: nat

    constructor (path: Str, bloom: BloomFilter, index: seq<IndexEntry>, numEntries: nat)
      ensures this.path == path && this.bloom == bloom && this.index == index && this.numEntries == numEntries
    {
      this.path, this.bloom, this.index, this.numEntries := path, bloom, index, numEntries;
    }

    ghost function Loaded(): Opened
      reads bloom
    {
      Opened(bloom.bits, bloom.numBits, bloom.numHashes, index, numEntries)
    }

    /** The filter can be probed; `Open` does not check this of a corrupt file. */
    ghost predicate FilterUsable()
      reads bloom
    {
      0 < bloom.numBits <= 8 * |bloom.bits|
    }

    /** This reader was opened on a file holding the table `es`, which is still there. */
    ghost predicate Serves(files: Files, es: seq<Entry>)
      reads bloom
    {
      path in files && IsTable(files[path], es) && DecodeFile(files[path]) == Ok(Loaded())
    }

    static method Open(disk: Disk, path: Str) returns (r: Result<SSTableReader>)
      ensures path !in disk.files ==> r == Err(IoError)
      ensures path in disk.files && r.Err? ==> DecodeFile(disk.files[path]) == Err(r.error)
      ensures r.Ok? ==> path in disk.files && fresh(r.value) && fresh(r.value.bloom) && r.value.path == path
                        && DecodeFile(disk.files[path]) == Ok(r.value.Loaded())
    {
      hide ReadUint32, DecodeIndexEntries, DecodeFooter, DecodeIndexEntry;
      if path !in disk.files {
        return Err(IoError);
      }
      var file := disk.files[path];
      if |file| < FOOTER_SIZE {
        return Err(Corruption);
      }
      var footer :- DecodeFooter(file[|file| - FOOTER_SIZE..]);
      var rawBloom :- ReadRaw(file, footer.bloomOffset, footer.bloomSize);
      var filter :- DecodeBloom(rawBloom.0);
      var bloom := new BloomFilter.FromRaw(filter.0, filter.1, filter.2);
      var rawIndex :- ReadRaw(file, footer.indexOffset, footer.indexSize);
      var index :- LoadIndex(rawIndex.0);
      var reader := new SSTableReader(path, bloom, index, footer.entries);
      return Ok(reader);
    }

    static method LoadIndex(buffer: seq<Byte>) returns (r: Result<seq<IndexEntry>>)
      ensures r == DecodeIndex(buffer)
    {
      hide ReadUint32, DecodeIndexEntry;
      var header :- ReadUint32(buffer, 0);
      var (n, offset) := header;
      var index: seq<IndexEntry> := [];
      var i := 0;
      while i < n
        invariant 0 <= i <= n && DecodeIndexEntries(buffer, offset, n - i, index) == DecodeIndex(buffer)
      {
        var read :- DecodeIndexEntry(buffer, offset);
        offset := read.1;
        index := index + [read.0];
        i := i + 1;
      }
      return Ok(index);
    }

    method ReadBlock(disk: Disk, offset: nat, size: nat) returns (r: Result<Block>)
      ensures path !in disk.files ==> r == Err(IoError)
      ensures path in disk.files && r.Ok? ==>
        offset + size <= |disk.files[path]| && fresh(r.value)
        && DecodeBlock(disk.files[path][offset..offset + size]) == Ok(r.value.entries)
      ensures path in disk.files && r.Err? ==>
        offset + size > |disk.files[path]| || DecodeBlock(disk.files[path][offset..offset + size]) == Err(r.error)
    {
      hide DecodeBlock;
      if path !in disk.files {
        return Err(IoError);
      }
      var raw :- ReadRaw(disk.files[path], offset, size);
      r := Block.Deserialize(raw.0);
    }

    /** Bloom filter, index search, block search. It never answers with another key's entry, and on a
        file that holds a table it is lookup in that table. */
    method Get(disk: Disk, key: Str, ghost es: seq<Entry>) returns (r: Result<Option<Entry>>)
      requires FilterUsable()
      ensures r.Ok? && r.value.Some? ==> r.value.value.key == key
      ensures Serves(disk.files, es) ==> r == Ok(Lookup(es, key))
    {
      hide Less, DecodeBlock, Lookup, IsTable, DecodeFile;
      var hit := bloom.MayContain(key);
      if !hit {
        if Serves(disk.files, es) {
          MissedKeyIsAbsent(disk.files, es, key);
        }
        return Ok(None);
      }
      var candidate := SearchIndex(index, key);
      if candidate == -1 {
        if Serves(disk.files, es) {
          BeyondIndexIsAbsent(disk.files, es, key);
        }
        return Ok(None);
      }
      if Serves(disk.files, es) {
        CandidateHasKey(disk.files, es, key, candidate);
      }
      var block :- ReadBlock(disk, index[candidate].offset, index[candidate].size);
      var found := block.Get(key);
      return Ok(found);
    }

    /** All entries in file order. */
    method ReadAll(disk: Disk, ghost es: seq<Entry>) returns (r: Result<seq<Entry>>)
      ensures Serves(disk.files, es) ==> r == Ok(es)
    {
      hide *;
      var all: seq<Entry> := [];
      ghost var bs := Pack([], es);
      var i := 0;
      FlattenNothing();
      if Serves(disk.files, es) {
        LoadedIndex(disk.files, es);
        IndexCovers(es);
        assert bs[..0] == [];
      }
      while i < |index|
        invariant 0 <= i <= |index|
        invariant Serves(disk.files, es) ==> |index| == |bs| && all == Flatten(bs[..i])
      {
        if Serves(disk.files, es) {
          BlockIsThere(disk.files, es, i);
          FlattenSnoc(bs, i);
        }
        var block := ReadBlock(disk, index[i].offset, index[i].size);
        if block.Err? {
          return Err(block.error);
        }
        all := all + block.value.entries;
        i := i + 1;
      }
      assert Serves(disk.files, es) ==> bs[..i] == bs;
      return Ok(all);
    }

    lemma IndexCovers(es: seq<Entry>)
      ensures |IndexOf(Pack([], es))| == |Pack([], es)|
    {
      hide Pack, IndexOf;
    }

    // ---- what serving a table means for each part ----

    lemma LoadedIndex(files: Files, es: seq<Entry>)
      requires Serves(files, es)
      ensures index == IndexOf(Pack([], es)) && Flatten(Pack([], es)) == es && NonEmptyBlocks(Pack([], es))
      ensures bloom.bits == BloomBits(es) && bloom.numBits == 8 * NumBytes(|es|) && bloom.numHashes == NUM_HASHES
      ensures FilterUsable()
    {
      hide DecodeFile, EncodeTable, IndexOf, BloomBits, Pack, Flatten;
      OpensTable(es);
      PackIsFaithful([], es);
      assert [] + es == es;
    }

    lemma BlockIsThere(files: Files, es: seq<Entry>, i: nat)
      requires Serves(files, es) && i < |index|
      ensures |index| == |Pack([], es)| && path in files && index[i].offset + index[i].size <= |files[path]|
      ensures DecodeBlock(files[path][index[i].offset..index[i].offset + index[i].size]) == Ok(Pack([], es)[i])
      ensures index[i].lastKey == LastKeyOf(Pack([], es)[i])
    {
      hide DecodeFile, EncodeTable, IndexOf, BloomBits, Pack, Flatten, DecodeBlock;
      LoadedIndex(files, es);
      ReadsBlock(es, i);
    }

    lemma MissedKeyIsAbsent(files: Files, es: seq<Entry>, key: Str)
      requires Serves(files, es) && FilterUsable() && !Hits(bloom.bits, bloom.numBits, bloom.numHashes, key)
      ensures Lookup(es, key).None?
    {
      hide DecodeFile, EncodeTable, IndexOf, Pack, Flatten, Hits, AddAll;
      LoadedIndex(files, es);
      LookupSound(es, key);
      if Lookup(es, key).Some? {
        var n := LookupIndex(es, key);
        AddedKeysHit(seq(NumBytes(|es|), _ => 0), 8 * NumBytes(|es|), NUM_HASHES, Keys(es), n);
      }
    }

    lemma BeyondIndexIsAbsent(files: Files, es: seq<Entry>, key: Str)
      requires Serves(files, es) && (SortedIndex(index) ==> forall i ::
        0 <= i < |index| ==> Less(index[i].lastKey, key))
      ensures Lookup(es, key).None?
    {
      hide DecodeFile, EncodeTable, IndexOf, Pack, Flatten, BloomBits, Less, Lookup, Fits;
      LoadedIndex(files, es);
      var bs := Pack([], es);
      IndexIsSorted(bs);
      if bs != [] {
        BlockIsThere(files, es, |bs| - 1);
      }
      BeyondAllBlocks(bs, key);
    }

    lemma CandidateHasKey(files: Files, es: seq<Entry>, key: Str, i: nat)
      requires Serves(files, es) && i < |index| && !Less(index[i].lastKey, key)
      requires SortedIndex(index) ==> forall j :: 0 <= j < i ==> Less(index[j].lastKey, key)
      ensures path in files && index[i].offset + index[i].size <= |files[path]|
      ensures |index| == |Pack([], es)|
      ensures DecodeBlock(files[path][index[i].offset..index[i].offset + index[i].size]) == Ok(Pack([], es)[i])
      ensures Sorted(Pack([], es)[i]) && Lookup(Pack([], es)[i], key) == Lookup(es, key)
    {
      hide DecodeFile, EncodeTable, IndexOf, Pack, Flatten, BloomBits, Less, Lookup, DecodeBlock, Fits;
      LoadedIndex(files, es);
      var bs := Pack([], es);
      IndexIsSorted(bs);
      BlockIsThere(files, es, i);
      if i > 0 {
        BlockIsThere(files, es, i - 1);
      }
      CandidateBlock(bs, key, i);
    }
  }
}
