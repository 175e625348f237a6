/** The SSTable file: data blocks, Bloom filter, index and footer
    (src/storage/sstable/sstable_writer.cpp and sstable_reader.cpp). */
module SSTableFormat {
  import opened Common
  import opened Bytes
  import opened Serializer
  import opened Tables
  import opened Blocks
  import opened Bloom

  const MAGIC: nat := 0x0053535461626C65
  const FOOTER_SIZE: nat := 48

  datatype IndexEntry = IndexEntry(lastKey: Str, offset: nat, size: nat)

  // ---- packing entries into blocks ----

  /** Greedy packing, with `cur` already in the open block. */
  function Pack(cur: seq<Entry>, es: seq<Entry>): seq<seq<Entry>>
    decreases |es|
  {
    if es == [] then (if cur == [] then [] else [cur])
    else if HasRoom(cur, es[0]) then Pack(cur + [es[0]], es[1..])
    else [cur] + Pack([es[0]], es[1..])
  }

  /** One entry, or within the target size. */
  predicate WellPacked(b: seq<Entry>) {
    b != [] && (|b| == 1 || 4 + TotalSize(b) <= TARGET_BLOCK_SIZE)
  }

  /** Packing loses and reorders nothing, leaves no block empty, and every block is either one entry
      or within the target size. */
  lemma {:induction false} PackIsFaithful(cur: seq<Entry>, es: seq<Entry>)
    requires cur != [] ==> WellPacked(cur)
    ensures Flatten(Pack(cur, es)) == cur + es
    ensures forall i :: 0 <= i < |Pack(cur, es)| ==> WellPacked(Pack(cur, es)[i])
    decreases |es|
  {
    hide Flatten, WellPacked, HasRoom;
    FlattenNothing();
    if es == [] {
      FlattenFirst(cur, []);
      assert [cur] + [] == [cur] && cur + es == cur;
    } else if HasRoom(cur, es[0]) {
      RoomForOne(cur, es[0]);
      PackIsFaithful(cur + [es[0]], es[1..]);
      assert cur + [es[0]] + es[1..] == cur + es;
    } else {
      RoomForOne([], es[0]);
      assert [] + [es[0]] == [es[0]];
      NoRoomInNothing(cur, es[0]);
      PackIsFaithful([es[0]], es[1..]);
      FlattenFirst(cur, Pack([es[0]], es[1..]));
      assert [es[0]] + es[1..] == es;
    }
  }

  lemma RoomForOne(cur: seq<Entry>, e: Entry)
    ensures HasRoom(cur, e) ==> WellPacked(cur + [e])
    ensures HasRoom([], e)
  {
    assert (cur + [e])[..|cur|] == cur;
  }

  lemma NoRoomInNothing(cur: seq<Entry>, e: Entry)
    ensures !HasRoom(cur, e) ==> cur != []
  {
  }

  lemma FlattenFirst(b: seq<Entry>, bs: seq<seq<Entry>>)
    ensures Flatten([b] + bs) == b + Flatten(bs)
  {
    assert ([b] + bs)[1..] == bs;
  }

  /** Greedy: a block is closed only when the next entry would not have fitted. */
  lemma {:induction false} PackIsGreedy(cur: seq<Entry>, es: seq<Entry>, i: nat)
    requires i + 1 < |Pack(cur, es)|
    ensures Pack(cur, es)[i + 1] != [] && |EncodeBlock(Pack(cur, es)[i] + [Pack(cur, es)[i + 1][0]])| > 4096
    decreases |es|
  {
    hide EncodeBlock;
    if HasRoom(cur, es[0]) {
      PackIsGreedy(cur + [es[0]], es[1..], i);
    } else if i == 0 {
      PackStartsWith([es[0]], es[1..]);
      assert (cur + [es[0]])[..|cur|] == cur;
    } else {
      PackIsGreedy([es[0]], es[1..], i - 1);
    }
  }

  lemma {:induction false} PackStartsWith(cur: seq<Entry>, es: seq<Entry>)
    requires cur != []
    ensures Pack(cur, es) != [] && cur <= Pack(cur, es)[0]
    decreases |es|
  {
    if es != [] && HasRoom(cur, es[0]) {
      PackStartsWith(cur + [es[0]], es[1..]);
    }
  }

  // ---- file format ----

  function EncodeBlocks(bs: seq<seq<Entry>>): seq<Byte> {
    if bs == [] then [] else EncodeBlocks(bs[..|bs| - 1]) + EncodeBlock(bs[|bs| - 1])
  }

  function IndexOf(bs: seq<seq<Entry>>): (ix: seq<IndexEntry>)
    ensures |ix| == |bs|
  {
    if bs == [] then [] else
    var n := |bs| - 1;
    IndexOf(bs[..n]) + [IndexEntry(LastKeyOf(bs[n]), |EncodeBlocks(bs[..n])|, |EncodeBlock(bs[n])|)]
  }

  function EncodeIndexEntry(ie: IndexEntry): (r: seq<Byte>)
    ensures |r| == 16 + |ie.lastKey|
  {
    WriteString(ie.lastKey) + (WriteUint64(ie.offset) + WriteUint32(ie.size))
  }

  function EncodeIndexEntries(ix: seq<IndexEntry>): seq<Byte> {
    if ix == [] then [] else EncodeIndexEntries(ix[..|ix| - 1]) + EncodeIndexEntry(ix[|ix| - 1])
  }

  function EncodeIndex(ix: seq<IndexEntry>): seq<Byte> {
    WriteUint32(|ix|) + EncodeIndexEntries(ix)
  }

  function Keys(es: seq<Entry>): (ks: seq<Str>)
    ensures |ks| == |es| && forall i :: 0 <= i < |es| ==> ks[i] == es[i].key
  {
    seq(|es|, i requires 0 <= i < |es| => es[i].key)
  }

  function BloomBits(es: seq<Entry>): (bits: seq<Byte>)
    ensures |bits| == NumBytes(|es|)
  {
    AddAll(seq(NumBytes(|es|), _ => 0), 8 * NumBytes(|es|), NUM_HASHES, Keys(es))
  }

  function EncodeBloom(bits: seq<Byte>): (r: seq<Byte>)
    ensures |r| == 8 + |bits|
  {
    WriteUint32(8 * |bits|) + (WriteUint32(NUM_HASHES) + bits)
  }

  datatype Footer = Footer(bloomOffset: nat, bloomSize: nat, indexOffset: nat, indexSize: nat, entries: nat)

  function EncodeFooter(f: Footer): (r: seq<Byte>)
    ensures |r| == FOOTER_SIZE
  {
    WriteUint64(f.bloomOffset) + (WriteUint64(f.bloomSize) + (WriteUint64(f.indexOffset)
    + (WriteUint64(f.indexSize) + (WriteUint64(f.entries) + WriteUint64(MAGIC)))))
  }

  function FooterOf(data: seq<Byte>, bloom: seq<Byte>, index: seq<Byte>, entries: nat): Footer {
    Footer(|data|, |bloom|, |data| + |bloom|, |index|, entries)
  }

  /** The file for a non-empty list of entries. */
  function EncodeTable(es: seq<Entry>): seq<Byte> {
    var bs := Pack([], es);
    var data, bloom, index := EncodeBlocks(bs), EncodeBloom(BloomBits(es)), EncodeIndex(IndexOf(bs));
    data + bloom + index + EncodeFooter(FooterOf(data, bloom, index, |es|))
  }

  /** Every 32-bit and 64-bit field of the file holds its value. */
  predicate Fits(es: seq<Entry>) {
    var bs := Pack([], es);
    && (forall i :: 0 <= i < |bs| ==> FitsBlock(bs[i]))
    && |EncodeBloom(BloomBits(es))| < U32_LIMIT && 8 * NumBytes(|es|) < U32_LIMIT
    && |EncodeIndex(IndexOf(bs))| < U32_LIMIT
    && |EncodeTable(es)| < U64_LIMIT
  }

  /** A file holding the table `es`. */
  ghost predicate IsTable(file: seq<Byte>, es: seq<Entry>) {
    es != [] && Sorted(es) && Fits(es) && file == EncodeTable(es)
  }

  /** An entry that leaves an output of a merge, already close to its split size, within the format. */
  const ENTRY_LIMIT: nat := 1024 * 1024 * 1024

  /** Entries of bounded size, tombstones without a value. */
  ghost predicate Storable(es: seq<Entry>) {
    forall i :: 0 <= i < |es| ==> EncodedSize(es[i]) <= ENTRY_LIMIT && (es[i].tombstone ==> es[i].value == [])
  }

  // ---- reading ----

  /** What `Open` keeps in memory. */
  datatype Opened = Opened(bits: seq<Byte>, numBits: nat, numHashes: nat, index: seq<IndexEntry>, entries: nat)

  function DecodeFooter(buffer: seq<Byte>): Result<Footer> {
    var (bloomOffset, o1) :- ReadUint64(buffer, 0);
    var (bloomSize, o2) :- ReadUint64(buffer, o1);
    var (indexOffset, o3) :- ReadUint64(buffer, o2);
    var (indexSize, o4) :- ReadUint64(buffer, o3);
    var (entries, o5) :- ReadUint64(buffer, o4);
    var (magic, o6) :- ReadUint64(buffer, o5);
    if magic != MAGIC then Err(Corruption)
    else Ok(Footer(bloomOffset, bloomSize, indexOffset, indexSize, entries))
  }

  function DecodeIndexEntry(buffer: seq<Byte>, offset: nat): Result<(IndexEntry, nat)> {
    var (lastKey, o1) :- ReadString(buffer, offset);
    var (blockOffset, o2) :- ReadUint64(buffer, o1);
    var (blockSize, o3) :- ReadUint32(buffer, o2);
    Ok((IndexEntry(lastKey, blockOffset, blockSize), o3))
  }

  function DecodeIndexEntries(buffer: seq<Byte>, offset: nat, n: nat, done: seq<IndexEntry>): Result<seq<IndexEntry>>
    decreases n, |done|
  {
    if n == 0 then Ok(done) else
    var (ie, next) :- DecodeIndexEntry(buffer, offset);
    DecodeIndexEntries(buffer, next, n - 1, done + [ie])
  }

  function DecodeIndex(buffer: seq<Byte>): Result<seq<IndexEntry>> {
    var (n, offset) :- ReadUint32(buffer, 0);
    DecodeIndexEntries(buffer, offset, n, [])
  }

  /** A count of 2^31 or more is negative as an `int`, so no probe is made. */
  function HashCount(stored: nat): nat {
    if stored < 0x8000_0000 then stored else 0
  }

  function DecodeBloom(bloom: seq<Byte>): Result<(seq<Byte>, nat, nat)> {
    var (numBits, o1) :- ReadUint32(bloom, 0);
    var (hashes, o2) :- ReadUint32(bloom, o1);
    Ok((bloom[o2..], numBits, HashCount(hashes)))
  }

  function DecodeFile(file: seq<Byte>): Result<Opened> {
    if |file| < FOOTER_SIZE then Err(Corruption) else
    var f :- DecodeFooter(file[|file| - FOOTER_SIZE..]);
    var (rawBloom, _) :- ReadRaw(file, f.bloomOffset, f.bloomSize);
    var (bits, numBits, hashes) :- DecodeBloom(rawBloom);
    var (rawIndex, _) :- ReadRaw(file, f.indexOffset, f.indexSize);
    var index :- DecodeIndex(rawIndex);
    Ok(Opened(bits, numBits, hashes, index, f.entries))
  }

  // ---- round trips ----

  lemma DecodesFooter(f: Footer)
    requires f.bloomOffset < U64_LIMIT && f.bloomSize < U64_LIMIT && f.indexOffset < U64_LIMIT
    requires f.indexSize < U64_LIMIT && f.entries < U64_LIMIT
    ensures DecodeFooter(EncodeFooter(f)) == Ok(f)
  {
    hide WriteUint64, ReadUint64;
    var b := EncodeFooter(f);
    var w6 := WriteUint64(MAGIC);
    var w5 := WriteUint64(f.entries) + w6;
    var w4 := WriteUint64(f.indexSize) + w5;
    var w3 := WriteUint64(f.indexOffset) + w4;
    var w2 := WriteUint64(f.bloomSize) + w3;
    assert At(b, 0, WriteUint64(f.bloomOffset) + w2);
    AtSplit(b, 0, WriteUint64(f.bloomOffset), w2);
    AtSplit(b, 8, WriteUint64(f.bloomSize), w3);
    AtSplit(b, 16, WriteUint64(f.indexOffset), w4);
    AtSplit(b, 24, WriteUint64(f.indexSize), w5);
    AtSplit(b, 32, WriteUint64(f.entries), w6);
    ReadsUint64(b, 0, f.bloomOffset);
    ReadsUint64(b, 8, f.bloomSize);
    ReadsUint64(b, 16, f.indexOffset);
    ReadsUint64(b, 24, f.indexSize);
    ReadsUint64(b, 32, f.entries);
    ReadsUint64(b, 40, MAGIC);
  }

  predicate FitsIndexEntry(ie: IndexEntry) {
    |ie.lastKey| < U32_LIMIT && ie.offset < U64_LIMIT && ie.size < U32_LIMIT
  }

  lemma DecodesIndexEntry(buffer: seq<Byte>, offset: nat, ie: IndexEntry)
    requires At(buffer, offset, EncodeIndexEntry(ie)) && FitsIndexEntry(ie)
    ensures DecodeIndexEntry(buffer, offset) == Ok((ie, offset + 16 + |ie.lastKey|))
  {
    hide WriteUint64, ReadUint64, WriteUint32, ReadUint32, WriteString, ReadString;
    var o := offset + 4 + |ie.lastKey|;
    AtSplit(buffer, offset, WriteString(ie.lastKey), WriteUint64(ie.offset) + WriteUint32(ie.size));
    AtSplit(buffer, o, WriteUint64(ie.offset), WriteUint32(ie.size));
    ReadsString(buffer, offset, ie.lastKey);
    ReadsUint64(buffer, o, ie.offset);
    ReadsUint32(buffer, o + 8, ie.size);
  }

  lemma {:induction false} EncodeIndexEntriesCons(ix: seq<IndexEntry>)
    requires ix != []
    ensures EncodeIndexEntries(ix) == EncodeIndexEntry(ix[0]) + EncodeIndexEntries(ix[1..])
  {
    hide EncodeIndexEntry;
    var n := |ix| - 1;
    if n == 0 {
      assert ix[..0] == [] && ix[1..] == [];
      assert EncodeIndexEntries(ix[..0]) == [] && EncodeIndexEntries(ix[1..]) == [];
    } else {
      EncodeIndexEntriesCons(ix[..n]);
      assert ix[..n][1..] == ix[1..][..n - 1] && ix[1..][n - 1] == ix[n];
      var first, middle, last := EncodeIndexEntry(ix[0]), EncodeIndexEntries(ix[1..][..n - 1]), EncodeIndexEntry(ix[n]);
      assert (first + middle) + last == first + (middle + last);
    }
  }

  lemma {:induction false} DecodesIndexEntries(buffer: seq<Byte>, offset: nat, ix: seq<IndexEntry>,
      done: seq<IndexEntry>)
    requires At(buffer, offset, EncodeIndexEntries(ix))
    requires forall i :: 0 <= i < |ix| ==> FitsIndexEntry(ix[i])
    ensures DecodeIndexEntries(buffer, offset, |ix|, done) == Ok(done + ix)
    decreases |ix|
  {
    hide EncodeIndexEntry, DecodeIndexEntry;
    if ix == [] {
      assert done + ix == done;
    } else {
      EncodeIndexEntriesCons(ix);
      AtSplit(buffer, offset, EncodeIndexEntry(ix[0]), EncodeIndexEntries(ix[1..]));
      DecodesIndexEntry(buffer, offset, ix[0]);
      DecodesIndexEntries(buffer, offset + 16 + |ix[0].lastKey|, ix[1..], done + [ix[0]]);
      assert done + [ix[0]] + ix[1..] == done + ix;
    }
  }

  lemma DecodesIndex(ix: seq<IndexEntry>)
    requires |ix| < U32_LIMIT && forall i :: 0 <= i < |ix| ==> FitsIndexEntry(ix[i])
    ensures DecodeIndex(EncodeIndex(ix)) == Ok(ix)
  {
    hide EncodeIndexEntries, DecodeIndexEntries, WriteUint32, ReadUint32;
    var buffer := EncodeIndex(ix);
    assert At(buffer, 0, WriteUint32(|ix|)) && At(buffer, 4, EncodeIndexEntries(ix));
    ReadsUint32(buffer, 0, |ix|);
    DecodesIndexEntries(buffer, 4, ix, []);
    assert [] + ix == ix;
  }

  // ---- the index of a packed file ----

  lemma {:induction false} IndexAt(bs: seq<seq<Entry>>, i: nat)
    requires i < |bs|
    ensures IndexOf(bs)[i] == IndexEntry(LastKeyOf(bs[i]), |EncodeBlocks(bs[..i])|, |EncodeBlock(bs[i])|)
    ensures At(EncodeBlocks(bs), IndexOf(bs)[i].offset, EncodeBlock(bs[i]))
  {
    hide EncodeBlock;
    var n := |bs| - 1;
    var before, block := EncodeBlocks(bs[..n]), EncodeBlock(bs[n]);
    if i < n {
      IndexAt(bs[..n], i);
      assert bs[..n][..i] == bs[..i];
      AtPrefix(before, IndexOf(bs[..n])[i].offset, EncodeBlock(bs[i]), block);
    } else {
      AtEnd(before, block);
    }
  }

  lemma {:induction false} IndexEntriesSize(ix: seq<IndexEntry>)
    ensures 16 * |ix| <= |EncodeIndexEntries(ix)|
    ensures forall i :: 0 <= i < |ix| ==> |ix[i].lastKey| <= |EncodeIndexEntries(ix)|
  {
    hide EncodeIndexEntry;
    if ix != [] {
      IndexEntriesSize(ix[..|ix| - 1]);
    }
  }

  lemma IndexFits(es: seq<Entry>)
    requires Fits(es)
    ensures var ix := IndexOf(Pack([], es));
            |ix| < U32_LIMIT && forall i :: 0 <= i < |ix| ==> FitsIndexEntry(ix[i])
  {
    hide EncodeBlocks, EncodeBlock, EncodeIndexEntries, EncodeBloom, EncodeFooter, BloomBits;
    var bs := Pack([], es);
    var ix := IndexOf(bs);
    IndexEntriesSize(ix);
    forall i | 0 <= i < |ix| ensures FitsIndexEntry(ix[i]) {
      IndexAt(bs, i);
    }
  }

  lemma DecodesBloom(bits: seq<Byte>)
    requires 8 * |bits| < U32_LIMIT
    ensures DecodeBloom(EncodeBloom(bits)) == Ok((bits, 8 * |bits|, NUM_HASHES))
  {
    hide WriteUint32, ReadUint32;
    var bloom := EncodeBloom(bits);
    assert At(bloom, 0, WriteUint32(8 * |bits|)) && At(bloom, 4, WriteUint32(NUM_HASHES)) && bloom[8..] == bits;
    ReadsUint32(bloom, 0, 8 * |bits|);
    ReadsUint32(bloom, 4, NUM_HASHES);
  }

  lemma FileParts(data: seq<Byte>, bloom: seq<Byte>, index: seq<Byte>, footer: seq<Byte>)
    ensures var file := data + bloom + index + footer;
            && At(file, 0, data) && At(file, |data|, bloom) && At(file, |data| + |bloom|, index)
            && file[|file| - |footer|..] == footer
  {
    AtPrefix(data, 0, data, bloom);
    AtEnd(data, bloom);
    AtEnd(data + bloom, index);
    AtPrefix(data + bloom, 0, data, index);
    AtPrefix(data + bloom, |data|, bloom, index);
    AtPrefix(data + bloom + index, 0, data, footer);
    AtPrefix(data + bloom + index, |data|, bloom, footer);
    AtPrefix(data + bloom + index, |data| + |bloom|, index, footer);
  }

  lemma OpensFile(data: seq<Byte>, bits: seq<Byte>, ix: seq<IndexEntry>, entries: nat, footer: Footer, file: seq<Byte>)
    requires 8 * |bits| < U32_LIMIT && entries < U64_LIMIT && |file| < U64_LIMIT
    requires |ix| < U32_LIMIT && forall i :: 0 <= i < |ix| ==> FitsIndexEntry(ix[i])
    requires footer == FooterOf(data, EncodeBloom(bits), EncodeIndex(ix), entries)
    requires file == data + EncodeBloom(bits) + EncodeIndex(ix) + EncodeFooter(footer)
    ensures DecodeFile(file) == Ok(Opened(bits, 8 * |bits|, NUM_HASHES, ix, entries))
  {
    hide EncodeIndex, DecodeIndex, EncodeFooter, DecodeFooter, EncodeBloom, DecodeBloom;
    FileParts(data, EncodeBloom(bits), EncodeIndex(ix), EncodeFooter(footer));
    DecodesFooter(footer);
    assert ReadRaw(file, footer.bloomOffset, footer.bloomSize).Extract().0 == EncodeBloom(bits);
    DecodesBloom(bits);
    assert ReadRaw(file, footer.indexOffset, footer.indexSize).Extract().0 == EncodeIndex(ix);
    DecodesIndex(ix);
  }

  /** Opening a written file recovers the filter, the index and the count. */
  lemma OpensTable(es: seq<Entry>)
    requires Fits(es)
    ensures DecodeFile(EncodeTable(es))
         == Ok(Opened(BloomBits(es), 8 * NumBytes(|es|), NUM_HASHES, IndexOf(Pack([], es)), |es|))
  {
    hide EncodeBlocks, EncodeIndex, EncodeFooter, EncodeBloom, BloomBits, Pack, IndexOf, DecodeFile;
    IndexFits(es);
    CountFits(|es|);
    var data, ix := EncodeBlocks(Pack([], es)), IndexOf(Pack([], es));
    OpensFile(data, BloomBits(es), ix, |es|, FooterOf(data, EncodeBloom(BloomBits(es)), EncodeIndex(ix), |es|),
        EncodeTable(es));
  }

  lemma CountFits(n: nat)
    requires 8 * NumBytes(n) < U32_LIMIT
    ensures n < U64_LIMIT
  {
  }

  /** Each index entry of a written file points at its block. */
  lemma ReadsBlock(es: seq<Entry>, i: nat)
    requires Fits(es) && i < |Pack([], es)|
    ensures var ie := IndexOf(Pack([], es))[i];
            && At(EncodeTable(es), ie.offset, EncodeBlock(Pack([], es)[i]))
            && ie.size == |EncodeBlock(Pack([], es)[i])|
            && ie.lastKey == LastKeyOf(Pack([], es)[i])
            && DecodeBlock(EncodeBlock(Pack([], es)[i])) == Ok(Pack([], es)[i])
  {
    hide EncodeBlock, EncodeBlocks, EncodeIndex, EncodeFooter, BloomBits, EncodeBloom, DecodeBlock, Pack, IndexOf;
    var bs := Pack([], es);
    IndexAt(bs, i);
    BlockRoundTrip(bs[i]);
    var ie, data := IndexOf(bs)[i], EncodeBlocks(bs);
    assert EncodeTable(es)[..|data|] == data;
    assert EncodeTable(es)[ie.offset..ie.offset + ie.size] == data[ie.offset..ie.offset + ie.size];
  }

  // ---- lookups through the index ----

  lemma BelowLast(es: seq<Entry>, n: nat, key: Str)
    requires Sorted(es) && 0 < n <= |es| && Less(es[n - 1].key, key)
    ensures Lookup(es[..n], key).None?
  {
    OrderFacts();
    hide Less;
    LookupSound(es[..n], key);
    assert forall i :: 0 <= i < n - 1 ==> Less(es[i].key, es[n - 1].key);
  }

  lemma AboveLast(es: seq<Entry>, n: nat, key: Str)
    requires Sorted(es) && 0 < n <= |es| && !Less(es[n - 1].key, key)
    ensures Lookup(es[n..], key).None?
  {
    OrderFacts();
    hide Less;
    LookupSound(es[n..], key);
    assert forall i :: n <= i < |es| ==> Less(es[n - 1].key, es[i].key);
  }

  lemma LookupMiddle(a: seq<Entry>, b: seq<Entry>, c: seq<Entry>, key: Str)
    requires Sorted(a + b + c) && b != [] && !Less(LastKeyOf(b), key)
    requires a != [] ==> Less(LastKeyOf(a), key)
    ensures Lookup(a + b + c, key) == Lookup(b, key) && Sorted(b)
  {
    hide Less, Lookup;
    var es := a + b + c;
    LookupAppend(a + b, c, key);
    LookupAppend(a, b, key);
    assert es[..|a|] == a && es[|a + b|..] == c && es[|a|..|a| + |b|] == b;
    if a != [] {
      BelowLast(es, |a|, key);
    } else {
      NothingInEmpty(key);
    }
    assert es[|a| + |b| - 1] == b[|b| - 1];
    AboveLast(es, |a| + |b|, key);
    forall i, j | 0 <= i < j < |b| ensures Less(b[i].key, b[j].key) {
      assert es[|a| + i] == b[i] && es[|a| + j] == b[j];
    }
  }

  /** The first block whose last key is not below `key` is the only one that can hold it. */
  lemma CandidateBlock(bs: seq<seq<Entry>>, key: Str, i: nat)
    requires NonEmptyBlocks(bs) && Sorted(Flatten(bs)) && i < |bs|
    requires i > 0 ==> Less(LastKeyOf(bs[i - 1]), key)
    requires !Less(LastKeyOf(bs[i]), key)
    ensures Lookup(Flatten(bs), key) == Lookup(bs[i], key) && Sorted(bs[i])
  {
    hide Less, Lookup, Sorted, Flatten;
    FlattenSplit(bs, i);
    if i > 0 {
      FlattenLast(bs[..i]);
    } else {
      FlattenNothing();
      assert bs[..0] == [];
    }
    LookupMiddle(Flatten(bs[..i]), bs[i], Flatten(bs[i + 1..]), key);
  }

  lemma NothingInEmpty(key: Str)
    ensures Lookup([], key).None?
  {
  }

  lemma BeyondAllBlocks(bs: seq<seq<Entry>>, key: Str)
    requires NonEmptyBlocks(bs) && Sorted(Flatten(bs))
    requires bs != [] ==> Less(LastKeyOf(bs[|bs| - 1]), key)
    ensures Lookup(Flatten(bs), key).None?
  {
    if bs != [] {
      FlattenLast(bs);
      var es := Flatten(bs);
      assert es[..|es|] == es;
      BelowLast(es, |es|, key);
    }
  }

  ghost predicate SortedIndex(ix: seq<IndexEntry>) {
    forall i, j :: 0 <= i < j < |ix| ==> Less(ix[i].lastKey, ix[j].lastKey)
  }

  /** The last keys of the blocks increase. */
  lemma IndexIsSorted(bs: seq<seq<Entry>>)
    requires NonEmptyBlocks(bs) && Sorted(Flatten(bs))
    ensures SortedIndex(IndexOf(bs))
  {
    hide Less, IndexOf, Flatten, Sorted, NonEmptyBlocks;
    forall i, j | 0 <= i < j < |bs| ensures Less(IndexOf(bs)[i].lastKey, IndexOf(bs)[j].lastKey) {
      LastKeysIncrease(bs, i, j);
    }
  }

  lemma LastKeysIncrease(bs: seq<seq<Entry>>, i: nat, j: nat)
    requires NonEmptyBlocks(bs) && Sorted(Flatten(bs)) && i < j < |bs|
    ensures Less(IndexOf(bs)[i].lastKey, IndexOf(bs)[j].lastKey)
  {
    hide Less, IndexOf, Flatten, Sorted, NonEmptyBlocks, LastKeyOf, EncodeBlock, EncodeBlocks;
    IndexAt(bs, i);
    IndexAt(bs, j);
    LastIndex(bs, i);
    LastIndex(bs, j);
    FlattenGrows(bs, i + 1, j + 1);
    SortedPair(Flatten(bs), |Flatten(bs[..i + 1])| - 1, |Flatten(bs[..j + 1])| - 1);
  }

  lemma SortedPair(es: seq<Entry>, i: nat, j: nat)
    requires Sorted(es) && i < j < |es|
    ensures Less(es[i].key, es[j].key)
  {
    hide Less;
  }

  // ---- tables up to 1.375 GiB fit ----

  const COMFORTABLE_SIZE: nat := 0x5800_0000

  lemma {:induction false} PiecesSize(bs: seq<seq<Entry>>)
    requires NonEmptyBlocks(bs)
    ensures |bs| <= |Flatten(bs)|
    ensures |EncodeBlocks(bs)| == 4 * |bs| + TotalSize(Flatten(bs))
    ensures |EncodeIndexEntries(IndexOf(bs))| <= 16 * |bs| + TotalSize(Flatten(bs))
    ensures forall i :: 0 <= i < |bs| ==> TotalSize(bs[i]) <= TotalSize(Flatten(bs))
  {
    hide EncodeBlock, EncodeBlocks, EncodeIndexEntries, IndexOf, Flatten, TotalSize;
    if bs == [] {
      NoPieces();
    } else {
      var n := |bs| - 1;
      PiecesSize(bs[..n]);
      FlattenSnoc(bs, n);
      assert bs[..n + 1] == bs;
      TotalSizeSplit(Flatten(bs[..n]), bs[n]);
      OnePieceMore(bs);
    }
  }

  lemma NoPieces()
    ensures EncodeBlocks([]) == [] && EncodeIndexEntries(IndexOf([])) == [] && Flatten([]) == [] && TotalSize([]) == 0
  {
  }

  lemma OnePieceMore(bs: seq<seq<Entry>>)
    requires bs != [] && bs[|bs| - 1] != []
    ensures var rest, last := bs[..|bs| - 1], bs[|bs| - 1];
      && |EncodeBlocks(bs)| == |EncodeBlocks(rest)| + 4 + TotalSize(last)
      && |EncodeIndexEntries(IndexOf(bs))| <= |EncodeIndexEntries(IndexOf(rest))| + 16 + TotalSize(last)
  {
    hide EncodeBlock, EncodeIndexEntry, TotalSize;
    var rest, last := bs[..|bs| - 1], bs[|bs| - 1];
    SizeBounds(last);
    var ie := IndexEntry(LastKeyOf(last), |EncodeBlocks(rest)|, |EncodeBlock(last)|);
    assert IndexOf(bs) == IndexOf(rest) + [ie];
    assert IndexOf(bs)[..|rest|] == IndexOf(rest);
    assert |ie.lastKey| <= EncodedSize(last[|last| - 1]);
  }

  lemma EmptySize()
    ensures TotalSize([]) == 0
  {
  }

  /** A table of up to 1.375 GiB of entries fits every field. */
  lemma ComfortableTableFits(es: seq<Entry>)
    requires TotalSize(es) <= COMFORTABLE_SIZE
    ensures Fits(es)
  {
    hide EncodeBlock, EncodeBlocks, EncodeIndexEntries, IndexOf, Pack, Flatten, TotalSize, BloomBits, EncodeFooter,
        NumBytes;
    var bs := Pack([], es);
    PackIsFaithful([], es);
    assert [] + es == es;
    PiecesSize(bs);
    SizeBounds(es);
    BloomSize(|es|);
    assert |EncodeTable(es)| == |EncodeBlocks(bs)| + |EncodeBloom(BloomBits(es))| + |EncodeIndex(IndexOf(bs))|
        + FOOTER_SIZE;
  }

  lemma FitsIsBounded(es: seq<Entry>)
    requires Fits(es)
    ensures |EncodeTable(es)| < U64_LIMIT
  {
  }

  lemma BloomSize(n: nat)
    ensures NumBytes(n) <= 2 * n + 9
  {
  }
}
