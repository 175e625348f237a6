/** What the decoders accept: exactly the bytes the encoders write, whatever follows them; and the bytes of small
    examples, field by field. */
module Formats {
  import opened Common
  import opened Bytes
  import opened Serializer
  import opened Tables
  import opened Blocks
  import opened SSTableFormat
  import opened Paths
  import opened Catalogue
  import opened Crc32s
  import opened Wals
  import opened Checkpoints

  // ---- words and strings ----

  lemma ReadUintExactly(buffer: seq<Byte>, offset: nat, k: nat, n: nat, next: nat)
    ensures ReadUint(buffer, offset, k) == Ok((n, next)) <==>
      n < Pow(256, k) && next == offset + k && At(buffer, offset, LittleEndian(n, k))
  {
    hide Value, LittleEndian, Pow;
    if ReadUint(buffer, offset, k) == Ok((n, next)) {
      LittleEndianOfValue(buffer[offset..offset + k]);
    }
    if n < Pow(256, k) {
      ValueOfLittleEndian(n, k);
    }
  }

  lemma WordLimits()
    ensures Pow(256, 4) == U32_LIMIT && Pow(256, 8) == U64_LIMIT
  {
  }

  lemma ReadUint32Exactly(buffer: seq<Byte>, offset: nat, n: nat, next: nat)
    ensures ReadUint32(buffer, offset) == Ok((n, next)) <==>
      n < U32_LIMIT && next == offset + 4 && At(buffer, offset, WriteUint32(n))
  {
    WordLimits();
    hide Pow, LittleEndian, ReadUint;
    ReadUintExactly(buffer, offset, 4, n, next);
  }

  lemma ReadUint64Exactly(buffer: seq<Byte>, offset: nat, n: nat, next: nat)
    ensures ReadUint64(buffer, offset) == Ok((n, next)) <==>
      n < U64_LIMIT && next == offset + 8 && At(buffer, offset, WriteUint64(n))
  {
    WordLimits();
    hide Pow, LittleEndian, ReadUint;
    ReadUintExactly(buffer, offset, 8, n, next);
  }

  lemma ReadStringExactly(buffer: seq<Byte>, offset: nat, s: Str, next: nat)
    ensures ReadString(buffer, offset) == Ok((s, next)) <==>
      |s| < U32_LIMIT && next == offset + 4 + |s| && At(buffer, offset, WriteString(s))
  {
    hide ReadUint32, WriteUint32;
    AtSplit(buffer, offset, WriteUint32(|s|), s);
    ReadUint32Exactly(buffer, offset, |s|, offset + 4);
    if ReadUint32(buffer, offset).Ok? {
      var (n, o) := ReadUint32(buffer, offset).value;
      ReadUint32Exactly(buffer, offset, n, o);
    }
  }

  /** A piece ends inside the buffer. */
  lemma AtBound(buffer: seq<Byte>, offset: nat, piece: seq<Byte>)
    requires At(buffer, offset, piece)
    ensures offset + |piece| <= |buffer| && At(buffer, offset + |piece|, [])
  {
  }

  /** A piece at the start is a prefix. */
  lemma AtStart(buffer: seq<Byte>, piece: seq<Byte>)
    ensures At(buffer, 0, piece) <==> piece <= buffer
  {
  }

  // ---- the checkpoint ----

  lemma DecodeMetaExactly(buffer: seq<Byte>, offset: nat, m: Meta, next: nat)
    ensures DecodeMeta(buffer, offset) == Ok((m, next)) <==>
      FitsMeta(m) && next == offset + |EncodeMeta(m)| && At(buffer, offset, EncodeMeta(m))
  {
    hide FitsMeta, EncodeMeta, DecodeMeta;
    if FitsMeta(m) && At(buffer, offset, EncodeMeta(m)) {
      DecodesMeta(buffer, offset, m);
    }
    if DecodeMeta(buffer, offset).Ok? {
      var (m', next') := DecodeMeta(buffer, offset).value;
      MetaInRange(buffer, offset);
      MetaWasEncoded(buffer, offset, m', next');
    }
  }

  lemma MetaWasEncoded(buffer: seq<Byte>, offset: nat, m: Meta, next: nat)
    requires DecodeMeta(buffer, offset) == Ok((m, next))
    ensures next == offset + |EncodeMeta(m)| && At(buffer, offset, EncodeMeta(m))
  {
    hide WriteUint32, WriteUint64, WriteString, ReadUint32, ReadUint64, ReadString, IntBits, FromIntBits, At;
    var (level, o1) := ReadUint32(buffer, offset).value;
    var (size, o2) := ReadUint64(buffer, o1).value;
    var (seqno, o3) := ReadUint64(buffer, o2).value;
    var (smallest, o4) := ReadString(buffer, o3).value;
    var (largest, o5) := ReadString(buffer, o4).value;
    var (path, o6) := ReadString(buffer, o5).value;
    ReadUint32Exactly(buffer, offset, level, o1);
    ReadUint64Exactly(buffer, o1, size, o2);
    ReadUint64Exactly(buffer, o2, seqno, o3);
    ReadStringExactly(buffer, o3, smallest, o4);
    ReadStringExactly(buffer, o4, largest, o5);
    ReadStringExactly(buffer, o5, path, o6);
    BitsRoundTrip(level);
    var w6 := WriteString(m.path);
    var w5 := WriteString(m.largest) + w6;
    var w4 := WriteString(m.smallest) + w5;
    var w3 := WriteUint64(m.seqno) + w4;
    var w2 := WriteUint64(m.size) + w3;
    AtSplit(buffer, offset, WriteUint32(level), w2);
    AtSplit(buffer, o1, WriteUint64(m.size), w3);
    AtSplit(buffer, o2, WriteUint64(m.seqno), w4);
    AtSplit(buffer, o3, WriteString(m.smallest), w5);
    AtSplit(buffer, o4, WriteString(m.largest), w6);
  }

  lemma BitsRoundTrip(bits: nat)
    requires bits < U32_LIMIT
    ensures IntBits(FromIntBits(bits)) == bits
  {
  }

  lemma {:induction false} MetasExtend(buffer: seq<Byte>, offset: nat, n: nat, done: seq<Meta>)
    ensures var r := DecodeMetas(buffer, offset, n, done); if r.Ok? then done <= r.value else r == Err(Corruption)
    decreases n
  {
    MetaErrors(buffer, offset);
    hide DecodeMeta;
    if n > 0 && DecodeMeta(buffer, offset).Ok? {
      var (m, next) := DecodeMeta(buffer, offset).value;
      MetasExtend(buffer, next, n - 1, done + [m]);
    }
  }

  lemma MetaErrors(buffer: seq<Byte>, offset: nat)
    ensures DecodeMeta(buffer, offset).Ok? || DecodeMeta(buffer, offset) == Err(Corruption)
  {
    hide Value;
  }

  lemma EntryErrors(buffer: seq<Byte>, offset: nat)
    ensures DecodeEntry(buffer, offset).Ok? || DecodeEntry(buffer, offset) == Err(Corruption)
    ensures DecodeIndexEntry(buffer, offset).Ok? || DecodeIndexEntry(buffer, offset) == Err(Corruption)
  {
    hide Value;
  }

  lemma ReadErrors(buffer: seq<Byte>)
    ensures forall o :: ReadUint32(buffer, o).Ok? || ReadUint32(buffer, o) == Err(Corruption)
    ensures forall o :: ReadUint64(buffer, o).Ok? || ReadUint64(buffer, o) == Err(Corruption)
    ensures forall o :: ReadString(buffer, o).Ok? || ReadString(buffer, o) == Err(Corruption)
  {
  }

  lemma {:induction false} DecodeMetasExactly(buffer: seq<Byte>, offset: nat, n: nat, done: seq<Meta>, ms: seq<Meta>)
    requires offset <= |buffer|
    ensures DecodeMetas(buffer, offset, n, done) == Ok(done + ms) <==>
      |ms| == n && (forall i :: 0 <= i < |ms| ==> FitsMeta(ms[i])) && At(buffer, offset, EncodeMetas(ms))
    decreases n
  {
    hide FitsMeta, EncodeMeta, DecodeMeta;
    if |ms| == n && (forall i :: 0 <= i < |ms| ==> FitsMeta(ms[i])) && At(buffer, offset, EncodeMetas(ms)) {
      DecodesMetas(buffer, offset, ms, done);
    }
    if DecodeMetas(buffer, offset, n, done) == Ok(done + ms) {
      if n == 0 {
        assert |done + ms| == |done| && ms == [];
      } else {
        var (m, next) := DecodeMeta(buffer, offset).value;
        MetasExtend(buffer, next, n - 1, done + [m]);
        assert (done + ms)[|done|] == (done + [m])[|done|] && ms[0] == m;
        assert done + [m] + ms[1..] == done + ms;
        DecodeMetaExactly(buffer, offset, m, next);
        DecodeMetasExactly(buffer, next, n - 1, done + [m], ms[1..]);
        EncodeMetasCons(ms);
        AtSplit(buffer, offset, EncodeMeta(m), EncodeMetas(ms[1..]));
      }
    }
  }

  /** Loading returns a checkpoint exactly if the file starts with that checkpoint as it is saved. */
  lemma CheckpointExactly(buffer: seq<Byte>, cp: Checkpoint)
    ensures DecodeCheckpoint(buffer) == Ok(cp) <==> FitsCheckpoint(cp) && EncodeCheckpoint(cp) <= buffer
    ensures DecodeCheckpoint(buffer).Ok? || DecodeCheckpoint(buffer) == Err(Corruption)
  {
    hide EncodeMetas, DecodeMetas, WriteUint32, WriteUint64, ReadUint32, ReadUint64, FitsMeta, At;
    ReadErrors(buffer);
    var head, n := WriteUint64(cp.lsn) + WriteUint32(|cp.sstables|), |cp.sstables|;
    AtStart(buffer, EncodeCheckpoint(cp));
    AtSplit(buffer, 0, head, EncodeMetas(cp.sstables));
    AtSplit(buffer, 0, WriteUint64(cp.lsn), WriteUint32(n));
    ReadUint64Exactly(buffer, 0, cp.lsn, 8);
    ReadUint32Exactly(buffer, 8, n, 12);
    if 12 <= |buffer| {
      DecodeMetasExactly(buffer, 12, n, [], cp.sstables);
    }
    assert [] + cp.sstables == cp.sstables;
    if ReadUint64(buffer, 0).Ok? {
      var (lsn, o1) := ReadUint64(buffer, 0).value;
      ReadUint64Exactly(buffer, 0, lsn, o1);
      if ReadUint32(buffer, o1).Ok? {
        var (count, o2) := ReadUint32(buffer, o1).value;
        ReadUint32Exactly(buffer, o1, count, o2);
        AtBound(buffer, o1, WriteUint32(count));
        MetasExtend(buffer, o2, count, []);
        DecodeMetasExactly(buffer, 12, count, [], cp.sstables);
      }
    }
  }

  /** A checkpoint cut short anywhere does not load. */
  lemma CutCheckpointFails(cp: Checkpoint, n: nat)
    requires FitsCheckpoint(cp) && n < |EncodeCheckpoint(cp)|
    ensures DecodeCheckpoint(EncodeCheckpoint(cp)[..n]) == Err(Corruption)
  {
    hide EncodeCheckpoint, DecodeCheckpoint, FitsCheckpoint;
    var whole := EncodeCheckpoint(cp);
    CheckpointExactly(whole[..n], cp);
    if DecodeCheckpoint(whole[..n]).Ok? {
      var other := DecodeCheckpoint(whole[..n]).value;
      CheckpointExactly(whole[..n], other);
      CheckpointExactly(whole, other);
      CheckpointRoundTrip(cp);
    }
  }

  // ---- log records ----

  /** An entry as it comes out of the log: only a put has a value. */
  predicate FitsPayload(e: WalEntry) {
    |e.key| < U32_LIMIT && |e.value| < U32_LIMIT && (e.kind != PUT ==> e.value == [])
  }

  /** A payload decodes to an entry exactly if it starts with that entry's payload. */
  lemma PayloadExactly(p: seq<Byte>, e: WalEntry)
    ensures DecodePayload(p) == Ok(e) <==> FitsPayload(e) && Payload(e) <= p
  {
    hide WriteUint64, WriteString, ReadUint64, ReadString, At;
    AtStart(p, Payload(e));
    var value := if e.kind == PUT then WriteString(e.value) else [];
    AtSplit(p, 0, [e.kind], WriteUint64(e.lsn) + (WriteString(e.key) + value));
    AtSplit(p, 1, WriteUint64(e.lsn), WriteString(e.key) + value);
    AtSplit(p, 9, WriteString(e.key), value);
    FirstByte(p, e.kind);
    ReadUint64Exactly(p, 1, e.lsn, 9);
    ReadStringExactly(p, 9, e.key, 13 + |e.key|);
    ReadStringExactly(p, 13 + |e.key|, e.value, 17 + |e.key| + |e.value|);
    if At(p, 9, WriteString(e.key)) {
      AtBound(p, 9, WriteString(e.key));
    }
    if DecodePayload(p).Ok? {
      var (lsn, o1) := ReadUint64(p, 1).value;
      ReadUint64Exactly(p, 1, lsn, o1);
      var (key, o2) := ReadString(p, o1).value;
      ReadStringExactly(p, o1, key, o2);
      if p[0] == PUT {
        var (v, o3) := ReadString(p, o2).value;
        ReadStringExactly(p, o2, v, o3);
      }
    }
  }

  lemma FirstByte(p: seq<Byte>, b: Byte)
    ensures At(p, 0, [b]) <==> p != [] && p[0] == b
  {
  }

  /** A record is read exactly if its header, with the right length and checksum, and its payload stand there. */
  lemma RecordExactly(log: seq<Byte>, offset: nat, limit: nat, e: WalEntry, next: nat)
    ensures NextRecord(log, offset, limit) == Some((e, next)) <==>
      exists p ::
        && |p| <= limit && |p| < U32_LIMIT && At(log, offset, Header(p) + p) && next == offset + HEADER_SIZE + |p|
        && FitsPayload(e) && Payload(e) <= p
  {
    hide Payload, FitsPayload, Header, NextRecord, At;
    if NextRecord(log, offset, limit) == Some((e, next)) {
      var p := RecordWas(log, offset, limit, e, next);
    }
    forall p | |p| <= limit && |p| < U32_LIMIT && At(log, offset, Header(p) + p)
        && next == offset + HEADER_SIZE + |p| && FitsPayload(e) && Payload(e) <= p
      ensures NextRecord(log, offset, limit) == Some((e, next))
    {
      RecordReads(log, offset, limit, p, e);
    }
  }

  lemma RecordWas(log: seq<Byte>, offset: nat, limit: nat, e: WalEntry, next: nat) returns (p: seq<Byte>)
    requires NextRecord(log, offset, limit) == Some((e, next))
    ensures |p| <= limit && |p| < U32_LIMIT && At(log, offset, Header(p) + p) && next == offset + HEADER_SIZE + |p|
    ensures FitsPayload(e) && Payload(e) <= p
  {
    hide DecodePayload, Payload, FitsPayload, CrcOf, Value, Header;
    p := log[offset + HEADER_SIZE..next];
    WordInRange(log, offset, 4);
    PayloadExactly(p, e);
    HeaderExactly(log, offset, p);
    AtSplit(log, offset, Header(p), p);
  }

  lemma RecordReads(log: seq<Byte>, offset: nat, limit: nat, p: seq<Byte>, e: WalEntry)
    requires |p| <= limit && |p| < U32_LIMIT && At(log, offset, Header(p) + p) && FitsPayload(e) && Payload(e) <= p
    ensures NextRecord(log, offset, limit) == Some((e, offset + HEADER_SIZE + |p|))
  {
    hide DecodePayload, Payload, FitsPayload, CrcOf, Value, Header;
    PayloadExactly(p, e);
    AtSplit(log, offset, Header(p), p);
    HeaderExactly(log, offset, p);
  }

  lemma HeaderExactly(log: seq<Byte>, offset: nat, p: seq<Byte>)
    requires offset + HEADER_SIZE <= |log| && |p| < U32_LIMIT
    ensures At(log, offset, Header(p)) <==>
      Value(log[offset..offset + 4]) == |p| && Value(log[offset + 4..offset + 8]) == CrcOf(p)
  {
    hide CrcOf, WriteUint32, Value, At;
    AtSplit(log, offset, WriteUint32(|p|), WriteUint32(CrcOf(p)));
    ReadUint32Exactly(log, offset, |p|, offset + 4);
    ReadUint32Exactly(log, offset + 4, CrcOf(p), offset + 8);
  }

  // ---- blocks ----

  /** An entry stands at `offset`: any byte but zero marks a tombstone. */
  predicate EntryAt(data: seq<Byte>, offset: nat, e: Entry) {
    && |e.key| < U32_LIMIT && |e.value| < U32_LIMIT && offset + EncodedSize(e) <= |data|
    && At(data, offset, WriteString(e.key) + WriteString(e.value))
    && (data[offset + EncodedSize(e) - 1] != 0 <==> e.tombstone)
  }

  predicate EntriesAt(data: seq<Byte>, offset: nat, es: seq<Entry>)
    decreases |es|
  {
    es == [] || (EntryAt(data, offset, es[0]) && EntriesAt(data, offset + EncodedSize(es[0]), es[1..]))
  }

  lemma DecodeEntryExactly(data: seq<Byte>, offset: nat, e: Entry, next: nat)
    ensures DecodeEntry(data, offset) == Ok((e, next)) <==> EntryAt(data, offset, e) && next == offset + EncodedSize(e)
  {
    hide WriteString, ReadString, At;
    AtSplit(data, offset, WriteString(e.key), WriteString(e.value));
    ReadStringExactly(data, offset, e.key, offset + 4 + |e.key|);
    ReadStringExactly(data, offset + 4 + |e.key|, e.value, offset + EncodedSize(e) - 1);
    if DecodeEntry(data, offset).Ok? {
      var (key, o1) := ReadString(data, offset).value;
      ReadStringExactly(data, offset, key, o1);
      var (value, o2) := ReadString(data, o1).value;
      ReadStringExactly(data, o1, value, o2);
    }
  }

  lemma {:induction false} EntriesExtend(data: seq<Byte>, offset: nat, n: nat, done: seq<Entry>)
    ensures var r := DecodeEntries(data, offset, n, done); if r.Ok? then done <= r.value else r == Err(Corruption)
    decreases n
  {
    EntryErrors(data, offset);
    hide DecodeEntry;
    if n > 0 && DecodeEntry(data, offset).Ok? {
      var (e, next) := DecodeEntry(data, offset).value;
      EntriesExtend(data, next, n - 1, done + [e]);
    }
  }

  lemma {:induction false} DecodeEntriesExactly(data: seq<Byte>, offset: nat, n: nat, done: seq<Entry>, es: seq<Entry>)
    ensures DecodeEntries(data, offset, n, done) == Ok(done + es) <==> |es| == n && EntriesAt(data, offset, es)
    decreases n
  {
    hide DecodeEntry, EntryAt;
    if n == 0 {
      assert done + es == done <==> es == [];
    } else {
      if es != [] {
        assert done + [es[0]] + es[1..] == done + es;
        DecodeEntryExactly(data, offset, es[0], offset + EncodedSize(es[0]));
        DecodeEntriesExactly(data, offset + EncodedSize(es[0]), n - 1, done + [es[0]], es[1..]);
      }
      if DecodeEntry(data, offset).Ok? {
        var (e, next) := DecodeEntry(data, offset).value;
        DecodeEntryExactly(data, offset, e, next);
        EntriesExtend(data, next, n - 1, done + [e]);
        if DecodeEntries(data, offset, n, done) == Ok(done + es) {
          assert (done + es)[|done|] == (done + [e])[|done|] && es[0] == e;
        }
      }
    }
  }

  /** A block decodes to entries exactly if it starts with their number and then holds them, back to back. */
  lemma BlockExactly(data: seq<Byte>, es: seq<Entry>)
    ensures DecodeBlock(data) == Ok(es) <==>
      |es| < U32_LIMIT && At(data, 0, WriteUint32(|es|)) && EntriesAt(data, 4, es)
    ensures DecodeBlock(data).Ok? || DecodeBlock(data) == Err(Corruption)
  {
    hide DecodeEntries, EntriesAt, WriteUint32, ReadUint32, At;
    ReadErrors(data);
    ReadUint32Exactly(data, 0, |es|, 4);
    DecodeEntriesExactly(data, 4, |es|, [], es);
    assert [] + es == es;
    if ReadUint32(data, 0).Ok? {
      var (n, offset) := ReadUint32(data, 0).value;
      ReadUint32Exactly(data, 0, n, offset);
      EntriesExtend(data, offset, n, []);
      DecodeEntriesExactly(data, 4, n, [], es);
    }
  }

  lemma {:induction false} EntriesReach(data: seq<Byte>, offset: nat, es: seq<Entry>)
    requires EntriesAt(data, offset, es) && offset <= |data|
    ensures offset + TotalSize(es) <= |data|
    decreases |es|
  {
    if es == [] {
      assert TotalSize([]) == 0;
    } else {
      hide At, WriteString, TotalSize;
      EntriesReach(data, offset + EncodedSize(es[0]), es[1..]);
      TotalSizeSplit([es[0]], es[1..]);
      assert es == [es[0]] + es[1..];
      SingleSize(es[0]);
    }
  }

  lemma {:induction false} EntriesLonger(data: seq<Byte>, after: seq<Byte>, offset: nat, es: seq<Entry>)
    requires EntriesAt(data, offset, es)
    ensures EntriesAt(data + after, offset, es)
    decreases |es|
  {
    hide WriteString, At;
    if es != [] {
      AtPrefix(data, offset, WriteString(es[0].key) + WriteString(es[0].value), after);
      EntriesLonger(data, after, offset + EncodedSize(es[0]), es[1..]);
    }
  }

  /** A block cut short anywhere does not decode. */
  lemma CutBlockFails(es: seq<Entry>, n: nat)
    requires FitsBlock(es) && n < |EncodeBlock(es)|
    ensures DecodeBlock(EncodeBlock(es)[..n]) == Err(Corruption)
  {
    hide DecodeBlock, EncodeBlock, TotalSize, EntriesAt, WriteUint32;
    var whole := EncodeBlock(es);
    var part := whole[..n];
    BlockExactly(part, es);
    if DecodeBlock(part).Ok? {
      var other := DecodeBlock(part).value;
      BlockExactly(part, other);
      EntriesReach(part, 4, other);
      AtPrefix(part, 0, WriteUint32(|other|), whole[n..]);
      EntriesLonger(part, whole[n..], 4, other);
      assert part + whole[n..] == whole;
      BlockExactly(whole, other);
      BlockRoundTrip(es);
    }
  }

  // ---- the footer and the index of an SSTable ----

  predicate FitsFooter(f: Footer) {
    && f.bloomOffset < U64_LIMIT && f.bloomSize < U64_LIMIT && f.indexOffset < U64_LIMIT
    && f.indexSize < U64_LIMIT && f.entries < U64_LIMIT
  }

  /** A footer is read exactly if it is there with its magic number. */
  lemma FooterExactly(buffer: seq<Byte>, f: Footer)
    ensures DecodeFooter(buffer) == Ok(f) <==> FitsFooter(f) && EncodeFooter(f) <= buffer
    ensures DecodeFooter(buffer).Ok? || DecodeFooter(buffer) == Err(Corruption)
  {
    hide WriteUint64, ReadUint64, At;
    ReadErrors(buffer);
    var w6 := WriteUint64(MAGIC);
    var w5 := WriteUint64(f.entries) + w6;
    var w4 := WriteUint64(f.indexSize) + w5;
    var w3 := WriteUint64(f.indexOffset) + w4;
    var w2 := WriteUint64(f.bloomSize) + w3;
    AtStart(buffer, EncodeFooter(f));
    AtSplit(buffer, 0, WriteUint64(f.bloomOffset), w2);
    AtSplit(buffer, 8, WriteUint64(f.bloomSize), w3);
    AtSplit(buffer, 16, WriteUint64(f.indexOffset), w4);
    AtSplit(buffer, 24, WriteUint64(f.indexSize), w5);
    AtSplit(buffer, 32, WriteUint64(f.entries), w6);
    WordExactly(buffer, 0, f.bloomOffset);
    WordExactly(buffer, 8, f.bloomSize);
    WordExactly(buffer, 16, f.indexOffset);
    WordExactly(buffer, 24, f.indexSize);
    WordExactly(buffer, 32, f.entries);
    WordExactly(buffer, 40, MAGIC);
  }

  lemma WordExactly(buffer: seq<Byte>, offset: nat, n: nat)
    ensures ReadUint64(buffer, offset) == Ok((n, offset + 8)) <==> n < U64_LIMIT && At(buffer, offset, WriteUint64(n))
    ensures ReadUint64(buffer, offset).Ok? ==>
      ReadUint64(buffer, offset).value.1 == offset + 8 && ReadUint64(buffer, offset).value.0 < U64_LIMIT
  {
    hide WriteUint64, ReadUint64, At;
    ReadUint64Exactly(buffer, offset, n, offset + 8);
    if ReadUint64(buffer, offset).Ok? {
      var (m, next) := ReadUint64(buffer, offset).value;
      ReadUint64Exactly(buffer, offset, m, next);
    }
  }

  lemma DecodeIndexEntryExactly(buffer: seq<Byte>, offset: nat, ie: IndexEntry, next: nat)
    ensures DecodeIndexEntry(buffer, offset) == Ok((ie, next)) <==>
      FitsIndexEntry(ie) && next == offset + 16 + |ie.lastKey| && At(buffer, offset, EncodeIndexEntry(ie))
  {
    hide WriteUint64, ReadUint64, WriteUint32, ReadUint32, WriteString, ReadString, At;
    var o := offset + 4 + |ie.lastKey|;
    AtSplit(buffer, offset, WriteString(ie.lastKey), WriteUint64(ie.offset) + WriteUint32(ie.size));
    AtSplit(buffer, o, WriteUint64(ie.offset), WriteUint32(ie.size));
    ReadStringExactly(buffer, offset, ie.lastKey, o);
    ReadUint64Exactly(buffer, o, ie.offset, o + 8);
    ReadUint32Exactly(buffer, o + 8, ie.size, o + 12);
    if DecodeIndexEntry(buffer, offset).Ok? {
      var (lastKey, o1) := ReadString(buffer, offset).value;
      ReadStringExactly(buffer, offset, lastKey, o1);
      var (blockOffset, o2) := ReadUint64(buffer, o1).value;
      ReadUint64Exactly(buffer, o1, blockOffset, o2);
      var (blockSize, o3) := ReadUint32(buffer, o2).value;
      ReadUint32Exactly(buffer, o2, blockSize, o3);
    }
  }

  lemma {:induction false} IndexEntriesExtend(buffer: seq<Byte>, offset: nat, n: nat, done: seq<IndexEntry>)
    ensures var r := DecodeIndexEntries(buffer, offset, n, done);
      if r.Ok? then done <= r.value else r == Err(Corruption)
    decreases n
  {
    EntryErrors(buffer, offset);
    hide DecodeIndexEntry;
    if n > 0 && DecodeIndexEntry(buffer, offset).Ok? {
      var (ie, next) := DecodeIndexEntry(buffer, offset).value;
      IndexEntriesExtend(buffer, next, n - 1, done + [ie]);
    }
  }

  lemma {:induction false} DecodeIndexEntriesExactly(buffer: seq<Byte>, offset: nat, n: nat, done: seq<IndexEntry>,
      ix: seq<IndexEntry>)
    requires offset <= |buffer|
    ensures DecodeIndexEntries(buffer, offset, n, done) == Ok(done + ix) <==>
      |ix| == n && (forall i :: 0 <= i < |ix| ==> FitsIndexEntry(ix[i])) && At(buffer, offset, EncodeIndexEntries(ix))
    decreases n
  {
    hide FitsIndexEntry, EncodeIndexEntry, DecodeIndexEntry;
    if |ix| == n && At(buffer, offset, EncodeIndexEntries(ix)) && forall i :: 0 <= i < |ix| ==> FitsIndexEntry(ix[i]) {
      DecodesIndexEntries(buffer, offset, ix, done);
    }
    if DecodeIndexEntries(buffer, offset, n, done) == Ok(done + ix) {
      if n == 0 {
        assert |done + ix| == |done| && ix == [];
      } else {
        var (ie, next) := DecodeIndexEntry(buffer, offset).value;
        IndexEntriesExtend(buffer, next, n - 1, done + [ie]);
        assert (done + ix)[|done|] == (done + [ie])[|done|] && ix[0] == ie;
        assert done + [ie] + ix[1..] == done + ix;
        DecodeIndexEntryExactly(buffer, offset, ie, next);
        EncodeIndexEntriesCons(ix);
        IndexEntryReaches(buffer, offset, ie);
        DecodeIndexEntriesExactly(buffer, next, n - 1, done + [ie], ix[1..]);
        AtSplit(buffer, offset, EncodeIndexEntry(ie), EncodeIndexEntries(ix[1..]));
      }
    }
  }

  lemma IndexEntryReaches(buffer: seq<Byte>, offset: nat, ie: IndexEntry)
    requires At(buffer, offset, EncodeIndexEntry(ie))
    ensures offset + 16 + |ie.lastKey| <= |buffer|
  {
    hide EncodeIndexEntry;
  }

  /** An index is read exactly if it is there as it is written. */
  lemma IndexExactly(buffer: seq<Byte>, ix: seq<IndexEntry>)
    ensures DecodeIndex(buffer) == Ok(ix) <==>
      |ix| < U32_LIMIT && (forall i :: 0 <= i < |ix| ==> FitsIndexEntry(ix[i])) && EncodeIndex(ix) <= buffer
    ensures DecodeIndex(buffer).Ok? || DecodeIndex(buffer) == Err(Corruption)
  {
    hide EncodeIndexEntries, DecodeIndexEntries, WriteUint32, ReadUint32, FitsIndexEntry, At;
    ReadErrors(buffer);
    AtStart(buffer, EncodeIndex(ix));
    AtSplit(buffer, 0, WriteUint32(|ix|), EncodeIndexEntries(ix));
    ReadUint32Exactly(buffer, 0, |ix|, 4);
    if 4 <= |buffer| {
      DecodeIndexEntriesExactly(buffer, 4, |ix|, [], ix);
    }
    assert [] + ix == ix;
    if ReadUint32(buffer, 0).Ok? {
      var (n, offset) := ReadUint32(buffer, 0).value;
      ReadUint32Exactly(buffer, 0, n, offset);
      AtBound(buffer, 0, WriteUint32(n));
      IndexEntriesExtend(buffer, offset, n, []);
      DecodeIndexEntriesExactly(buffer, 4, n, [], ix);
    }
  }

  // ---- small examples, byte by byte ----

  lemma SmallWords(n: nat)
    requires n < 256
    ensures WriteUint32(n) == [ByteOf(n), 0, 0, 0]
    ensures WriteUint64(n) == [ByteOf(n), 0, 0, 0, 0, 0, 0, 0]
  {
    ZeroBytes(3);
    ZeroBytes(7);
    assert n / 256 == 0 && n % 256 == n;
    assert seq<Byte>(3, _ => 0) == [0, 0, 0] && seq<Byte>(7, _ => 0) == [0, 0, 0, 0, 0, 0, 0];
  }

  /** One entry: key length, key, value length, value, flag; before it, the number of entries. */
  lemma BlockBytes()
    ensures EncodeBlock([Entry([107], [1, 2], true)]) == [1, 0, 0, 0, 1, 0, 0, 0, 107, 2, 0, 0, 0, 1, 2, 1]
    ensures EncodeBlock([Entry([107], [], false)]) == [1, 0, 0, 0, 1, 0, 0, 0, 107, 0, 0, 0, 0, 0]
  {
    SmallNumbers();
    hide WriteUint32, WriteUint64;
    OneEntry(Entry([107], [1, 2], true));
    OneEntry(Entry([107], [], false));
  }

  lemma OneEntry(e: Entry)
    ensures EncodeBlock([e]) == WriteUint32(1) + EncodeEntry(e)
  {
    hide EncodeEntry, WriteUint32;
    assert [e][..0] == [];
    assert EncodeEntries([e]) == [] + EncodeEntry(e);
  }

  lemma SmallNumbers()
    ensures WriteUint32(0) == [0, 0, 0, 0] && WriteUint32(1) == [1, 0, 0, 0] && WriteUint32(2) == [2, 0, 0, 0]
    ensures WriteUint32(6) == [6, 0, 0, 0] && WriteUint32(7) == [7, 0, 0, 0] && WriteUint32(9) == [9, 0, 0, 0]
    ensures WriteUint32(64) == [64, 0, 0, 0] && WriteUint64(1) == [1, 0, 0, 0, 0, 0, 0, 0]
    ensures WriteUint64(2) == [2, 0, 0, 0, 0, 0, 0, 0] && WriteUint64(3) == [3, 0, 0, 0, 0, 0, 0, 0]
    ensures WriteUint64(4) == [4, 0, 0, 0, 0, 0, 0, 0] && WriteUint64(5) == [5, 0, 0, 0, 0, 0, 0, 0]
    ensures WriteUint64(6) == [6, 0, 0, 0, 0, 0, 0, 0] && WriteUint64(7) == [7, 0, 0, 0, 0, 0, 0, 0]
  {
    hide WriteUint32, WriteUint64;
    SmallWords(0);
    SmallWords(1);
    SmallWords(2);
    SmallWords(3);
    SmallWords(4);
    SmallWords(5);
    SmallWords(6);
    SmallWords(7);
    SmallWords(9);
    SmallWords(64);
  }

  /** The Bloom section of eight bytes: bit count, probe count, bits. */
  lemma BloomBytes()
    ensures EncodeBloom([3, 0, 0, 0, 0, 0, 0, 4]) == [64, 0, 0, 0, 7, 0, 0, 0, 3, 0, 0, 0, 0, 0, 0, 4]
  {
    SmallNumbers();
    hide WriteUint32, WriteUint64;
  }

  /** A file of one entry: the block, the Bloom section, the index and the footer, one after the other. */
  lemma TableBytes()
    ensures var e := Entry([107], [1], false); var file := EncodeTable([e]);
      && |file| == 100 && At(file, 0, [1, 0, 0, 0, 1, 0, 0, 0, 107, 1, 0, 0, 0, 1, 0])
      && At(file, 15, [64, 0, 0, 0, 7, 0, 0, 0] + BloomBits([e]))
      && At(file, 31, EncodeIndex([IndexEntry([107], 0, 15)]))
      && file[52..] == EncodeFooter(Footer(15, 16, 31, 21, 1))
  {
    hide *;
    var e := Entry([107], [1], false);
    SmallNumbers();
    OneEntry(e);
    EntryParts(e);
    OneTable(e);
    var data, bloom, index := EncodeBlock([e]), EncodeBloom(BloomBits([e])), EncodeIndex([IndexEntry([107], 0, 15)]);
    var footer := EncodeFooter(Footer(15, 16, 31, 21, 1));
    FileParts(data, bloom, index, footer);
    BloomParts(e);
    OneIndexSize([107], 0, 15);
    FooterSize(Footer(15, 16, 31, 21, 1));
    assert data == [1, 0, 0, 0, 1, 0, 0, 0, 107, 1, 0, 0, 0, 1, 0];
    assert bloom == [64, 0, 0, 0, 7, 0, 0, 0] + BloomBits([e]);
    assert |data| == 15 && |bloom| == 16 && |index| == 21 && |footer| == 48;
  }

  lemma FooterSize(f: Footer)
    ensures |EncodeFooter(f)| == 48
  {
    hide EncodeFooter;
  }

  lemma EntryParts(e: Entry)
    ensures EncodeEntry(e) == WriteUint32(|e.key|) + e.key + (WriteUint32(|e.value|) + e.value)
        + [if e.tombstone then 1 else 0]
  {
    hide WriteUint32;
  }

  lemma BloomParts(e: Entry)
    ensures EncodeBloom(BloomBits([e])) == WriteUint32(64) + WriteUint32(7) + BloomBits([e]) && |BloomBits([e])| == 8
  {
    hide WriteUint32, BloomBits;
  }

  lemma OneIndexSize(key: Str, offset: nat, size: nat)
    ensures |EncodeIndex([IndexEntry(key, offset, size)])| == 20 + |key|
  {
    hide WriteUint32, EncodeIndexEntry;
    assert [IndexEntry(key, offset, size)][..0] == [];
    assert EncodeIndexEntries([IndexEntry(key, offset, size)]) == [] + EncodeIndexEntry(IndexEntry(key, offset, size));
  }

  lemma OneTable(e: Entry)
    ensures var data := EncodeBlock([e]);
      var bloom, index := EncodeBloom(BloomBits([e])), EncodeIndex([IndexEntry(e.key, 0, |data|)]);
      EncodeTable([e]) == data + bloom + index
        + EncodeFooter(Footer(|data|, |bloom|, |data| + |bloom|, |index|, 1))
  {
    hide EncodeBlock, EncodeBloom, BloomBits, EncodeIndex, EncodeFooter;
    assert Pack([e], []) == [[e]] && [] + [e] == [e] && [e][1..] == [];
    assert Pack([], [e]) == [[e]];
    assert [[e]][..0] == [];
    assert EncodeBlocks([[e]]) == [] + EncodeBlock([e]);
    assert IndexOf([[e]]) == [] + [IndexEntry(e.key, 0, |EncodeBlock([e])|)];
    assert EncodeBlocks(Pack([], [e])) == EncodeBlock([e]);
    assert IndexOf(Pack([], [e])) == [IndexEntry(e.key, 0, |EncodeBlock([e])|)];
  }

  /** An index of one entry: the number of entries; key, offset and size of the block. */
  lemma IndexBytes()
    ensures EncodeIndex([IndexEntry([107], 5, 6)]) ==
      [1, 0, 0, 0, 1, 0, 0, 0, 107, 5, 0, 0, 0, 0, 0, 0, 0, 6, 0, 0, 0]
  {
    SmallNumbers();
    hide WriteUint32, WriteUint64;
    assert [IndexEntry([107], 5, 6)][..0] == [];
    assert EncodeIndexEntries([IndexEntry([107], 5, 6)]) == [] + EncodeIndexEntry(IndexEntry([107], 5, 6));
  }

  /** A footer: five words and the magic number, which spells "SSTable" backwards. */
  lemma FooterBytes()
    ensures var footer := EncodeFooter(Footer(1, 2, 3, 4, 5));
      && footer[..16] == [1, 0, 0, 0, 0, 0, 0, 0, 2, 0, 0, 0, 0, 0, 0, 0]
      && footer[16..32] == [3, 0, 0, 0, 0, 0, 0, 0, 4, 0, 0, 0, 0, 0, 0, 0]
      && footer[32..] == [5, 0, 0, 0, 0, 0, 0, 0, 101, 108, 98, 97, 84, 83, 83, 0]
  {
    hide *;
    SmallNumbers();
    MagicBytes();
    FooterParts(Footer(1, 2, 3, 4, 5));
  }

  lemma FooterParts(f: Footer)
    ensures EncodeFooter(f)[..16] == WriteUint64(f.bloomOffset) + WriteUint64(f.bloomSize)
    ensures EncodeFooter(f)[16..32] == WriteUint64(f.indexOffset) + WriteUint64(f.indexSize)
    ensures EncodeFooter(f)[32..] == WriteUint64(f.entries) + WriteUint64(0x0053_5354_6162_6C65)
  {
    hide WriteUint64;
  }

  lemma MagicBytes()
    ensures WriteUint64(0x0053_5354_6162_6C65) == [101, 108, 98, 97, 84, 83, 83, 0]
  {
    hide *;
    var s: seq<Byte> := [101, 108, 98, 97, 84, 83, 83, 0];
    LittleEndianOfValue(s);
    ValueStep(s, 0);
    ValueStep(s, 1);
    ValueStep(s, 2);
    ValueStep(s, 3);
    ValueStep(s, 4);
    ValueStep(s, 5);
    ValueStep(s, 6);
    ValueStep(s, 7);
    NoValue(s);
    Words(0x0053_5354_6162_6C65);
  }

  lemma Words(n: nat)
    ensures WriteUint32(n) == LittleEndian(n, 4) && WriteUint64(n) == LittleEndian(n, 8)
  {
  }

  lemma ValueStep(s: seq<Byte>, i: nat)
    requires i < |s|
    ensures Value(s[i..]) == s[i] as int + 256 * Value(s[i + 1..])
  {
    assert s[i..][1..] == s[i + 1..];
  }

  lemma NoValue(s: seq<Byte>)
    ensures Value(s[|s|..]) == 0 && s[0..] == s
  {
  }

  /** A checkpoint of one file: sequence number and number of files; then level, size, number, smallest and largest
      key, path. */
  lemma CheckpointBytes()
    ensures var m := Meta([112], 2, [97], [98, 99], 4, 5);
      && EncodeCheckpoint(Checkpoint(3, [m])) == [3, 0, 0, 0, 0, 0, 0, 0, 1, 0, 0, 0] + EncodeMeta(m)
      && EncodeMeta(m)[..20] == [2, 0, 0, 0, 4, 0, 0, 0, 0, 0, 0, 0, 5, 0, 0, 0, 0, 0, 0, 0]
      && EncodeMeta(m)[20..] == [1, 0, 0, 0, 97, 2, 0, 0, 0, 98, 99, 1, 0, 0, 0, 112]
  {
    hide *;
    SmallNumbers();
    var m := Meta([112], 2, [97], [98, 99], 4, 5);
    OneFile(3, m);
    MetaParts(m);
    StringParts(m.smallest);
    StringParts(m.largest);
    StringParts(m.path);
  }

  lemma OneFile(lsn: nat, m: Meta)
    ensures EncodeCheckpoint(Checkpoint(lsn, [m])) == WriteUint64(lsn) + WriteUint32(1) + EncodeMeta(m)
  {
    hide WriteUint32, WriteUint64, EncodeMeta;
    assert [m][..0] == [];
    assert EncodeMetas([m]) == [] + EncodeMeta(m);
  }

  lemma MetaParts(m: Meta)
    requires 0 <= m.level < 0x1_0000_0000
    ensures |EncodeMeta(m)| >= 20
    ensures EncodeMeta(m)[..20] == WriteUint32(m.level) + WriteUint64(m.size) + WriteUint64(m.seqno)
    ensures EncodeMeta(m)[20..] == WriteString(m.smallest) + WriteString(m.largest) + WriteString(m.path)
  {
    hide WriteUint32, WriteUint64, WriteString;
  }

  lemma StringParts(s: Str)
    ensures WriteString(s) == WriteUint32(|s|) + s
  {
  }

  /** A put and a delete in the log: kind, sequence number, key and, of a put alone, value. */
  lemma PayloadBytes()
    ensures Payload(WalEntry(5, 1, [107], [8, 9])) ==
      [1, 5, 0, 0, 0, 0, 0, 0, 0, 1, 0, 0, 0, 107, 2, 0, 0, 0, 8, 9]
    ensures Payload(WalEntry(6, 2, [107], [])) == [2, 6, 0, 0, 0, 0, 0, 0, 0, 1, 0, 0, 0, 107]
  {
    SmallNumbers();
    hide WriteUint32, WriteUint64;
  }

  /** The header in front of "123456789": its length and its checksum. */
  lemma HeaderBytes()
    ensures Header([49, 50, 51, 52, 53, 54, 55, 56, 57]) == [9, 0, 0, 0, 0x26, 0x39, 0xF4, 0xCB]
  {
    hide *;
    HeaderParts([49, 50, 51, 52, 53, 54, 55, 56, 57]);
    CrcNumber();
    SmallNumbers();
    CrcBytes();
  }

  lemma HeaderParts(p: seq<Byte>)
    ensures Header(p) == WriteUint32(|p|) + WriteUint32(CrcOf(p))
  {
  }

  lemma CrcNumber()
    ensures CrcOf([49, 50, 51, 52, 53, 54, 55, 56, 57]) == 0xCBF4_3926
  {
    hide Crc32;
    CheckValue();
  }

  lemma CrcBytes()
    ensures WriteUint32(0xCBF4_3926) == [0x26, 0x39, 0xF4, 0xCB]
  {
    hide *;
    Words(0xCBF4_3926);
    var s: seq<Byte> := [0x26, 0x39, 0xF4, 0xCB];
    LittleEndianOfValue(s);
    ValueStep(s, 0);
    ValueStep(s, 1);
    ValueStep(s, 2);
    ValueStep(s, 3);
    NoValue(s);
  }

  /** "/d/level0_12.sst" and "/d/level3_00000042.sst". */
  lemma PathBytes()
    ensures FlushPath([47, 100], 12) == [47, 100, 47, 108, 101, 118, 101, 108, 48, 95, 49, 50, 46, 115, 115, 116]
    ensures OutputPath([47, 100], 3, 42) ==
      [47, 100, 47, 108, 101, 118, 101, 108, 51, 95, 48, 48, 48, 48, 48, 48, 52, 50, 46, 115, 115, 116]
  {
    DecimalBytes();
    hide Decimal, Padded;
  }

  lemma DecimalBytes()
    ensures Decimal(0) == [48] && Decimal(3) == [51] && Decimal(12) == [49, 50] && Decimal(42) == [52, 50]
    ensures Padded(42) == [48, 48, 48, 48, 48, 48, 52, 50]
  {
    assert Decimal(1) == [49] && Decimal(4) == [52];
    assert Decimal(12) == [49] + [50] && Decimal(42) == [52] + [50];
    hide Decimal;
  }

  lemma {:induction false} ZeroBytes(k: nat)
    ensures LittleEndian(0, k) == seq(k, _ => 0)
  {
    if k > 0 {
      ZeroBytes(k - 1);
    }
  }
}
