/** The write-ahead log (src/storage/wal/wal.cpp): record format, scanning and appending. */
module Wals {
  import opened Common
  import opened Bytes
  import opened Serializer
  import opened Crc32s
  import opened Disks

  const HEADER_SIZE: nat := 8
  const MAX_PAYLOAD: nat := 64 * 1024 * 1024
  const PUT: Byte := 1
  const DELETE: Byte := 2

  /** `WALEntry`. The kind is any byte: reading does not check it. */
  datatype WalEntry = WalEntry(lsn: U64, kind: Byte, key: Str, value: seq<Byte>)

  // ---- format ----

  function Payload(e: WalEntry): (p: seq<Byte>)
    ensures |p| == 13 + |e.key| + if e.kind == PUT then 4 + |e.value| else 0
  {
    [e.kind] + (WriteUint64(e.lsn) + (WriteString(e.key) + (if e.kind == PUT then WriteString(e.value) else [])))
  }

  function CrcOf(payload: seq<Byte>): (n: nat)
    ensures n < U32_LIMIT
  {
    Crc32(payload) as nat
  }

  function Header(payload: seq<Byte>): (h: seq<Byte>)
    ensures |h| == HEADER_SIZE
  {
    WriteUint32(|payload|) + WriteUint32(CrcOf(payload))
  }

  function Record(e: WalEntry): (r: seq<Byte>)
    ensures |r| == HEADER_SIZE + |Payload(e)|
  {
    Header(Payload(e)) + Payload(e)
  }

  function Records(es: seq<WalEntry>): seq<Byte> {
    if es == [] then [] else Record(es[0]) + Records(es[1..])
  }

  function DecodePayload(p: seq<Byte>): Result<WalEntry> {
    if |p| < 13 then Err(Corruption) else
    var (lsn, o1) :- ReadUint64(p, 1);
    var (key, o2) :- ReadString(p, o1);
    LsnInRange(p);
    if p[0] != PUT then Ok(WalEntry(lsn, p[0], key, []))
    else
      var (value, _) :- ReadString(p, o2);
      Ok(WalEntry(lsn, p[0], key, value))
  }

  lemma LsnInRange(p: seq<Byte>)
    requires |p| >= 9
    ensures Value(p[1..9]) < U64_LIMIT
  {
    LittleEndianOfValue(p[1..9]);
    assert Pow(256, 8) == U64_LIMIT;
  }

  // ---- scanning ----

  /** The record at `offset`, with the offset after it; nothing if it is cut off or damaged. `limit` is the
      largest payload accepted. */
  function NextRecord(log: seq<Byte>, offset: nat, limit: nat): (r: Option<(WalEntry, nat)>)
    ensures r.Some? ==> offset + HEADER_SIZE <= r.value.1 <= |log|
  {
    if offset + HEADER_SIZE > |log| then None else
    var length := Value(log[offset..offset + 4]);
    var crc := Value(log[offset + 4..offset + 8]);
    if length > limit || offset + HEADER_SIZE + length > |log| then None else
    var payload := log[offset + HEADER_SIZE..offset + HEADER_SIZE + length];
    if CrcOf(payload) != crc || DecodePayload(payload).Err? then None
    else Some((DecodePayload(payload).value, offset + HEADER_SIZE + length))
  }

  /** All records from `offset` up to the first bad one. */
  function Scan(log: seq<Byte>, offset: nat, limit: nat): seq<WalEntry>
    decreases |log| - offset
  {
    var next := NextRecord(log, offset, limit);
    if next.None? then [] else [next.value.0] + Scan(log, next.value.1, limit)
  }

  /** What `ReadAll` returns of a log. */
  function Entries(log: seq<Byte>): seq<WalEntry> {
    Scan(log, 0, MAX_PAYLOAD)
  }

  /** One past the largest sequence number seen, or 1. */
  function NextLsn(es: seq<WalEntry>): U64 {
    if es == [] then 1 else
    var next := NextLsn(es[..|es| - 1]);
    var lsn := es[|es| - 1].lsn;
    if lsn >= next then (lsn + 1) % U64_LIMIT else next
  }

  /** It is past every number in the log, and next to the largest: unless the last 64-bit number was used up. */
  lemma {:induction false} NextLsnExactly(es: seq<WalEntry>)
    requires forall i :: 0 <= i < |es| ==> es[i].lsn < U64_LIMIT - 1
    ensures forall i :: 0 <= i < |es| ==> es[i].lsn < NextLsn(es)
    ensures NextLsn(es) == 1 || exists i :: 0 <= i < |es| && NextLsn(es) == es[i].lsn + 1
  {
    if es != [] {
      var n := |es| - 1;
      NextLsnExactly(es[..n]);
      if es[n].lsn < NextLsn(es[..n]) && NextLsn(es[..n]) != 1 {
        var i :| 0 <= i < n && NextLsn(es[..n]) == es[..n][i].lsn + 1;
        assert es[i].lsn + 1 == NextLsn(es);
      }
    }
  }

  lemma NothingSeen()
    ensures NextLsn([]) == 1
  {
  }

  lemma OneMoreSeen(seen: seq<WalEntry>, e: WalEntry)
    ensures NextLsn(seen + [e]) == if e.lsn >= NextLsn(seen) then (e.lsn + 1) % U64_LIMIT else NextLsn(seen)
  {
    assert (seen + [e])[..|seen|] == seen;
  }

  /** Reads one record the way both scanning loops do. */
  method ReadRecord(log: seq<Byte>, offset: nat, limit: nat) returns (r: Option<(WalEntry, nat)>)
    ensures r == NextRecord(log, offset, limit)
  {
    hide DecodePayload, Crc32;
    if offset + HEADER_SIZE > |log| {
      return None;
    }
    var header := log[offset..offset + HEADER_SIZE];
    assert header[0..4] == log[offset..offset + 4] && header[4..8] == log[offset + 4..offset + 8];
    var length := ReadUint32(header, 0).value.0;
    var expected := ReadUint32(header, 4).value.0;
    if length > limit || offset + HEADER_SIZE + length > |log| {
      return None;
    }
    var payload := log[offset + HEADER_SIZE..offset + HEADER_SIZE + length];
    var crc := ComputeCrc32(payload);
    if crc as nat != expected {
      return None;
    }
    var decoded := DecodePayload(payload);
    if decoded.Err? {
      return None;
    }
    r := Some((decoded.value, offset + HEADER_SIZE + length));
  }

  class Wal {
    const path: Str
    const disk: Disk
    var nextSequence: U64

    constructor (path: Str, disk: Disk, nextSequence: U64)
      ensures this.path == path && this.disk == disk && this.nextSequence == nextSequence
    {
      this.path, this.disk, this.nextSequence := path, disk, nextSequence;
    }

    /** Scans an existing file for the next sequence number. Here a payload may be as long as its 32-bit length
        says, and a torn tail stays in the file. */
    static method Open(disk: Disk, path: Str) returns (wal: Wal)
      modifies disk
      ensures fresh(wal) && wal.path == path && wal.disk == disk
      ensures wal.nextSequence == NextLsn(Scan(old(Contents(disk.files, path)), 0, U32_LIMIT))
      ensures disk.files == old(disk.files)[path := old(Contents(disk.files, path))]
      ensures disk.trace == old(disk.trace) + [Append(path, [])]
    {
      var log := Contents(disk.files, path);
      var next := NextSequence(log);
      disk.Perform(Append(path, []));
      assert log + [] == log;
      wal := new Wal(path, disk, next);
    }

    /** The scanning loop of `Open`. */
    static method NextSequence(log: seq<Byte>) returns (next: U64)
      ensures next == NextLsn(Scan(log, 0, U32_LIMIT))
    {
      hide NextRecord, NextLsn;
      NothingSeen();
      next := 1;
      ghost var all := Scan(log, 0, U32_LIMIT);
      var offset := 0;
      ghost var seen: seq<WalEntry> := [];
      assert seen + all == all;
      var more := true;
      while more
        invariant offset <= |log| && next == NextLsn(seen)
        invariant if more then seen + Scan(log, offset, U32_LIMIT) == all else seen == all
        decreases more, |log| - offset
      {
        var record := ReadRecord(log, offset, U32_LIMIT);
        if record.None? {
          more := false;
          assert seen + [] == seen;
        } else {
          var (entry, after) := record.value;
          assert seen + ([entry] + Scan(log, after, U32_LIMIT)) == (seen + [entry]) + Scan(log, after, U32_LIMIT);
          OneMoreSeen(seen, entry);
          if entry.lsn >= next {
            next := (entry.lsn + 1) % U64_LIMIT;
          }
          seen := seen + [entry];
          offset := after;
        }
      }
    }

    /** Stamps the entry with the next sequence number and appends its record. */
    method AppendEntry(kind: Byte, key: Str, value: seq<Byte>) returns (lsn: U64)
      modifies this, disk
      ensures lsn == old(nextSequence) && nextSequence == (old(nextSequence) + 1) % U64_LIMIT
      ensures disk.files == old(disk.files)[path := old(Contents(disk.files, path))
          + Record(WalEntry(lsn, kind, key, value))]
      ensures disk.trace == old(disk.trace) + [Append(path, Record(WalEntry(lsn, kind, key, value)))]
    {
      lsn := nextSequence;
      nextSequence := (nextSequence + 1) % U64_LIMIT;
      var record := SerializeEntry(WalEntry(lsn, kind, key, value));
      disk.Perform(Append(path, record));
    }

    static method SerializeEntry(e: WalEntry) returns (record: seq<Byte>)
      ensures record == Record(e)
    {
      hide WriteUint32, WriteUint64, Crc32;
      var payload := [e.kind];
      payload := payload + WriteUint64(e.lsn);
      payload := payload + WriteUint32(|e.key|);
      payload := payload + e.key;
      if e.kind == PUT {
        payload := payload + WriteUint32(|e.value|);
        payload := payload + e.value;
      }
      assert payload == Payload(e);
      var crc := ComputeCrc32(payload);
      record := WriteUint32(|payload|);
      record := record + WriteUint32(crc as nat);
      record := record + payload;
    }

    /** All entries up to the first damaged or cut-off record. */
    method ReadAll() returns (entries: seq<WalEntry>)
      ensures entries == Entries(Contents(disk.files, path))
    {
      hide NextRecord;
      var log := Contents(disk.files, path);
      entries := [];
      var offset := 0;
      ghost var all := Scan(log, 0, MAX_PAYLOAD);
      assert entries + all == all;
      var more := true;
      while more
        invariant offset <= |log|
        invariant if more then entries + Scan(log, offset, MAX_PAYLOAD) == all else entries == all
        decreases more, |log| - offset
      {
        var record := ReadRecord(log, offset, MAX_PAYLOAD);
        if record.None? {
          more := false;
          assert entries + [] == entries;
        } else {
          var (entry, after) := record.value;
          assert entries + ([entry] + Scan(log, after, MAX_PAYLOAD)) == (entries + [entry])
              + Scan(log, after, MAX_PAYLOAD);
          entries := entries + [entry];
          offset := after;
        }
      }
    }
  }

  // ---- round trips ----

  /** An entry as the engine appends it: within the field widths, a delete without a value. */
  ghost predicate Recordable(e: WalEntry) {
    |Payload(e)| < U32_LIMIT && (e.kind != PUT ==> e.value == [])
  }

  lemma PayloadRoundTrip(e: WalEntry)
    requires Recordable(e)
    ensures DecodePayload(Payload(e)) == Ok(e)
  {
    hide WriteUint64, WriteString, ReadUint64, ReadString;
    var p := Payload(e);
    var rest := if e.kind == PUT then WriteString(e.value) else [];
    var o := 13 + |e.key|;
    assert At(p, 0, [e.kind] + (WriteUint64(e.lsn) + (WriteString(e.key) + rest)));
    AtSplit(p, 0, [e.kind], WriteUint64(e.lsn) + (WriteString(e.key) + rest));
    AtSplit(p, 1, WriteUint64(e.lsn), WriteString(e.key) + rest);
    AtSplit(p, 9, WriteString(e.key), rest);
    ReadsUint64(p, 1, e.lsn);
    ReadsString(p, 9, e.key);
    if e.kind == PUT {
      ReadsString(p, o, e.value);
    }
  }

  /** A record is read back where it stands, as long as its payload is within the limit. */
  lemma ReadsRecord(log: seq<Byte>, offset: nat, limit: nat, e: WalEntry)
    requires Recordable(e) && At(log, offset, Record(e))
    ensures NextRecord(log, offset, limit) == if |Payload(e)| > limit then None else Some((e, offset + |Record(e)|))
  {
    hide Payload, DecodePayload, Crc32, WriteUint32;
    var p := Payload(e);
    AtSplit(log, offset, Header(p), p);
    AtSplit(log, offset, WriteUint32(|p|), WriteUint32(CrcOf(p)));
    HeaderValue(log, offset, |p|);
    HeaderValue(log, offset + 4, CrcOf(p));
    PayloadRoundTrip(e);
  }

  lemma HeaderValue(log: seq<Byte>, offset: nat, n: nat)
    requires n < U32_LIMIT && At(log, offset, WriteUint32(n))
    ensures Value(log[offset..offset + 4]) == n
  {
    ReadsUint32(log, offset, n);
  }

  /** The entries up to the first whose payload is over the limit. */
  function Accepted(es: seq<WalEntry>, limit: nat): seq<WalEntry> {
    if es == [] || |Payload(es[0])| > limit then [] else [es[0]] + Accepted(es[1..], limit)
  }

  /** Nothing at `offset` reads as a record. */
  ghost predicate Ends(log: seq<Byte>, offset: nat, limit: nat) {
    NextRecord(log, offset, limit).None?
  }

  /** Scanning records followed by something that is none gives the entries, up to one over the limit. */
  lemma {:induction false} ScanRecords(log: seq<Byte>, offset: nat, es: seq<WalEntry>, limit: nat)
    requires At(log, offset, Records(es)) && Ends(log, offset + |Records(es)|, limit)
    requires forall i :: 0 <= i < |es| ==> Recordable(es[i])
    ensures Scan(log, offset, limit) == Accepted(es, limit)
    decreases |es|
  {
    hide NextRecord, Record, Payload;
    if es != [] {
      AtSplit(log, offset, Record(es[0]), Records(es[1..]));
      ReadsRecord(log, offset, limit, es[0]);
      if |Payload(es[0])| <= limit {
        ScanRecords(log, offset + |Record(es[0])|, es[1..], limit);
      }
    }
  }

  lemma {:induction false} AcceptedAll(es: seq<WalEntry>, limit: nat)
    ensures Accepted(es, limit) == es <==> forall i :: 0 <= i < |es| ==> |Payload(es[i])| <= limit
  {
    hide Payload;
    if es != [] {
      AcceptedAll(es[1..], limit);
      assert es == [es[0]] + es[1..];
      assert forall i :: 0 < i < |es| ==> es[i] == es[1..][i - 1];
    }
  }

  /** A proper prefix of a record is not a record. */
  lemma TornEnds(log: seq<Byte>, offset: nat, limit: nat, e: WalEntry, n: nat)
    requires Recordable(e) && n < |Record(e)| && offset + n == |log| && At(log, offset, Record(e)[..n])
    ensures Ends(log, offset, limit)
  {
    hide Payload, DecodePayload, Crc32, WriteUint32;
    if n >= HEADER_SIZE {
      var p := Payload(e);
      assert log[offset..offset + 4] == Record(e)[..n][..4] == WriteUint32(|p|);
      assert At(log, offset, WriteUint32(|p|));
      HeaderValue(log, offset, |p|);
    }
  }

  /** `ReadAll` on a whole log, possibly with a torn last record, returns every entry up to the first whose
      payload exceeds 64 MiB; so it returns them all if and only if no payload does. */
  lemma ReadsTornLog(es: seq<WalEntry>, e: WalEntry, n: nat)
    requires (forall i :: 0 <= i < |es| ==> Recordable(es[i])) && Recordable(e) && n < |Record(e)|
    ensures Scan(Records(es) + Record(e)[..n], 0, MAX_PAYLOAD) == Accepted(es, MAX_PAYLOAD)
    ensures Scan(Records(es) + Record(e)[..n], 0, U32_LIMIT) == es
    ensures Entries(Records(es) + Record(e)[..n]) == es <==> forall i ::
      0 <= i < |es| ==> |Payload(es[i])| <= MAX_PAYLOAD
  {
    hide NextRecord, Record, Payload;
    var tail := Record(e)[..n];
    var log := Records(es) + tail;
    AtEnd(Records(es), tail);
    AtPrefix(Records(es), 0, Records(es), tail);
    TornEnds(log, |Records(es)|, MAX_PAYLOAD, e, n);
    TornEnds(log, |Records(es)|, U32_LIMIT, e, n);
    ScanRecords(log, 0, es, MAX_PAYLOAD);
    ScanRecords(log, 0, es, U32_LIMIT);
    AcceptedAll(es, MAX_PAYLOAD);
    AcceptedAll(es, U32_LIMIT);
  }

  lemma Assoc(a: seq<Byte>, b: seq<Byte>, c: seq<Byte>)
    ensures a + (b + c) == (a + b) + c
  {
  }

  lemma {:induction false} RecordsSplit(a: seq<WalEntry>, b: seq<WalEntry>)
    ensures Records(a + b) == Records(a) + Records(b)
  {
    hide Record;
    if a == [] {
      assert a + b == b;
    } else {
      RecordsSplit(a[1..], b);
      assert (a + b)[1..] == a[1..] + b && (a + b)[0] == a[0];
      hide Records;
      RecordsCons(a);
      RecordsCons(a + b);
      Assoc(Record(a[0]), Records(a[1..]), Records(b));
    }
  }

  lemma RecordsCons(es: seq<WalEntry>)
    requires es != []
    ensures Records(es) == Record(es[0]) + Records(es[1..])
  {
    hide Record;
  }

  /** How many records lie wholly inside the first `n` bytes. */
  function Whole(es: seq<WalEntry>, n: nat): (m: nat)
    ensures m <= |es|
  {
    if es == [] || n < |Record(es[0])| then 0 else 1 + Whole(es[1..], n - |Record(es[0])|)
  }

  /** A prefix of a log is its whole records and a proper prefix of the next. */
  lemma {:induction false} WholeIsExact(es: seq<WalEntry>, n: nat) returns (j: nat)
    requires n <= |Records(es)|
    ensures var m := Whole(es, n);
            && (m < |es| ==> j < |Record(es[m])|)
            && Records(es)[..n] == Records(es[..m]) + (if m < |es| then Record(es[m])[..j] else [])
    decreases |es|
  {
    hide Record, Records;
    j := n;
    if es == [] {
      NoRecords();
    } else if n < |Record(es[0])| {
      RecordsCons(es);
      NoRecords();
      assert es[..0] == [];
      assert (Record(es[0]) + Records(es[1..]))[..n] == Record(es[0])[..n];
    } else {
      RecordsCons(es);
      var rest := n - |Record(es[0])|;
      j := WholeIsExact(es[1..], rest);
      var m := Whole(es[1..], rest);
      assert es[..m + 1][1..] == es[1..][..m] && es[..m + 1][0] == es[0];
      RecordsCons(es[..m + 1]);
      PrefixOfConcat(Record(es[0]), Records(es[1..]), n);
      Assoc(Record(es[0]), Records(es[1..][..m]), if m < |es[1..]| then Record(es[1..][m])[..j] else []);
    }
  }

  lemma NoRecords()
    ensures Records([]) == []
  {
  }

  lemma PrefixOfConcat(a: seq<Byte>, b: seq<Byte>, n: nat)
    requires |a| <= n <= |a + b|
    ensures (a + b)[..n] == a + b[..n - |a|]
  {
  }

  /** `ReadAll` of any byte prefix of a log returns exactly the entries whose records lie wholly inside it. */
  lemma PrefixReads(es: seq<WalEntry>, n: nat)
    requires n <= |Records(es)|
    requires forall i :: 0 <= i < |es| ==> Recordable(es[i]) && |Payload(es[i])| <= MAX_PAYLOAD
    ensures Entries(Records(es)[..n]) == es[..Whole(es, n)]
    ensures Scan(Records(es)[..n], 0, U32_LIMIT) == es[..Whole(es, n)]
  {
    hide NextRecord, Record, Payload, Entries, Recordable, Whole;
    var j := WholeIsExact(es, n);
    var m := Whole(es, n);
    if m < |es| {
      ReadsTornLog(es[..m], es[m], j);
      AcceptedAll(es[..m], MAX_PAYLOAD);
    } else {
      assert es[..m] == es && Records(es) + [] == Records(es);
      WholeLogReads(es);
    }
  }

  lemma EndOfLog(log: seq<Byte>, limit: nat)
    ensures Ends(log, |log|, limit)
  {
  }

  lemma WholeLogReads(es: seq<WalEntry>)
    requires forall i :: 0 <= i < |es| ==> Recordable(es[i]) && |Payload(es[i])| <= MAX_PAYLOAD
    ensures Entries(Records(es)) == es && Scan(Records(es), 0, U32_LIMIT) == es
  {
    hide Record, Payload, Recordable, Records, Ends, NextRecord;
    var log := Records(es);
    assert At(log, 0, log);
    EndOfLog(log, MAX_PAYLOAD);
    EndOfLog(log, U32_LIMIT);
    ScanRecords(log, 0, es, MAX_PAYLOAD);
    ScanRecords(log, 0, es, U32_LIMIT);
    AcceptedAll(es, MAX_PAYLOAD);
    AcceptedAll(es, U32_LIMIT);
  }

  // ---- resuming ----

  /** Sequence numbers count up from 1. */
  ghost predicate Consecutive(es: seq<WalEntry>) {
    |es| < U64_LIMIT - 1 && forall i :: 0 <= i < |es| ==> es[i].lsn == i + 1
  }

  /** `Open` resumes at one past the last sequence number. */
  lemma {:induction false} OpenResumes(es: seq<WalEntry>)
    requires Consecutive(es)
    ensures NextLsn(es) == |es| + 1
  {
    if es != [] {
      OpenResumes(es[..|es| - 1]);
    }
  }

  // ---- damage ----

  lemma NumberRoundTrip(a: bv32)
    ensures (a as nat) as bv32 == a
  {
  }

  lemma CrcsDiffer(a: bv32, b: bv32)
    requires a != b
    ensures a as nat != b as nat
  {
    NumberRoundTrip(a);
    NumberRoundTrip(b);
  }

  /** Damage within four consecutive bytes of a payload ends the scan at that record. */
  lemma DamageEnds(log: seq<Byte>, offset: nat, limit: nat, e: WalEntry, before: seq<Byte>, u: seq<Byte>, v: seq<Byte>,
      after: seq<Byte>)
    requires Recordable(e) && Payload(e) == before + u + after && |u| == |v| <= 4 && u != v
    requires At(log, offset, Header(Payload(e)) + (before + v + after))
    ensures Ends(log, offset, limit)
  {
    hide Payload, DecodePayload, Crc32, WriteUint32;
    var p, damaged := Payload(e), before + v + after;
    AtSplit(log, offset, Header(p), damaged);
    AtSplit(log, offset, WriteUint32(|p|), WriteUint32(CrcOf(p)));
    HeaderValue(log, offset, |p|);
    HeaderValue(log, offset + 4, CrcOf(p));
    BurstDetected(before, u, v, after);
    CrcsDiffer(Crc32(p), Crc32(damaged));
  }

  /** A log with one payload altered within four consecutive bytes, whatever follows it, reads back as exactly
      the records before the damaged one. */
  lemma DamagedLogReads(es: seq<WalEntry>, e: WalEntry, before: seq<Byte>, u: seq<Byte>, v: seq<Byte>, after: seq<Byte>,
      rest: seq<Byte>)
    requires forall i :: 0 <= i < |es| ==> Recordable(es[i]) && |Payload(es[i])| <= MAX_PAYLOAD
    requires Recordable(e) && Payload(e) == before + u + after && |u| == |v| <= 4 && u != v
    ensures Entries(Records(es) + (Header(Payload(e)) + (before + v + after)) + rest) == es
  {
    hide NextRecord, Record, Payload, Recordable, Header;
    var damaged := Header(Payload(e)) + (before + v + after);
    var log := Records(es) + damaged + rest;
    AtEnd(Records(es), damaged);
    AtPrefix(Records(es) + damaged, |Records(es)|, damaged, rest);
    AtPrefix(Records(es), 0, Records(es), damaged);
    AtPrefix(Records(es) + damaged, 0, Records(es), rest);
    DamageEnds(log, |Records(es)|, MAX_PAYLOAD, e, before, u, v, after);
    ScanRecords(log, 0, es, MAX_PAYLOAD);
    AcceptedAll(es, MAX_PAYLOAD);
  }

  // ---- what follows whole records ----

  lemma NextShifts(a: seq<Byte>, b: seq<Byte>, offset: nat, limit: nat)
    ensures var shifted, next := NextRecord(a + b, |a| + offset, limit), NextRecord(b, offset, limit);
      if next.None? then shifted.None? else shifted == Some((next.value.0, |a| + next.value.1))
  {
    hide DecodePayload, CrcOf, Value;
    var log := a + b;
    assert forall i, j :: 0 <= i <= j <= |b| ==> log[|a| + i..|a| + j] == b[i..j];
  }

  lemma {:induction false} ScanShifts(a: seq<Byte>, b: seq<Byte>, offset: nat, limit: nat)
    ensures Scan(a + b, |a| + offset, limit) == Scan(b, offset, limit)
    decreases |b| - offset
  {
    hide NextRecord;
    NextShifts(a, b, offset, limit);
    var next := NextRecord(b, offset, limit);
    if next.Some? {
      ScanShifts(a, b, next.value.1, limit);
    }
  }

  /** Whatever follows whole records, a torn record or bytes appended behind one, is read as if it stood alone. */
  lemma {:induction false} ReadsOn(es: seq<WalEntry>, rest: seq<Byte>)
    requires forall i :: 0 <= i < |es| ==> Recordable(es[i]) && |Payload(es[i])| <= MAX_PAYLOAD
    ensures Entries(Records(es) + rest) == es + Entries(rest)
  {
    hide NextRecord, Record, Payload, Recordable, Scan;
    if es == [] {
      assert Records(es) + rest == rest;
    } else {
      var first, others := Record(es[0]), Records(es[1..]) + rest;
      var log := Records(es) + rest;
      Assoc(first, Records(es[1..]), rest);
      assert log == first + others;
      FirstRecord(es[0], others);
      ScanFirst(log, es[0], |first|);
      ScanShifts(first, others, 0, MAX_PAYLOAD);
      ReadsOn(es[1..], rest);
      assert es == [es[0]] + es[1..];
    }
  }

  lemma ScanFirst(log: seq<Byte>, e: WalEntry, after: nat)
    requires NextRecord(log, 0, MAX_PAYLOAD) == Some((e, after))
    ensures Entries(log) == [e] + Scan(log, after, MAX_PAYLOAD)
  {
    hide NextRecord;
  }

  lemma FirstRecord(e: WalEntry, others: seq<Byte>)
    requires Recordable(e) && |Payload(e)| <= MAX_PAYLOAD
    ensures NextRecord(Record(e) + others, 0, MAX_PAYLOAD) == Some((e, |Record(e)|))
  {
    hide NextRecord, Record, Payload, Recordable;
    assert At(Record(e) + others, 0, Record(e));
    ReadsRecord(Record(e) + others, 0, MAX_PAYLOAD, e);
  }

  /** So the bytes behind a torn record, wherever it was cut, stay unread if and only if the torn record and those bytes
      together do not read as a record. */
  lemma TornTailHidesExactly(es: seq<WalEntry>, tail: seq<Byte>, more: seq<Byte>)
    requires forall i :: 0 <= i < |es| ==> Recordable(es[i]) && |Payload(es[i])| <= MAX_PAYLOAD
    ensures Entries(Records(es) + tail + more) == es <==> Ends(tail + more, 0, MAX_PAYLOAD)
  {
    hide NextRecord, Payload, Recordable, Records;
    Assoc(Records(es), tail, more);
    ReadsOn(es, tail + more);
  }

  /** A torn record is not cut off when the log is opened again: what is appended after it stays unread until
      it fills the length the torn header promised. */
  lemma TornTailSwallows(es: seq<WalEntry>, e: WalEntry, n: nat, more: seq<Byte>)
    requires forall i :: 0 <= i < |es| ==> Recordable(es[i]) && |Payload(es[i])| <= MAX_PAYLOAD
    requires Recordable(e) && 4 <= n && n + |more| < |Record(e)|
    ensures Entries(Records(es) + Record(e)[..n] + more) == es
  {
    hide NextRecord, Record, Payload, Recordable;
    var tail := Record(e)[..n];
    var log := Records(es) + tail + more;
    AtEnd(Records(es), tail);
    AtPrefix(Records(es) + tail, |Records(es)|, tail, more);
    AtPrefix(Records(es), 0, Records(es), tail);
    AtPrefix(Records(es) + tail, 0, Records(es), more);
    PromisedLength(log, |Records(es)|, e, n);
    ScanRecords(log, 0, es, MAX_PAYLOAD);
    AcceptedAll(es, MAX_PAYLOAD);
  }

  lemma PromisedLength(log: seq<Byte>, offset: nat, e: WalEntry, n: nat)
    requires Recordable(e) && 4 <= n < |Record(e)| && At(log, offset, Record(e)[..n]) && |log| < offset + |Record(e)|
    ensures Ends(log, offset, MAX_PAYLOAD)
  {
    hide Payload, DecodePayload, Crc32, WriteUint32;
    var p := Payload(e);
    assert log[offset..offset + 4] == Record(e)[..n][..4] == WriteUint32(|p|);
    assert At(log, offset, WriteUint32(|p|));
    HeaderValue(log, offset, |p|);
  }
}
