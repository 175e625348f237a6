/** Checkpoints: the catalogue and the last flushed sequence number, written to a temporary file that is
    renamed into place (src/storage/checkpoint/checkpoint_manager.cpp). */
module Checkpoints {
  import opened Common
  import opened Bytes
  import opened Serializer
  import opened Disks
  import opened Catalogue

  const INT_LIMIT: int := 0x8000_0000

  datatype Checkpoint = Checkpoint(lsn: nat, sstables: seq<Meta>)

  // "/MANIFEST.checkpoint"
  const MANIFEST: Str := [47, 77, 65, 78, 73, 70, 69, 83, 84, 46, 99, 104, 101, 99, 107, 112, 111, 105, 110, 116]
  const DOT_TMP: Str := [46, 116, 109, 112]  // ".tmp"

  // ---- format ----

  /** The 32-bit pattern of an `int`. */
  function IntBits(n: int): nat {
    n % U32_LIMIT
  }

  function FromIntBits(bits: nat): int {
    if bits < INT_LIMIT then bits else bits - U32_LIMIT
  }

  function EncodeMeta(m: Meta): seq<Byte> {
    WriteUint32(IntBits(m.level)) + (WriteUint64(m.size) + (WriteUint64(m.seqno)
    + (WriteString(m.smallest) + (WriteString(m.largest) + WriteString(m.path)))))
  }

  function EncodeMetas(ms: seq<Meta>): seq<Byte> {
    if ms == [] then [] else EncodeMetas(ms[..|ms| - 1]) + EncodeMeta(ms[|ms| - 1])
  }

  function EncodeCheckpoint(cp: Checkpoint): seq<Byte> {
    WriteUint64(cp.lsn) + WriteUint32(|cp.sstables|) + EncodeMetas(cp.sstables)
  }

  function DecodeMeta(buffer: seq<Byte>, offset: nat): Result<(Meta, nat)> {
    var (level, o1) :- ReadUint32(buffer, offset);
    var (size, o2) :- ReadUint64(buffer, o1);
    var (seqno, o3) :- ReadUint64(buffer, o2);
    var (smallest, o4) :- ReadString(buffer, o3);
    var (largest, o5) :- ReadString(buffer, o4);
    var (path, o6) :- ReadString(buffer, o5);
    Ok((Meta(path, FromIntBits(level), smallest, largest, size, seqno), o6))
  }

  function DecodeMetas(buffer: seq<Byte>, offset: nat, n: nat, done: seq<Meta>): Result<seq<Meta>>
    decreases n, |done|
  {
    if n == 0 then Ok(done) else
    var (m, next) :- DecodeMeta(buffer, offset);
    DecodeMetas(buffer, next, n - 1, done + [m])
  }

  function DecodeCheckpoint(buffer: seq<Byte>): Result<Checkpoint> {
    var (lsn, o1) :- ReadUint64(buffer, 0);
    var (n, o2) :- ReadUint32(buffer, o1);
    var sstables :- DecodeMetas(buffer, o2, n, []);
    Ok(Checkpoint(lsn, sstables))
  }

  /** What loading finds: an empty checkpoint if there is no file. */
  function Loaded(files: Files, path: Str): Result<Checkpoint> {
    if path !in files then Ok(Checkpoint(0, [])) else DecodeCheckpoint(files[path])
  }

  // ---- round trip ----

  predicate FitsMeta(m: Meta) {
    && -INT_LIMIT <= m.level < INT_LIMIT && m.size < U64_LIMIT && m.seqno < U64_LIMIT
    && |m.smallest| < U32_LIMIT && |m.largest| < U32_LIMIT && |m.path| < U32_LIMIT
  }

  predicate FitsCheckpoint(cp: Checkpoint) {
    cp.lsn < U64_LIMIT && |cp.sstables| < U32_LIMIT && forall i :: 0 <= i < |cp.sstables| ==> FitsMeta(cp.sstables[i])
  }

  lemma IntRoundTrip(n: int)
    requires -INT_LIMIT <= n < INT_LIMIT
    ensures IntBits(n) < U32_LIMIT && FromIntBits(IntBits(n)) == n
  {
  }

  lemma DecodesMeta(buffer: seq<Byte>, offset: nat, m: Meta)
    requires FitsMeta(m) && At(buffer, offset, EncodeMeta(m))
    ensures DecodeMeta(buffer, offset) == Ok((m, offset + |EncodeMeta(m)|))
  {
    hide WriteUint32, WriteUint64, WriteString, ReadUint32, ReadUint64, ReadString, IntBits, FromIntBits;
    var w6 := WriteString(m.path);
    var w5 := WriteString(m.largest) + w6;
    var w4 := WriteString(m.smallest) + w5;
    var w3 := WriteUint64(m.seqno) + w4;
    var w2 := WriteUint64(m.size) + w3;
    var o4 := offset + 20;
    var o5 := o4 + 4 + |m.smallest|;
    var o6 := o5 + 4 + |m.largest|;
    AtSplit(buffer, offset, WriteUint32(IntBits(m.level)), w2);
    AtSplit(buffer, offset + 4, WriteUint64(m.size), w3);
    AtSplit(buffer, offset + 12, WriteUint64(m.seqno), w4);
    AtSplit(buffer, o4, WriteString(m.smallest), w5);
    AtSplit(buffer, o5, WriteString(m.largest), w6);
    IntRoundTrip(m.level);
    ReadsUint32(buffer, offset, IntBits(m.level));
    ReadsUint64(buffer, offset + 4, m.size);
    ReadsUint64(buffer, offset + 12, m.seqno);
    ReadsString(buffer, o4, m.smallest);
    ReadsString(buffer, o5, m.largest);
    ReadsString(buffer, o6, m.path);
  }

  lemma {:induction false} EncodeMetasCons(ms: seq<Meta>)
    requires ms != []
    ensures EncodeMetas(ms) == EncodeMeta(ms[0]) + EncodeMetas(ms[1..])
  {
    hide EncodeMeta;
    var n := |ms| - 1;
    if n == 0 {
      assert ms[..0] == [] && ms[1..] == [];
      assert EncodeMetas(ms[..0]) == [] && EncodeMetas(ms[1..]) == [];
    } else {
      EncodeMetasCons(ms[..n]);
      assert ms[..n][1..] == ms[1..][..n - 1] && ms[1..][n - 1] == ms[n];
      var first, middle, last := EncodeMeta(ms[0]), EncodeMetas(ms[1..][..n - 1]), EncodeMeta(ms[n]);
      assert (first + middle) + last == first + (middle + last);
    }
  }

  lemma {:induction false} DecodesMetas(buffer: seq<Byte>, offset: nat, ms: seq<Meta>, done: seq<Meta>)
    requires At(buffer, offset, EncodeMetas(ms)) && forall i :: 0 <= i < |ms| ==> FitsMeta(ms[i])
    ensures DecodeMetas(buffer, offset, |ms|, done) == Ok(done + ms)
    decreases |ms|
  {
    hide EncodeMeta, DecodeMeta, FitsMeta;
    if ms == [] {
      assert done + ms == done;
    } else {
      EncodeMetasCons(ms);
      AtSplit(buffer, offset, EncodeMeta(ms[0]), EncodeMetas(ms[1..]));
      DecodesMeta(buffer, offset, ms[0]);
      DecodesMetas(buffer, offset + |EncodeMeta(ms[0])|, ms[1..], done + [ms[0]]);
      assert done + [ms[0]] + ms[1..] == done + ms;
    }
  }

  /** Loading inverts saving for every catalogue and sequence number. */
  lemma CheckpointRoundTrip(cp: Checkpoint)
    requires FitsCheckpoint(cp)
    ensures DecodeCheckpoint(EncodeCheckpoint(cp)) == Ok(cp)
  {
    hide EncodeMetas, DecodeMetas, WriteUint32, WriteUint64, ReadUint32, ReadUint64, FitsMeta;
    var buffer := EncodeCheckpoint(cp);
    var head := WriteUint64(cp.lsn) + WriteUint32(|cp.sstables|);
    AtEnd(head, EncodeMetas(cp.sstables));
    AtPrefix(head, 0, head, EncodeMetas(cp.sstables));
    AtSplit(buffer, 0, WriteUint64(cp.lsn), WriteUint32(|cp.sstables|));
    ReadsUint64(buffer, 0, cp.lsn);
    ReadsUint32(buffer, 8, |cp.sstables|);
    DecodesMetas(buffer, 12, cp.sstables, []);
    assert [] + cp.sstables == cp.sstables;
  }

  /** Whatever loads was in range. */
  lemma LoadedFits(files: Files, path: Str)
    requires Loaded(files, path).Ok?
    ensures FitsCheckpoint(Loaded(files, path).value)
  {
    hide DecodeMetas, Value, FitsMeta;
    if path in files {
      var buffer := files[path];
      WordInRange(buffer, 0, 8);
      WordInRange(buffer, 8, 4);
      var n := ReadUint32(buffer, 8).value.0;
      MetasInRange(buffer, 12, n, []);
    }
  }

  lemma WordInRange(buffer: seq<Byte>, offset: nat, k: nat)
    ensures ReadUint(buffer, offset, k).Ok? ==> ReadUint(buffer, offset, k).value.0 < Pow(256, k)
    ensures Pow(256, 4) == U32_LIMIT && Pow(256, 8) == U64_LIMIT
  {
    if offset + k <= |buffer| {
      LittleEndianOfValue(buffer[offset..offset + k]);
    }
  }

  lemma MetaInRange(buffer: seq<Byte>, offset: nat)
    ensures DecodeMeta(buffer, offset).Ok? ==> FitsMeta(DecodeMeta(buffer, offset).value.0)
  {
    hide Value;
    if DecodeMeta(buffer, offset).Ok? {
      WordInRange(buffer, offset, 4);
      WordInRange(buffer, offset + 4, 8);
      WordInRange(buffer, offset + 12, 8);
      var o4 := ReadString(buffer, offset + 20).value.1;
      var o5 := ReadString(buffer, o4).value.1;
      WordInRange(buffer, offset + 20, 4);
      WordInRange(buffer, o4, 4);
      WordInRange(buffer, o5, 4);
    }
  }

  lemma {:induction false} MetasInRange(buffer: seq<Byte>, offset: nat, n: nat, done: seq<Meta>)
    requires forall i :: 0 <= i < |done| ==> FitsMeta(done[i])
    ensures var r := DecodeMetas(buffer, offset, n, done);
      r.Ok? ==> |r.value| == |done| + n && forall i :: 0 <= i < |r.value| ==> FitsMeta(r.value[i])
    decreases n
  {
    hide DecodeMeta, FitsMeta;
    if n > 0 && DecodeMeta(buffer, offset).Ok? {
      var (m, next) := DecodeMeta(buffer, offset).value;
      MetaInRange(buffer, offset);
      MetasInRange(buffer, next, n - 1, done + [m]);
    }
  }

  // ---- saving and loading ----

  /** The disk operations of a save. */
  ghost function SaveOps(path: Str, temp: Str, cp: Checkpoint): seq<DiskOp> {
    [Write(temp, EncodeCheckpoint(cp)), Rename(temp, path)]
  }

  class CheckpointManager {
    const path: Str
    const temp: Str
    const disk: Disk

    constructor (dir: Str, disk: Disk)
      ensures path == dir + MANIFEST && temp == dir + MANIFEST + DOT_TMP && this.disk == disk && path != temp
    {
      path := dir + MANIFEST;
      temp := dir + MANIFEST + DOT_TMP;
      this.disk := disk;
    }

    method SaveCheckpoint(cp: Checkpoint)
      modifies disk
      ensures disk.files == (old(disk.files) - {temp})[path := EncodeCheckpoint(cp)]
      ensures disk.trace == old(disk.trace) + SaveOps(path, temp, cp)
    {
      hide WriteUint32, WriteUint64, WriteString, IntBits;
      var buffer := WriteUint64(cp.lsn);
      buffer := buffer + WriteUint32(|cp.sstables|);
      ghost var head := buffer;
      var i := 0;
      while i < |cp.sstables|
        invariant 0 <= i <= |cp.sstables| && buffer == head + EncodeMetas(cp.sstables[..i])
      {
        var m := cp.sstables[i];
        ghost var before := buffer;
        buffer := buffer + WriteUint32(IntBits(m.level));
        buffer := buffer + WriteUint64(m.size);
        buffer := buffer + WriteUint64(m.seqno);
        buffer := buffer + WriteString(m.smallest);
        buffer := buffer + WriteString(m.largest);
        buffer := buffer + WriteString(m.path);
        assert buffer == before + EncodeMeta(m);
        assert cp.sstables[..i + 1][..i] == cp.sstables[..i];
        i := i + 1;
      }
      assert cp.sstables[..i] == cp.sstables;
      disk.Perform(Write(temp, buffer));
      disk.Perform(Rename(temp, path));
      assert old(disk.files)[temp := buffer] - {temp} == old(disk.files) - {temp};
    }

    method LoadCheckpoint() returns (r: Result<Checkpoint>)
      ensures r == Loaded(disk.files, path)
    {
      hide DecodeMeta, ReadUint32, ReadUint64;
      if path !in disk.files {
        return Ok(Checkpoint(0, []));
      }
      var buffer := disk.files[path];
      var lsn :- ReadUint64(buffer, 0);
      var count :- ReadUint32(buffer, lsn.1);
      var (n, offset) := count;
      var sstables: seq<Meta> := [];
      var i := 0;
      while i < n
        invariant 0 <= i <= n && DecodeMetas(buffer, offset, n - i, sstables) == DecodeMetas(buffer, count.1, n, [])
      {
        var read :- DecodeMeta(buffer, offset);
        offset := read.1;
        sstables := sstables + [read.0];
        i := i + 1;
      }
      return Ok(Checkpoint(lsn.0, sstables));
    }
  }

  /** A crash anywhere in a save leaves the old checkpoint or the new one, and no other file changed. */
  lemma SaveIsAtomic(d: Files, path: Str, temp: Str, cp: Checkpoint, d': Files)
    requires path != temp && FitsCheckpoint(cp) && CrashState(d, SaveOps(path, temp, cp), d')
    ensures Loaded(d', path) == Loaded(d, path) || Loaded(d', path) == Ok(cp)
    ensures forall p :: p != path && p != temp ==> (p in d' <==> p in d) && (p in d ==> d'[p] == d[p])
  {
    hide EncodeCheckpoint, DecodeCheckpoint;
    CheckpointRoundTrip(cp);
    var write := Write(temp, EncodeCheckpoint(cp));
    FirstOp(d, write);
    OneMoreOp(d, [write], Rename(temp, path));
    assert [write] + [Rename(temp, path)] == SaveOps(path, temp, cp);
  }

  /** A finished save is the new checkpoint. */
  lemma SaveFinishes(d: Files, path: Str, temp: Str, cp: Checkpoint)
    requires path != temp && FitsCheckpoint(cp)
    ensures Loaded(ApplyAll(d, SaveOps(path, temp, cp)), path) == Ok(cp)
    ensures ApplyAll(d, SaveOps(path, temp, cp)) == (d - {temp})[path := EncodeCheckpoint(cp)]
  {
    hide EncodeCheckpoint, DecodeCheckpoint;
    CheckpointRoundTrip(cp);
    var write := Write(temp, EncodeCheckpoint(cp));
    FirstOp(d, write);
    OneMoreOp(d, [write], Rename(temp, path));
    assert [write] + [Rename(temp, path)] == SaveOps(path, temp, cp);
    assert d[temp := EncodeCheckpoint(cp)] - {temp} == d - {temp};
  }
}
