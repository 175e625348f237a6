/** The store as one map: the fold of its log, what a disk recovers to, and what crashes leave
    (src/storage/engine/storage_engine.cpp, src/storage/recovery/recovery_manager.cpp). */
module EngineTheory {
  import opened Common
  import opened Bytes
  import opened Serializer
  import opened Tables
  import opened SSTableFormat
  import opened Disks
  import opened Paths
  import opened Catalogue
  import opened Wals
  import opened Checkpoints

  // ---- the reference: the last write of every key in the log ----

  function AsEntry(e: WalEntry): Entry {
    if e.kind == PUT then Entry(e.key, e.value, false) else Entry(e.key, [], true)
  }

  /** The last write to `k`. */
  function LastWrite(es: seq<WalEntry>, k: Str): Option<Entry> {
    if es == [] then None
    else if es[|es| - 1].key == k then Some(AsEntry(es[|es| - 1]))
    else LastWrite(es[..|es| - 1], k)
  }

  /** The reference map: what a reader of the whole log sees. */
  function Model(es: seq<WalEntry>, k: Str): Option<seq<Byte>> {
    Visible(LastWrite(es, k))
  }

  /** The same as a plain map: a put sets its key to its whole value, a delete takes its key out. */
  function Replayed(es: seq<WalEntry>): map<Str, seq<Byte>> {
    if es == [] then map[] else
    var m, e := Replayed(es[..|es| - 1]), es[|es| - 1];
    if e.kind == PUT then m[e.key := e.value] else m - {e.key}
  }

  function Held(m: map<Str, seq<Byte>>, k: Str): Option<seq<Byte>> {
    if k in m then Some(m[k]) else None
  }

  lemma NothingReplayed()
    ensures Replayed([]) == map[]
  {
  }

  /** For every log and key the reference is what the plain map holds. */
  lemma {:induction false} ModelIsMap(es: seq<WalEntry>, k: Str)
    ensures Model(es, k) == Held(Replayed(es), k)
  {
    if es != [] {
      ModelIsMap(es[..|es| - 1], k);
    }
  }

  /** The memtable a log replays to. */
  function Fold(es: seq<WalEntry>): seq<Entry> {
    if es == [] then [] else Upsert(Fold(es[..|es| - 1]), AsEntry(es[|es| - 1]))
  }

  lemma {:induction false} FoldIsMap(es: seq<WalEntry>)
    ensures Sorted(Fold(es)) && forall k :: Lookup(Fold(es), k) == LastWrite(es, k)
  {
    hide Upsert, Less;
    if es != [] {
      var n := |es| - 1;
      FoldIsMap(es[..n]);
      UpsertIsUpdate(Fold(es[..n]), AsEntry(es[n]));
      forall k ensures Lookup(Fold(es), k) == LastWrite(es, k) {
        assert Lookup(Fold(es[..n]), k) == LastWrite(es[..n], k);
      }
    }
  }

  lemma {:induction false} LastWriteSplit(a: seq<WalEntry>, b: seq<WalEntry>, k: Str)
    ensures LastWrite(a + b, k) == if LastWrite(b, k).Some? then LastWrite(b, k) else LastWrite(a, k)
  {
    if b == [] {
      assert a + b == a;
    } else {
      var n := |b| - 1;
      LastWriteSplit(a, b[..n], k);
      assert (a + b)[..|a + b| - 1] == a + b[..n];
    }
  }

  // ---- lookups through the layers ----

  /** The layered lookup that keeps the memtable's tombstones apart from absent keys. */
  ghost function Layered(mem: seq<Entry>, files: seq<Meta>, store: Store, k: Str): Option<Entry> {
    if Lookup(mem, k).Some? then Lookup(mem, k) else Version(files, store, k)
  }

  /** The lookup the engine makes: a memtable tombstone falls through to the SSTables. */
  ghost function EngineGet(mem: seq<Entry>, files: seq<Meta>, store: Store, k: Str): Option<seq<Byte>> {
    var found := Visible(Lookup(mem, k));
    if found.Some? then found else Visible(Version(files, store, k))
  }

  /** SSTables holding the log up to `lsn`, under a memtable holding the rest, show the whole log. */
  lemma LayersShowLog(es: seq<WalEntry>, lsn: nat, files: seq<Meta>, store: Store, k: Str)
    requires lsn <= |es| && Visible(Version(files, store, k)) == Model(es[..lsn], k)
    ensures Visible(Layered(Fold(es[lsn..]), files, store, k)) == Model(es, k)
  {
    FoldIsMap(es[lsn..]);
    LastWriteSplit(es[..lsn], es[lsn..], k);
    assert es[..lsn] + es[lsn..] == es;
  }

  // ---- flushing ----

  /** A new level-0 file with the highest sequence number answers for the keys it holds; the others answer
      as before. */
  lemma FlushVersion(files: seq<Meta>, store: Store, maxLevel: int, meta: Meta, es: seq<Entry>, k: Str)
    requires WellFormed(files, store, maxLevel) && meta.level == 0
    requires forall f :: f in files ==> f.path != meta.path && (f.level == 0 ==> f.seqno < meta.seqno)
    ensures Version(files + [meta], store[meta.path := es], k)
         == if Lookup(es, k).Some? then Lookup(es, k) else Version(files, store, k)
  {
    hide Lookup, Less;
    var files', store' := files + [meta], store[meta.path := es];
    assert forall f :: f in files ==> (Holds(store', f, k) <==> Holds(store, f, k));
    assert Holds(store', meta, k) <==> Lookup(es, k).Some?;
    if Lookup(es, k).Some? {
      forall g | g in files' && g != meta && Holds(store', g, k) ensures Outranks(meta, g) {
        assert Placed(g, store, maxLevel);
      }
      assert meta in files';
      TopIsBest(files', store', k, meta);
    } else {
      BestNone(files, store, k);
      BestNone(files', store', k);
      if Best(files, store, k).Some? {
        BestIsTop(files, store, maxLevel, k);
        var t := Best(files, store, k).value;
        assert Top(files', store', k, t);
        TopIsBest(files', store', k, t);
        TopIsBest(files, store, k, t);
      }
    }
  }

  /** Adding it keeps the catalogue well formed. */
  lemma FlushWellFormed(files: seq<Meta>, store: Store, maxLevel: int, meta: Meta, es: seq<Entry>)
    requires WellFormed(files, store, maxLevel) && meta.level == 0 < maxLevel && Describes(meta, es)
    requires forall f :: f in files ==> f.path != meta.path && (f.level == 0 ==> f.seqno < meta.seqno)
    ensures WellFormed(files + [meta], store[meta.path := es], maxLevel)
  {
    hide Describes, Apart;
    var files', store' := files + [meta], store[meta.path := es];
    forall f | f in files' ensures Placed(f, store', maxLevel) {
      if f != meta {
        assert Placed(f, store, maxLevel);
      }
    }
    forall f, g | f in files' && g in files' && f != g ensures Compatible(f, g) {
      if f in files && g in files {
        assert Compatible(f, g);
      }
    }
  }

  // ---- the disk ----

  /** Where the engine keeps its files. */
  datatype Layout = Layout(wal: Str, checkpoint: Str, temp: Str, sstDir: Str)

  // "/wal_current.log"
  const WAL_NAME: Str := [47, 119, 97, 108, 95, 99, 117, 114, 114, 101, 110, 116, 46, 108, 111, 103]

  function LayoutOf(dataDir: Str, walDir: Str, sstDir: Str): Layout {
    Layout(walDir + WAL_NAME, dataDir + MANIFEST, dataDir + MANIFEST + DOT_TMP, sstDir)
  }

  /** The last four bytes of a name. */
  predicate EndsWith(s: Str, suffix: Str) {
    |s| >= |suffix| && s[|s| - |suffix|..] == suffix
  }

  lemma SuffixOf(a: Str, suffix: Str)
    ensures EndsWith(a + suffix, suffix)
  {
  }

  /** Log, checkpoint and its temporary file have different names, and none is named like an SSTable. */
  ghost predicate Separate(l: Layout) {
    && l.wal != l.checkpoint && l.wal != l.temp && l.checkpoint != l.temp
    && !EndsWith(l.wal, DOT_SST) && !EndsWith(l.checkpoint, DOT_SST) && !EndsWith(l.temp, DOT_SST)
  }

  lemma LayoutApart(l: Layout)
    requires Separate(l)
    ensures l.wal != l.checkpoint && l.wal != l.temp && l.checkpoint != l.temp
  {
  }

  /** This holds whatever the directories are. */
  lemma LayoutsSeparate(dataDir: Str, walDir: Str, sstDir: Str)
    ensures Separate(LayoutOf(dataDir, walDir, sstDir))
  {
    var l := LayoutOf(dataDir, walDir, sstDir);
    var log, oint: Str := [46, 108, 111, 103], [111, 105, 110, 116];
    assert WAL_NAME[12..] == log && MANIFEST[16..] == oint;
    assert l.wal == walDir + WAL_NAME[..12] + log;
    assert l.checkpoint == dataDir + MANIFEST[..16] + oint;
    SuffixOf(walDir + WAL_NAME[..12], log);
    SuffixOf(dataDir + MANIFEST[..16], oint);
    SuffixOf(dataDir + MANIFEST, DOT_TMP);
    assert log[3] != oint[3] && log[3] != DOT_TMP[3] && oint[3] != DOT_TMP[3] && DOT_SST[3] != log[3]
        && DOT_SST[2] != oint[2] && DOT_SST[3] != DOT_TMP[3];
  }

  lemma SSTableNames(dir: Str)
    ensures forall n: nat :: EndsWith(FlushPath(dir, n), DOT_SST)
    ensures forall level: nat, n: nat :: EndsWith(OutputPath(dir, level, n), DOT_SST)
  {
    forall n: nat ensures EndsWith(FlushPath(dir, n), DOT_SST) {
      SuffixOf(dir + SLASH_LEVEL + Decimal(0) + UNDERSCORE + Decimal(n), DOT_SST);
    }
    forall level: nat, n: nat ensures EndsWith(OutputPath(dir, level, n), DOT_SST) {
      SuffixOf(dir + SLASH_LEVEL + Decimal(level) + UNDERSCORE + Padded(n), DOT_SST);
    }
  }

  /** Every entry is a put or a delete of a size SSTables can hold, numbered from 1. */
  ghost predicate SoundLog(es: seq<WalEntry>) {
    Consecutive(es) && forall i :: 0 <= i < |es| ==> SoundEntry(es[i])
  }

  ghost predicate SoundEntry(e: WalEntry) {
    (e.kind == PUT || e.kind == DELETE) && Recordable(e) && EncodedSize(AsEntry(e)) <= ENTRY_LIMIT
  }

  /** And of a size the log reads back. */
  ghost predicate GoodLog(es: seq<WalEntry>) {
    Consecutive(es) && forall i :: 0 <= i < |es| ==> GoodEntry(es[i])
  }

  lemma GoodIsSound(es: seq<WalEntry>)
    requires GoodLog(es)
    ensures SoundLog(es)
  {
    hide GoodEntry, SoundEntry;
    forall i | 0 <= i < |es| ensures SoundEntry(es[i]) {
      GoodEntryIsSound(es[i]);
    }
  }

  lemma GoodEntryIsSound(e: WalEntry)
    requires GoodEntry(e)
    ensures SoundEntry(e)
  {
    hide WriteUint32, WriteUint64;
  }

  ghost predicate GoodEntry(e: WalEntry) {
    (e.kind == PUT || e.kind == DELETE) && Recordable(e) && |Payload(e)| <= MAX_PAYLOAD
  }

  /** A log file holding the records of `es`, and possibly the beginning of one more. */
  ghost predicate LogHolds(log: seq<Byte>, es: seq<WalEntry>) {
    exists e: WalEntry, n: nat :: Recordable(e) && n < |Record(e)| && log == Records(es) + Record(e)[..n]
  }

  /** Such a log reads back as `es`, and `Open` resumes after its last entry. */
  lemma LogReads(log: seq<Byte>, es: seq<WalEntry>)
    requires LogHolds(log, es) && GoodLog(es)
    ensures Entries(log) == es && NextLsn(Scan(log, 0, U32_LIMIT)) == |es| + 1
  {
    hide Record, Payload, Recordable, Scan;
    var e: WalEntry, n: nat :| Recordable(e) && n < |Record(e)| && log == Records(es) + Record(e)[..n];
    assert forall i :: 0 <= i < |es| ==> GoodEntry(es[i]);
    ReadsTornLog(es, e, n);
    OpenResumes(es);
  }

  lemma WholeLogHolds(es: seq<WalEntry>)
    ensures LogHolds(Records(es), es)
  {
    hide Records;
    var e := WalEntry(0, DELETE, [], []);
    assert Recordable(e) && 0 < |Record(e)|;
    assert Records(es) + Record(e)[..0] == Records(es);
  }

  /** The checkpointed SSTables are there and show the log up to the checkpoint. */
  ghost predicate Checkpointed(d: Files, maxLevel: int, keys: iset<Str>, es: seq<WalEntry>, cp: Checkpoint,
      store: Store) {
    && cp.lsn <= |es| && WellFormed(cp.sstables, store, maxLevel)
    && (forall f :: f in cp.sstables ==>
          EndsWith(f.path, DOT_SST) && f.path in store && f.path in d && IsTable(d[f.path], store[f.path])
              && Storable(store[f.path]))
    && forall k :: k in keys ==> Visible(Version(cp.sstables, store, k)) == Model(es[..cp.lsn], k)
  }

  /** A log replays to entries of bounded size, tombstones without a value. */
  lemma {:induction false} FoldStorable(es: seq<WalEntry>)
    requires forall i :: 0 <= i < |es| ==> SoundEntry(es[i])
    ensures Storable(Fold(es))
  {
    hide Upsert, Less, Recordable;
    if es != [] {
      var n := |es| - 1;
      FoldStorable(es[..n]);
      UpsertMembers(Fold(es[..n]), AsEntry(es[n]));
      forall i | 0 <= i < |Fold(es)|
        ensures EncodedSize(Fold(es)[i]) <= ENTRY_LIMIT && (Fold(es)[i].tombstone ==> Fold(es)[i].value == [])
      {
        assert Fold(es)[i] in Fold(es);
      }
    }
  }

  lemma {:induction false} UpsertMembers(es: seq<Entry>, e: Entry)
    ensures forall x :: x in Upsert(es, e) ==> x in es || x == e
  {
    hide Less;
    if es != [] && es[0].key != e.key && !Less(e.key, es[0].key) {
      UpsertMembers(es[1..], e);
    }
  }

  /** A disk that recovers: its checkpoint loads, its log reads as `es`, and the SSTables agree with the log. */
  ghost predicate Recovers(d: Files, l: Layout, maxLevel: int, keys: iset<Str>, es: seq<WalEntry>, cp: Checkpoint,
      store: Store) {
    && LogHolds(Contents(d, l.wal), es) && GoodLog(es)
    && Loaded(d, l.checkpoint) == Ok(cp) && Checkpointed(d, maxLevel, keys, es, cp, store)
  }

  ghost predicate Recoverable(d: Files, l: Layout, maxLevel: int, keys: iset<Str>, es: seq<WalEntry>) {
    exists cp, store :: Recovers(d, l, maxLevel, keys, es, cp, store)
  }

  /** What recovery builds from such a disk shows the whole log. */
  lemma RecoveryShowsLog(d: Files, l: Layout, maxLevel: int, keys: iset<Str>, es: seq<WalEntry>, cp: Checkpoint,
      store: Store, k: Str)
    requires Recovers(d, l, maxLevel, keys, es, cp, store) && k in keys
    ensures Visible(Layered(Fold(es[cp.lsn..]), cp.sstables, store, k)) == Model(es, k)
  {
    LayersShowLog(es, cp.lsn, cp.sstables, store, k);
  }

  // ---- crashes ----

  /** Changes to files the checkpoint does not name, and to neither log nor checkpoint, do not matter. */
  lemma OtherFilesDoNotMatter(d: Files, d': Files, l: Layout, maxLevel: int, keys: iset<Str>, es: seq<WalEntry>,
      cp: Checkpoint, store: Store)
    requires Recovers(d, l, maxLevel, keys, es, cp, store)
    requires Contents(d', l.wal) == Contents(d, l.wal) && Loaded(d', l.checkpoint) == Loaded(d, l.checkpoint)
    requires forall f :: f in cp.sstables ==> f.path in d' && d'[f.path] == d[f.path]
    ensures Recovers(d', l, maxLevel, keys, es, cp, store)
  {
    hide WellFormed, IsTable, Version, Model, DecodeCheckpoint, LogHolds;
  }

  /** A longer log keeps the checkpoint valid. */
  lemma LongerLog(d: Files, maxLevel: int, keys: iset<Str>, es: seq<WalEntry>, more: seq<WalEntry>, cp: Checkpoint,
      store: Store)
    requires Checkpointed(d, maxLevel, keys, es, cp, store)
    ensures Checkpointed(d, maxLevel, keys, es + more, cp, store)
  {
    hide WellFormed, IsTable, Version, Model;
    assert (es + more)[..cp.lsn] == es[..cp.lsn];
  }

  /** A crash while appending a record to a whole log leaves the log without it or with it. */
  lemma AppendCrash(d: Files, l: Layout, maxLevel: int, keys: iset<Str>, es: seq<WalEntry>, e: WalEntry, cp: Checkpoint,
      store: Store, d': Files)
    requires Separate(l) && Recovers(d, l, maxLevel, keys, es, cp, store) && Contents(d, l.wal) == Records(es)
        && GoodLog(es + [e])
    requires Torn(d, Append(l.wal, Record(e)), d')
    ensures Recovers(d', l, maxLevel, keys, es, cp, store) || Recovers(d', l, maxLevel, keys, es + [e], cp, store)
  {
    hide WellFormed, IsTable, Version, Model, DecodeCheckpoint, Record, Payload, Recordable, Records;
    if d' != d {
      var n := AppendedBytes(d, l.wal, Record(e), d');
      if n < |Record(e)| {
        WalOnly(d, d', l, maxLevel, keys, es, cp, store);
        assert GoodEntry((es + [e])[|es|]);
        assert LogHolds(Contents(d', l.wal), es);
      } else {
        assert Record(e)[..n] == Record(e);
        AppendDone(d, l, maxLevel, keys, es, e, cp, store);
      }
    }
  }

  /** A finished append leaves it with the record. */
  lemma AppendDone(d: Files, l: Layout, maxLevel: int, keys: iset<Str>, es: seq<WalEntry>, e: WalEntry, cp: Checkpoint,
      store: Store)
    requires Separate(l) && Recovers(d, l, maxLevel, keys, es, cp, store) && Contents(d, l.wal) == Records(es)
        && GoodLog(es + [e])
    ensures Recovers(Apply(d, Append(l.wal, Record(e))), l, maxLevel, keys, es + [e], cp, store)
    ensures Contents(Apply(d, Append(l.wal, Record(e))), l.wal) == Records(es + [e])
  {
    hide WellFormed, IsTable, Version, Model, DecodeCheckpoint, Record, Payload, Recordable, Records, LogHolds;
    var d' := Apply(d, Append(l.wal, Record(e)));
    WalOnly(d, d', l, maxLevel, keys, es, cp, store);
    AppendedLog(es, e);
    WholeLogHolds(es + [e]);
    LongerLog(d', maxLevel, keys, es, [e], cp, store);
  }

  lemma AppendedBytes(d: Files, path: Str, record: seq<Byte>, d': Files) returns (n: nat)
    requires Torn(d, Append(path, record), d') && d' != d
    ensures n <= |record| && d' == d[path := Contents(d, path) + record[..n]]
  {
    if d' == Apply(d, Append(path, record)) {
      n := |record|;
      assert record[..n] == record;
    } else {
      n :| 0 <= n <= |record| && d' == d[path := Contents(d, path) + record[..n]];
    }
  }

  lemma AppendedLog(es: seq<WalEntry>, e: WalEntry)
    ensures Records(es + [e]) == Records(es) + Record(e)
  {
    hide Record;
    RecordsSplit(es, [e]);
    RecordsCons([e]);
    assert [e][1..] == [] && Records([]) == [] && Record(e) + [] == Record(e);
  }

  /** Only the log changed. */
  lemma WalOnly(d: Files, d': Files, l: Layout, maxLevel: int, keys: iset<Str>, es: seq<WalEntry>, cp: Checkpoint,
      store: Store)
    requires Separate(l) && Recovers(d, l, maxLevel, keys, es, cp, store)
    requires l.wal in d' && d' == d[l.wal := d'[l.wal]]
    ensures Loaded(d', l.checkpoint) == Ok(cp) && Checkpointed(d', maxLevel, keys, es, cp, store)
  {
    hide WellFormed, IsTable, Version, Model, DecodeCheckpoint, LogHolds, GoodLog;
  }

  /** Recovery opens the log twice and writes nothing into it, so a crash during recovery leaves a disk that recovers
      to the same. */
  ghost function RecoveryOps(l: Layout): seq<DiskOp> {
    [Append(l.wal, []), Append(l.wal, [])]
  }

  lemma RecoveryIsIdempotent(d: Files, l: Layout, maxLevel: int, keys: iset<Str>, es: seq<WalEntry>, cp: Checkpoint,
      store: Store, d': Files)
    requires Separate(l) && Recovers(d, l, maxLevel, keys, es, cp, store) && CrashState(d, RecoveryOps(l), d')
    ensures Recovers(d', l, maxLevel, keys, es, cp, store)
  {
    hide Recovers, Separate;
    var open := Append(l.wal, []);
    FirstOp(d, open);
    OneMoreOp(d, [open], open);
    assert [open] + [open] == RecoveryOps(l);
    var d1 := Apply(d, open);
    OpenCrash(d, l, maxLevel, keys, es, cp, store, d1);
    if Torn(d, open, d') {
      OpenCrash(d, l, maxLevel, keys, es, cp, store, d');
    } else {
      OpenCrash(d1, l, maxLevel, keys, es, cp, store, d');
    }
  }

  lemma OpenCrash(d: Files, l: Layout, maxLevel: int, keys: iset<Str>, es: seq<WalEntry>, cp: Checkpoint, store: Store,
      d': Files)
    requires Separate(l) && Recovers(d, l, maxLevel, keys, es, cp, store) && Torn(d, Append(l.wal, []), d')
    ensures Recovers(d', l, maxLevel, keys, es, cp, store)
  {
    hide WellFormed, IsTable, Version, Model, DecodeCheckpoint, LogHolds, GoodLog, Separate;
    if d' != d {
      var n := AppendedBytes(d, l.wal, [], d');
      assert Contents(d, l.wal) + [][..n] == Contents(d, l.wal);
      WalOnly(d, d', l, maxLevel, keys, es, cp, store);
    }
  }

  /** What a flush puts in place: the memtable's table in a new file, and a checkpoint naming it. */
  ghost predicate Flushes(l: Layout, maxLevel: int, es: seq<WalEntry>, cp: Checkpoint, store: Store, meta: Meta,
      cp': Checkpoint) {
    && cp.lsn <= |es| && meta.level == 0 < maxLevel && EndsWith(meta.path, DOT_SST) && Fold(es[cp.lsn..]) != []
        && Fits(Fold(es[cp.lsn..]))
    && Describes(meta, Fold(es[cp.lsn..]))
    && (forall f :: f in cp.sstables ==> f.path != meta.path && (f.level == 0 ==> f.seqno < meta.seqno))
    && cp' == Checkpoint(|es|, cp.sstables + [meta]) && FitsCheckpoint(cp')
  }

  /** With the new file written, the new checkpoint is as good as the old. */
  lemma FlushedCheckpoint(d: Files, l: Layout, maxLevel: int, keys: iset<Str>, es: seq<WalEntry>, cp: Checkpoint,
      store: Store, meta: Meta, cp': Checkpoint)
    requires Checkpointed(d, maxLevel, keys, es, cp, store) && GoodLog(es)
        && Flushes(l, maxLevel, es, cp, store, meta, cp')
    requires meta.path in d && d[meta.path] == EncodeTable(Fold(es[cp.lsn..]))
    ensures Checkpointed(d, maxLevel, keys, es, cp', store[meta.path := Fold(es[cp.lsn..])])
  {
    hide WellFormed, Version, EncodeTable, Fits, Fold, LastWrite, Describes, Lookup, Storable, Consecutive, SoundEntry,
        GoodEntry;
    var table := Fold(es[cp.lsn..]);
    var store' := store[meta.path := table];
    FoldIsMap(es[cp.lsn..]);
    FlushWellFormed(cp.sstables, store, maxLevel, meta, table);
    GoodIsSound(es);
    FoldStorable(es[cp.lsn..]);
    forall k | k in keys ensures Visible(Version(cp'.sstables, store', k)) == Model(es[..cp'.lsn], k) {
      FlushVersion(cp.sstables, store, maxLevel, meta, table, k);
      LayersShowLog(es, cp.lsn, cp.sstables, store, k);
      assert es[..|es|] == es;
    }
  }

  ghost function FlushOps(l: Layout, path: Str, table: seq<Entry>, cp': Checkpoint): seq<DiskOp> {
    [Write(path, EncodeTable(table))] + SaveOps(l.checkpoint, l.temp, cp')
  }

  /** Writing an SSTable no checkpoint names, whole or in part, does not matter. */
  lemma TableWriteCrash(d: Files, l: Layout, maxLevel: int, keys: iset<Str>, es: seq<WalEntry>, cp: Checkpoint,
      store: Store, path: Str, file: seq<Byte>, d': Files)
    requires Separate(l) && Recovers(d, l, maxLevel, keys, es, cp, store) && EndsWith(path, DOT_SST)
    requires forall f :: f in cp.sstables ==> f.path != path
    requires Torn(d, Write(path, file), d')
    ensures Recovers(d', l, maxLevel, keys, es, cp, store)
  {
    hide WellFormed, IsTable, Version, Model, DecodeCheckpoint, LogHolds;
    OtherFilesDoNotMatter(d, d', l, maxLevel, keys, es, cp, store);
  }

  /** A crash anywhere in a flush leaves a disk that recovers to the same log, under the old checkpoint or the
      new one. */
  lemma FlushCrash(d: Files, l: Layout, maxLevel: int, keys: iset<Str>, es: seq<WalEntry>, cp: Checkpoint, store: Store,
      meta: Meta, cp': Checkpoint, d': Files)
    requires Separate(l) && Recovers(d, l, maxLevel, keys, es, cp, store)
        && Flushes(l, maxLevel, es, cp, store, meta, cp')
    requires CrashState(d, FlushOps(l, meta.path, Fold(es[cp.lsn..]), cp'), d')
    ensures Recoverable(d', l, maxLevel, keys, es)
  {
    hide EncodeTable, Fold, Recovers, FitsCheckpoint, Describes, EncodeCheckpoint, Fits, Separate;
    var table := Fold(es[cp.lsn..]);
    var write := Write(meta.path, EncodeTable(table));
    CrashSplit(d, [write], SaveOps(l.checkpoint, l.temp, cp'), d');
    FirstOp(d, write);
    var d1 := Apply(d, write);
    TableWriteCrash(d, l, maxLevel, keys, es, cp, store, meta.path, EncodeTable(table), d1);
    if CrashState(d, [write], d') {
      TableWriteCrash(d, l, maxLevel, keys, es, cp, store, meta.path, EncodeTable(table), d');
    } else {
      SaveCrash(d1, l, maxLevel, keys, es, cp, store, meta, cp', d');
    }
  }

  lemma SaveCrash(d: Files, l: Layout, maxLevel: int, keys: iset<Str>, es: seq<WalEntry>, cp: Checkpoint, store: Store,
      meta: Meta, cp': Checkpoint, d': Files)
    requires Separate(l) && Recovers(d, l, maxLevel, keys, es, cp, store)
        && Flushes(l, maxLevel, es, cp, store, meta, cp')
    requires meta.path in d && d[meta.path] == EncodeTable(Fold(es[cp.lsn..]))
    requires CrashState(d, SaveOps(l.checkpoint, l.temp, cp'), d')
    ensures Recoverable(d', l, maxLevel, keys, es)
    ensures Loaded(d', l.checkpoint) == Ok(cp') ==> Recovers(d', l, maxLevel, keys, es, cp',
        store[meta.path := Fold(es[cp.lsn..])])
  {
    hide EncodeTable, Fold, FitsCheckpoint, Describes, EncodeCheckpoint, DecodeCheckpoint, WellFormed, IsTable, Version,
        Model, LogHolds, CrashState, Fits;
    SaveIsAtomic(d, l.checkpoint, l.temp, cp', d');
    var store' := store[meta.path := Fold(es[cp.lsn..])];
    if Loaded(d', l.checkpoint) == Ok(cp') {
      FlushedCheckpoint(d, l, maxLevel, keys, es, cp, store, meta, cp');
      SameTables(d, d', l, maxLevel, keys, es, cp', store');
      assert Recovers(d', l, maxLevel, keys, es, cp', store');
    } else {
      SameTables(d, d', l, maxLevel, keys, es, cp, store);
      assert Recovers(d', l, maxLevel, keys, es, cp, store);
    }
  }

  lemma SameTables(d: Files, d': Files, l: Layout, maxLevel: int, keys: iset<Str>, es: seq<WalEntry>, cp: Checkpoint,
      store: Store)
    requires Separate(l) && Checkpointed(d, maxLevel, keys, es, cp, store)
    requires forall p :: p != l.checkpoint && p != l.temp ==> (p in d' <==> p in d) && (p in d ==> d'[p] == d[p])
    ensures Checkpointed(d', maxLevel, keys, es, cp, store)
  {
    hide WellFormed, IsTable, Version, Model;
  }
}
