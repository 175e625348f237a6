/** The state of the engine as a value: what it holds in memory and on disk, the log it stands for, and what
    writes, flushes and compactions do to it (src/storage/engine/storage_engine.cpp). */
module EngineStates {
  import opened Common
  import opened Bytes
  import opened Serializer
  import opened Tables
  import opened Blocks
  import opened SSTableFormat
  import opened Disks
  import opened Paths
  import opened Catalogue
  import opened CompactionTheory
  import opened Compactions
  import opened Searches
  import opened Wals
  import opened Checkpoints
  import opened EngineTheory

  /** A file named after its number, as flushes and compactions name them. */
  ghost predicate NamedByEngine(dir: Str, f: Meta) {
    if f.level == 0 then f.seqno >= 1 && f.path == FlushPath(dir, f.seqno)
    else f.level >= 1 && f.seqno >= 2 && f.path == OutputPath(dir, f.level, f.seqno - 1)
  }

  /** `log` is everything ever written and `flushed` the number of its entries that went into SSTables. */
  datatype State = State(l: Layout, maxLevel: int, disk: Files, mem: seq<Entry>, files: seq<Meta>, store: Store,
      nextFile: nat, nextLsn: U64, nextSst: U64, log: seq<WalEntry>, flushed: nat) {
    ghost function Snap(): Snapshot {
      Snapshot(files, store, disk, nextFile)
    }

    /** The SSTables show, for `k`, the last write of the flushed part of the log. */
    ghost predicate Shown(k: Str)
      requires flushed <= |log|
    {
      Visible(Version(files, store, k)) == Model(log[..flushed], k)
    }

    ghost function Keys(): iset<Str>
      requires flushed <= |log|
    {
      iset k | Shown(k)
    }

    /** The memtable is the unflushed part of the log, and every SSTable is there. */
    ghost predicate Serving() {
      && flushed <= |log| && SoundLog(log) && nextLsn == |log| + 1 && mem == Fold(log[flushed..])
      && Snap().Readable(maxLevel) && forall f :: f in files ==> EndsWith(f.path, DOT_SST)
    }

    ghost predicate Named() {
      forall f :: f in files ==> NamedByEngine(l.sstDir, f)
    }

    /** The file counters are ahead of every number in use. A restart resets them and can break this. */
    ghost predicate Ahead() {
      && Named() && nextSst >= 1 && nextFile >= 1
      && (forall f :: f in files && f.level == 0 ==> f.seqno < nextSst)
      && (forall f :: f in files && f.level >= 1 ==> f.seqno <= nextFile)
    }

    /** What every operation keeps. */
    ghost predicate Live() {
      Separate(l) && 0 < maxLevel && Serving() && Ahead() && Measured(files, disk)
    }

    /** The disk alone holds the log and a checkpoint of the catalogue that covers the flushed part of it. */
    ghost predicate Durable() {
      && GoodLog(log) && Contents(disk, l.wal) == Records(log)
      && Loaded(disk, l.checkpoint) == Ok(Checkpoint(flushed, files))
    }

    ghost predicate Consistent() {
      Live() && Durable()
    }

    /** The catalogue fits a checkpoint. */
    ghost predicate Fitting() {
      FitsCheckpoint(Checkpoint(flushed, files))
    }

    /** The memtable leaves room for one more entry in an SSTable. */
    ghost predicate Bounded() {
      TotalSize(mem) <= COMFORTABLE_SIZE - ENTRY_LIMIT
    }
  }

  // ---- what the invariant says ----

  lemma LiveCounts(s: State)
    requires s.Live()
    ensures s.nextLsn == |s.log| + 1 && s.flushed <= |s.log|
  {
    hide State.Ahead, Separate, SoundLog, Snapshot.Readable, Fold;
  }

  lemma LiveServes(s: State)
    requires s.Live()
    ensures s.Serving()
  {
  }

  lemma LiveSeparate(s: State)
    requires s.Live()
    ensures Separate(s.l)
  {
  }

  // ---- lookups ----

  /** What a lookup returns. */
  ghost function Answer(s: State, k: Str): Result<Option<seq<Byte>>> {
    var found := Visible(Lookup(s.mem, k));
    if found.Some? then Ok(found) else Found(s.disk, s.files, s.store, k)
  }

  /** When it returns the last write: the memtable is live for the key, or holds a tombstone over nothing visible, or
      holds nothing and the SSTables show the flushed log. */
  ghost predicate Right(s: State, k: Str)
    requires s.flushed <= |s.log|
  {
    match Lookup(s.mem, k)
    case None => s.Shown(k)
    case Some(e) => !e.tombstone || Visible(Version(s.files, s.store, k)).None?
  }

  /** While serving, a lookup returns the last write to its key if and only if `Right` holds. */
  lemma AnswerExactly(s: State, k: Str)
    requires s.Serving()
    ensures Answer(s, k) == Ok(EngineGet(s.mem, s.files, s.store, k))
    ensures Answer(s, k) == Ok(Model(s.log, k)) <==> Right(s, k)
  {
    hide Version, LastWrite, Lookup, WellFormed, IsTable, SoundLog, Storable, Unreadable;
    assert forall f :: f in s.files ==> s.Snap().OnDisk(f.path);
    AllThere(s.disk, s.files, s.store, k);
    FoldIsMap(s.log[s.flushed..]);
    LastWriteSplit(s.log[..s.flushed], s.log[s.flushed..], k);
    assert s.log[..s.flushed] + s.log[s.flushed..] == s.log;
  }

  /** The layered lookup that keeps tombstones apart from absent keys is the reference map wherever the SSTables show
      the flushed log. */
  lemma ServingShowsLog(s: State, k: Str)
    requires s.Serving() && s.Shown(k)
    ensures Visible(Layered(s.mem, s.files, s.store, k)) == Model(s.log, k)
  {
    hide Snapshot.Readable, Model, Fold, Layered, SoundLog;
    LayersShowLog(s.log, s.flushed, s.files, s.store, k);
  }

  lemma ServingSearchable(s: State)
    requires s.Serving()
    ensures Searchable(s.disk, s.files, s.store)
  {
    hide WellFormed, IsTable, SoundLog, Storable, Searchable, Fold;
    forall f | f in s.files && f.path in s.disk ensures f.path in s.store && IsTable(s.disk[f.path], s.store[f.path]) {
      assert s.Snap().OnDisk(f.path);
    }
    WellFormedSearchable(s.disk, s.files, s.store, s.maxLevel);
  }

  // ---- names and numbers ----

  /** Names follow numbers, so new names are new. */
  lemma AheadNames(s: State)
    requires s.Ahead()
    ensures s.Snap().Numbered(s.l.sstDir)
    ensures forall f :: f in s.files ==> f.path != FlushPath(s.l.sstDir, s.nextSst)
  {
    hide FlushPath, OutputPath;
    forall f | f in s.files ensures f.path != FlushPath(s.l.sstDir, s.nextSst) {
      if f.path == FlushPath(s.l.sstDir, s.nextSst) {
        NameTells(s.l.sstDir, f, s.nextSst);
      }
    }
    forall f, level: nat, n: nat | f in s.files && level >= 1 && n >= s.nextFile
      ensures f.path != OutputPath(s.l.sstDir, level, n)
    {
      if f.path == OutputPath(s.l.sstDir, level, n) {
        OutputNameTells(s.l.sstDir, f, level, n);
      }
    }
  }

  /** Only a level-0 file of that number has the name of a flush. */
  lemma NameTells(dir: Str, f: Meta, n: nat)
    requires NamedByEngine(dir, f) && f.path == FlushPath(dir, n)
    ensures f.level == 0 && f.seqno == n
  {
    hide FlushPath, OutputPath;
    if f.level == 0 {
      FlushPathsDiffer(dir, f.seqno, n);
    } else {
      FlushPathIsNoOutput(dir, n, f.level, f.seqno - 1);
    }
  }

  lemma OutputNameTells(dir: Str, f: Meta, level: nat, n: nat)
    requires NamedByEngine(dir, f) && f.path == OutputPath(dir, level, n) && level >= 1
    ensures f.level >= 1 && f.seqno == n + 1
  {
    hide FlushPath, OutputPath;
    if f.level == 0 {
      FlushPathIsNoOutput(dir, f.seqno, level, n);
    } else {
      OutputPathsDiffer(dir, f.level, f.seqno - 1, level, n);
    }
  }

  /** The catalogue of a live state can be compacted. */
  lemma LiveIsValid(s: State)
    requires s.Live()
    ensures s.Snap().Valid(s.l.sstDir, s.maxLevel)
  {
    hide State.Ahead, SoundLog, Fold, Separate, Snapshot.Readable, Snapshot.Numbered;
    AheadNames(s);
  }

  /** The tables are where they were. */
  lemma ReadableKept(s: Snapshot, s': Snapshot, maxLevel: int)
    requires s.Readable(maxLevel) && s'.files == s.files && s'.store == s.store
    requires forall f :: f in s.files && f.path in s.disk ==> f.path in s'.disk && s'.disk[f.path] == s.disk[f.path]
    ensures s'.Readable(maxLevel)
  {
    hide WellFormed, IsTable, Storable;
    forall f | f in s'.files ensures s'.OnDisk(f.path) {
      assert s.OnDisk(f.path);
    }
  }

  // ---- writing ----

  /** A counter is a 64-bit word. */
  function Following(n: U64): U64 {
    (n + 1) % U64_LIMIT
  }

  lemma FollowingIs(n: U64)
    requires n + 1 < U64_LIMIT
    ensures Following(n) == n + 1
  {
  }

  ghost function Appended(s: State, e: WalEntry): (s': State)
    ensures s'.mem != []
  {
    UpsertIsSomething(s.mem, AsEntry(e));
    s.(disk := Apply(s.disk, Append(s.l.wal, Record(e))), log := s.log + [e], nextLsn := Following(s.nextLsn),
        mem := Upsert(s.mem, AsEntry(e)))
  }

  lemma UpsertIsSomething(es: seq<Entry>, e: Entry)
    ensures Upsert(es, e) != []
  {
    hide Less;
  }

  /** A logged write that reached the memtable keeps the invariant and what the SSTables show. */
  lemma AppendKeeps(s: State, e: WalEntry)
    requires s.Live() && e.lsn == s.nextLsn < U64_LIMIT - 1 && SoundEntry(e)
    ensures Appended(s, e).Live() && Appended(s, e).nextLsn == s.nextLsn + 1
    ensures Appended(s, e).flushed == s.flushed && forall k :: Appended(s, e).Shown(k) <==> s.Shown(k)
  {
    hide State.Serving, State.Shown, SoundEntry, Record, Upsert, Separate, Apply, Measured;
    AppendServes(s, e);
    AppendMeasured(s, e);
    var s' := Appended(s, e);
    assert s'.Ahead();
  }

  lemma AppendServes(s: State, e: WalEntry)
    requires s.Serving() && Separate(s.l) && e.lsn == s.nextLsn < U64_LIMIT - 1 && SoundEntry(e)
    ensures Appended(s, e).Serving() && Appended(s, e).nextLsn == s.nextLsn + 1
    ensures forall k :: Appended(s, e).Shown(k) <==> s.Shown(k)
  {
    hide WellFormed, IsTable, Version, Model, SoundEntry, Storable, Record, Upsert, Snapshot.Readable, Fold, SoundLog,
        Separate, Apply, EndsWith, State.Shown, Following;
    FollowingIs(s.nextLsn);
    SoundLogMore(s.log, e);
    FoldMore(s.log, s.flushed, e);
    forall k ensures Appended(s, e).Shown(k) <==> s.Shown(k) {
      AppendShows(s, e, k);
    }
    AppendReadable(s, e);
  }

  lemma AppendShows(s: State, e: WalEntry, k: Str)
    requires s.flushed <= |s.log|
    ensures Appended(s, e).Shown(k) <==> s.Shown(k)
  {
    hide Version, Model, Record, Upsert, Apply, Following;
    assert Appended(s, e).log[..s.flushed] == s.log[..s.flushed];
  }

  lemma AppendReadable(s: State, e: WalEntry)
    requires s.Serving() && Separate(s.l)
    ensures Appended(s, e).Snap().Readable(s.maxLevel)
  {
    hide Version, Model, SoundLog, Record, Upsert, Snapshot.Readable, Fold, Following;
    var s' := Appended(s, e);
    forall f | f in s.files && f.path in s.disk ensures f.path in s'.disk && s'.disk[f.path] == s.disk[f.path] {
      assert EndsWith(f.path, DOT_SST);
    }
    ReadableKept(s.Snap(), s'.Snap(), s.maxLevel);
  }

  lemma AppendMeasured(s: State, e: WalEntry)
    requires s.Serving() && Separate(s.l) && Measured(s.files, s.disk)
    ensures Measured(s.files, Appended(s, e).disk)
  {
    hide SoundLog, Record, Upsert, Snapshot.Readable, Fold, Following;
    forall f | f in s.files ensures f.path != s.l.wal {
      assert EndsWith(f.path, DOT_SST);
    }
  }

  lemma SoundLogMore(es: seq<WalEntry>, e: WalEntry)
    requires SoundLog(es) && e.lsn == |es| + 1 < U64_LIMIT - 1 && SoundEntry(e)
    ensures SoundLog(es + [e])
  {
    hide SoundEntry;
    var es' := es + [e];
    forall i | 0 <= i < |es'| ensures SoundEntry(es'[i]) && es'[i].lsn == i + 1 {
      if i < |es| {
        assert es'[i] == es[i] && SoundEntry(es[i]);
      }
    }
  }

  lemma GoodLogMore(es: seq<WalEntry>, e: WalEntry)
    requires GoodLog(es) && e.lsn == |es| + 1 < U64_LIMIT - 1 && GoodEntry(e)
    ensures GoodLog(es + [e])
  {
    hide GoodEntry;
    var es' := es + [e];
    forall i | 0 <= i < |es'| ensures GoodEntry(es'[i]) && es'[i].lsn == i + 1 {
      if i < |es| {
        assert es'[i] == es[i] && GoodEntry(es[i]);
      }
    }
  }

  lemma FoldMore(log: seq<WalEntry>, flushed: nat, e: WalEntry)
    requires flushed <= |log|
    ensures Fold((log + [e])[flushed..]) == Upsert(Fold(log[flushed..]), AsEntry(e))
  {
    hide Upsert;
    var rest := log[flushed..] + [e];
    assert (log + [e])[flushed..] == rest && rest[..|rest| - 1] == log[flushed..];
  }

  /** A write adds at most its own size to the memtable. */
  lemma {:induction false} UpsertSize(es: seq<Entry>, e: Entry)
    ensures TotalSize(Upsert(es, e)) <= TotalSize(es) + EncodedSize(e)
  {
    hide Less, TotalSize, EncodedSize;
    SingleSize(e);
    if es != [] {
      var rest := es[1..];
      assert es == [es[0]] + rest;
      TotalSizeSplit([es[0]], rest);
      TotalSizeSplit([e], rest);
      TotalSizeSplit([e], es);
      TotalSizeSplit([es[0]], Upsert(rest, e));
      UpsertSize(rest, e);
    }
  }

  // ---- flushing ----

  ghost function FlushMeta(s: State): Meta
    requires s.mem != []
  {
    Meta(FlushPath(s.l.sstDir, s.nextSst), 0, s.mem[0].key, s.mem[|s.mem| - 1].key, |EncodeTable(s.mem)|, s.nextSst)
  }

  /** `current_sequence_number`. */
  function LastLsn(nextLsn: U64): U64 {
    (nextLsn + U64_LIMIT - 1) % U64_LIMIT
  }

  ghost function FlushCheckpoint(s: State): Checkpoint
    requires s.mem != []
  {
    Checkpoint(LastLsn(s.nextLsn), s.files + [FlushMeta(s)])
  }

  ghost function Flushed(s: State): State
    requires s.mem != []
  {
    var meta, cp := FlushMeta(s), FlushCheckpoint(s);
    s.(disk := (s.disk[meta.path := EncodeTable(s.mem)] - {s.l.temp})[s.l.checkpoint := EncodeCheckpoint(cp)],
       mem := [], files := cp.sstables, store := s.store[meta.path := s.mem],
       nextSst := Following(s.nextSst), flushed := |s.log|)
  }

  ghost function FlushRun(s: State): seq<DiskOp>
    requires s.mem != []
  {
    FlushOps(s.l, FlushMeta(s).path, s.mem, FlushCheckpoint(s))
  }

  /** A flush keeps the invariant. Afterwards the SSTables show the log for exactly the keys they showed before and
      those the memtable held. */
  lemma FlushKeeps(s: State)
    requires s.Live() && s.mem != [] && Fits(s.mem) && s.nextSst + 1 < U64_LIMIT
    ensures Flushed(s).Live()
    ensures Flushed(s).flushed == |s.log| && forall k :: Flushed(s).Shown(k) <==> s.Shown(k) || Lookup(s.mem, k).Some?
  {
    hide WellFormed, IsTable, Version, Model, SoundLog, Storable, Fold, Fits, EncodeTable, EncodeCheckpoint, Separate,
        Lookup, State.Ahead, Snapshot.Readable, Measured;
    var s' := Flushed(s);
    AheadNames(s);
    AheadNumbers(s);
    FlushReadable(s);
    FlushMeasured(s);
    FlushAhead(s);
    SSTableNames(s.l.sstDir);
    assert s.log[|s.log|..] == [];
    NothingFolds();
    forall k ensures s'.Shown(k) <==> s.Shown(k) || Lookup(s.mem, k).Some? {
      FlushShows(s, k);
    }
  }

  lemma FlushAhead(s: State)
    requires s.Ahead() && s.mem != [] && s.nextSst + 1 < U64_LIMIT
    ensures Flushed(s).Ahead()
  {
    hide FlushPath, OutputPath, EncodeTable, EncodeCheckpoint;
  }

  lemma FlushMeasured(s: State)
    requires s.Serving() && Separate(s.l) && s.mem != [] && Measured(s.files, s.disk)
    requires forall f :: f in s.files ==> f.path != FlushMeta(s).path
    ensures Measured(Flushed(s).files, Flushed(s).disk)
  {
    hide SoundLog, Fold, EncodeTable, EncodeCheckpoint, FlushPath, Snapshot.Readable;
    SSTableNames(s.l.sstDir);
    forall f | f in s.files ensures f.path != s.l.temp && f.path != s.l.checkpoint {
      assert EndsWith(f.path, DOT_SST);
    }
  }

  lemma FlushReadable(s: State)
    requires s.Serving() && Separate(s.l) && 0 < s.maxLevel && s.mem != [] && Fits(s.mem)
    requires forall f :: f in s.files ==> f.path != FlushMeta(s).path && (f.level == 0 ==> f.seqno < s.nextSst)
    ensures Flushed(s).Snap().Readable(s.maxLevel)
  {
    hide WellFormed, Model, Version, SoundLog, Storable, Fold, Fits, EncodeTable, EncodeCheckpoint, FlushPath,
        Describes;
    var s', meta := Flushed(s), FlushMeta(s);
    MemIsTable(s);
    FlushWellFormed(s.files, s.store, s.maxLevel, meta, s.mem);
    SSTableNames(s.l.sstDir);
    forall f | f in s'.files ensures s'.Snap().OnDisk(f.path) {
      if f != meta {
        assert f in s.files && s.Snap().OnDisk(f.path) && EndsWith(f.path, DOT_SST);
      }
    }
  }

  /** The memtable makes a table. */
  lemma MemIsTable(s: State)
    requires s.Serving() && s.mem != []
    ensures Sorted(s.mem) && Storable(s.mem) && Describes(FlushMeta(s), s.mem)
  {
    hide WellFormed, Model, Version, IsTable, Fold, EncodeTable, SoundEntry, Storable, Snapshot.Readable;
    FoldIsMap(s.log[s.flushed..]);
    FoldStorable(s.log[s.flushed..]);
  }

  lemma FlushShows(s: State, k: Str)
    requires s.Serving() && s.mem != []
    requires forall f :: f in s.files ==> f.path != FlushMeta(s).path && (f.level == 0 ==> f.seqno < s.nextSst)
    ensures Flushed(s).flushed == |Flushed(s).log| && (Flushed(s).Shown(k) <==> s.Shown(k) || Lookup(s.mem, k).Some?)
  {
    hide WellFormed, IsTable, Version, SoundLog, Storable, Fold, EncodeTable, EncodeCheckpoint, FlushPath, Lookup;
    FlushVersion(s.files, s.store, s.maxLevel, FlushMeta(s), s.mem, k);
    FoldIsMap(s.log[s.flushed..]);
    LastWriteSplit(s.log[..s.flushed], s.log[s.flushed..], k);
    assert s.log[..s.flushed] + s.log[s.flushed..] == s.log && s.log[..|s.log|] == s.log;
  }

  lemma NothingFolds()
    ensures Fold([]) == []
  {
  }

  // ---- durability and crashes ----

  /** The log file holds the whole log. */
  ghost predicate Logged(s: State) {
    GoodLog(s.log) && Contents(s.disk, s.l.wal) == Records(s.log)
  }

  /** The checkpoint on disk names the catalogue and the first `c` log entries. With `c` past the flushed ones, as a
      compaction leaves it, the entries in between are in no SSTable and will not be replayed. */
  ghost predicate Marked(s: State, c: nat) {
    && s.flushed <= c <= |s.log| && Logged(s)
    && Loaded(s.disk, s.l.checkpoint) == Ok(Checkpoint(c, s.files))
  }

  /** A durable state is one its disk recovers to. */
  lemma DurableRecovers(s: State)
    requires s.Serving() && s.Durable()
    ensures Recovers(s.disk, s.l, s.maxLevel, s.Keys(), s.log, Checkpoint(s.flushed, s.files), s.store)
  {
    hide WellFormed, IsTable, Version, Model, GoodLog, Storable, Loaded, LogHolds, Fold, Records, SoundLog;
    WholeLogHolds(s.log);
    forall f | f in s.files ensures f.path in s.store && f.path in s.disk
        && IsTable(s.disk[f.path], s.store[f.path]) && Storable(s.store[f.path]) {
      assert s.Snap().OnDisk(f.path);
    }
  }

  /** Whatever is left of `ops` by a crash recovers, for every key shown before, the log from before or the log from
      after. */
  ghost predicate CrashSafe(before: State, ops: seq<DiskOp>, log: seq<WalEntry>)
    requires before.flushed <= |before.log|
  {
    forall d' :: CrashState(before.disk, ops, d') ==>
      || Recoverable(d', before.l, before.maxLevel, before.Keys(), before.log)
      || Recoverable(d', before.l, before.maxLevel, before.Keys(), log)
  }

  lemma NothingDone(s: State)
    requires s.Consistent()
    ensures ApplyAll(s.disk, []) == s.disk && CrashSafe(s, [], s.log)
  {
    hide Recovers, State.Ahead, Separate, Records, Fold;
    DurableRecovers(s);
  }

  /** A crash in one of two steps that are both safe. */
  lemma TwoSteps(s: State, a: seq<DiskOp>, s': State, b: seq<DiskOp>)
    requires s.flushed <= |s.log| && s'.flushed <= |s'.log| && s'.Keys() == s.Keys()
    requires CrashSafe(s, a, s'.log) && CrashSafe(s', b, s'.log)
    requires s'.disk == ApplyAll(s.disk, a) && s'.l == s.l && s'.maxLevel == s.maxLevel
    ensures CrashSafe(s, a + b, s'.log) && ApplyAll(s.disk, a + b) == ApplyAll(s'.disk, b)
  {
    hide Recoverable, CrashState, ApplyAll, State.Keys;
    CrashSplit(s.disk, a, b, s.disk);
    forall d' | CrashState(s.disk, a + b, d')
      ensures Recoverable(d', s.l, s.maxLevel, s.Keys(), s.log) || Recoverable(d', s.l, s.maxLevel, s.Keys(), s'.log)
    {
      CrashSplit(s.disk, a, b, d');
    }
  }

  /** A write of an entry the log reads back keeps durability, and a crash during it recovers the log without the
      entry or with it. */
  lemma AppendIsDurable(s: State, e: WalEntry)
    requires s.Consistent() && e.lsn == s.nextLsn < U64_LIMIT - 1 && GoodEntry(e)
    ensures Appended(s, e).Durable() && CrashSafe(s, [Append(s.l.wal, Record(e))], s.log + [e])
    ensures Appended(s, e).disk == ApplyAll(s.disk, [Append(s.l.wal, Record(e))])
  {
    hide WellFormed, IsTable, Version, Model, LogHolds, Loaded, GoodEntry, Storable, Separate, State.Ahead, State.Keys,
        Record, Records, Upsert, Recovers, Torn, Apply, Fold, SoundLog, Snapshot.Readable;
    GoodLogMore(s.log, e);
    DurableRecovers(s);
    var cp := Checkpoint(s.flushed, s.files);
    AppendDone(s.disk, s.l, s.maxLevel, s.Keys(), s.log, e, cp, s.store);
    RecoversLoads(Appended(s, e).disk, s.l, s.maxLevel, s.Keys(), s.log + [e], cp, s.store);
    FirstOp(s.disk, Append(s.l.wal, Record(e)));
    forall d' | Torn(s.disk, Append(s.l.wal, Record(e)), d')
      ensures Recoverable(d', s.l, s.maxLevel, s.Keys(), s.log)
          || Recoverable(d', s.l, s.maxLevel, s.Keys(), s.log + [e])
    {
      AppendCrash(s.disk, s.l, s.maxLevel, s.Keys(), s.log, e, cp, s.store, d');
    }
  }

  lemma RecoversLoads(d: Files, l: Layout, maxLevel: int, keys: iset<Str>, es: seq<WalEntry>, cp: Checkpoint,
      store: Store)
    requires Recovers(d, l, maxLevel, keys, es, cp, store)
    ensures Loaded(d, l.checkpoint) == Ok(cp)
  {
  }

  /** What loads was in range, so a durable catalogue fits its checkpoint. */
  lemma DurableFits(s: State)
    requires s.Durable()
    ensures s.Fitting()
  {
    hide GoodLog, Records, Loaded, FitsCheckpoint;
    LoadedFits(s.disk, s.l.checkpoint);
  }

  /** A flush leaves the log file alone. */
  lemma FlushLeavesLog(s: State)
    requires Separate(s.l) && s.mem != []
    ensures Contents(Flushed(s).disk, s.l.wal) == Contents(s.disk, s.l.wal)
  {
    hide EncodeTable, EncodeCheckpoint, FlushPath;
    SSTableNames(s.l.sstDir);
  }

  /** A flush makes the state durable whenever the log is whole, whatever the checkpoint was before: a flush after a
      compaction restores what the compaction's checkpoint broke. */
  lemma FlushIsDurable(s: State)
    requires s.Live() && s.mem != [] && Flushed(s).Fitting() && GoodLog(s.log)
        && Contents(s.disk, s.l.wal) == Records(s.log)
    ensures Flushed(s).Durable() && Flushed(s).disk == ApplyAll(s.disk, FlushRun(s))
  {
    hide WellFormed, IsTable, Version, Model, GoodLog, Storable, Fold, EncodeTable, EncodeCheckpoint, DecodeCheckpoint,
        FlushPath, Records, SoundLog, State.Ahead, Snapshot.Readable, FitsMeta;
    var meta, cp := FlushMeta(s), FlushCheckpoint(s);
    var write := Write(meta.path, EncodeTable(s.mem));
    SSTableNames(s.l.sstDir);
    CheckpointRoundTrip(cp);
    FirstOp(s.disk, write);
    CrashSplit(s.disk, [write], SaveOps(s.l.checkpoint, s.l.temp, cp), s.disk);
    SaveFinishes(Apply(s.disk, write), s.l.checkpoint, s.l.temp, cp);
  }

  /** A crash anywhere in a flush of a durable state recovers the whole log. */
  lemma FlushIsCrashSafe(s: State)
    requires s.Consistent() && s.mem != [] && Fits(s.mem) && s.nextSst + 1 < U64_LIMIT && Flushed(s).Fitting()
    ensures CrashSafe(s, FlushRun(s), s.log)
  {
    hide Fits, EncodeTable, EncodeCheckpoint, FlushPath, Fold, Recovers, Flushes, CrashState, State.Ahead, FitsMeta,
        Records, Recoverable, State.Keys, Separate, GoodLog, SoundLog, Loaded, Snapshot.Readable;
    FlushReady(s);
    DurableRecovers(s);
    forall d' | CrashState(s.disk, FlushRun(s), d') ensures Recoverable(d', s.l, s.maxLevel, s.Keys(), s.log) {
      FlushCrash(s.disk, s.l, s.maxLevel, s.Keys(), s.log, Checkpoint(s.flushed, s.files), s.store, FlushMeta(s),
          FlushCheckpoint(s), d');
    }
  }

  lemma FlushReady(s: State)
    requires s.Live() && s.mem != [] && Fits(s.mem) && Flushed(s).Fitting()
    ensures Flushes(s.l, s.maxLevel, s.log, Checkpoint(s.flushed, s.files), s.store, FlushMeta(s), FlushCheckpoint(s))
  {
    hide WellFormed, IsTable, Version, Model, Separate, Fits, EncodeTable, FlushPath, Fold, SoundLog, Snapshot.Readable,
        FitsMeta, EncodeCheckpoint, State.Ahead, Describes;
    SSTableNames(s.l.sstDir);
    MemIsTable(s);
    AheadNames(s);
    AheadNumbers(s);
  }

  lemma AheadNumbers(s: State)
    requires s.Ahead()
    ensures forall f :: f in s.files && f.level == 0 ==> f.seqno < s.nextSst
  {
  }

  // ---- compacting ----

  /** The checkpoint after a compaction: the new catalogue, and the last log entry, flushed or not. */
  ghost function RoundCheckpoint(s: State, files: seq<Meta>): Checkpoint {
    Checkpoint(LastLsn(s.nextLsn), files)
  }

  ghost function RoundOps(s: State, job: Job, files: seq<Meta>, after: Store): seq<DiskOp> {
    CompactOps(job, after) + SaveOps(s.l.checkpoint, s.l.temp, RoundCheckpoint(s, files))
  }

  /** A round of the compaction loop that ran `job`. */
  ghost predicate Compacts(s: State, job: Job, ops: seq<DiskOp>, s': State) {
    && s' == s.(files := s'.files, store := s'.store, disk := s'.disk, nextFile := s'.nextFile)
    && job.level >= 0 && Triggered(s.files, s.maxLevel, job.level) && BySmallest(job.source)
    && JobOk(s.files, s.store, s.maxLevel, job, s'.store) && OutputsNewer(s.files, job)
    && DistinctPaths(s.files + job.outs) && s'.files == RemovedAll(s.files + job.outs, Inputs(job))
    && NamedOutputs(s.l.sstDir, job.level + 1, s.nextFile, job.outs) && s'.nextFile >= s.nextFile
    && Midway(s, job, s').Valid(s.l.sstDir, s.maxLevel)
    && ops == RoundOps(s, job, s'.files, s'.store) && s'.disk == ApplyAll(s.disk, ops)
  }

  lemma CompactLeaves(s: State, job: Job, ops: seq<DiskOp>, s': State)
    requires Compacts(s, job, ops, s')
    ensures s' == s.(files := s'.files, store := s'.store, disk := s'.disk, nextFile := s'.nextFile)
  {
  }

  /** Before its checkpoint is written. */
  ghost function Midway(s: State, job: Job, s': State): Snapshot {
    Snapshot(s'.files, s'.store, ApplyAll(s.disk, CompactOps(job, s'.store)), s'.nextFile)
  }

  lemma RoundDisk(s: State, job: Job, ops: seq<DiskOp>, s': State)
    requires Compacts(s, job, ops, s') && s.l.checkpoint != s.l.temp
    ensures var saved := EncodeCheckpoint(RoundCheckpoint(s, s'.files));
      s'.disk == (Midway(s, job, s').disk - {s.l.temp})[s.l.checkpoint := saved]
  {
    hide JobOk, OutputsNewer, RemovedAll, NamedOutputs, CompactOps, EncodeCheckpoint, Snapshot.Valid, Triggered,
        DistinctPaths, BySmallest;
    var mid, cp := Midway(s, job, s').disk, RoundCheckpoint(s, s'.files);
    CrashSplit(s.disk, CompactOps(job, s'.store), SaveOps(s.l.checkpoint, s.l.temp, cp), s.disk);
    SaveEnds(mid, s.l.checkpoint, s.l.temp, cp);
  }

  lemma SaveEnds(d: Files, path: Str, temp: Str, cp: Checkpoint)
    requires path != temp
    ensures ApplyAll(d, SaveOps(path, temp, cp)) == (d - {temp})[path := EncodeCheckpoint(cp)]
  {
    hide EncodeCheckpoint;
    var write := Write(temp, EncodeCheckpoint(cp));
    FirstOp(d, write);
    OneMoreOp(d, [write], Rename(temp, path));
    assert [write] + [Rename(temp, path)] == SaveOps(path, temp, cp);
    assert d[temp := EncodeCheckpoint(cp)] - {temp} == d - {temp};
  }

  /** A round keeps the invariant. A key the SSTables showed is shown afterwards if and only if the compaction keeps its
      answer. */
  lemma CompactKeeps(s: State, job: Job, ops: seq<DiskOp>, s': State)
    requires s.Live() && Compacts(s, job, ops, s')
    ensures s'.Live() && s'.flushed == s.flushed && s'.log == s.log
    ensures forall k :: s.Shown(k) ==> (s'.Shown(k) <==> KeepsAnswer(s.files, s.store, job, k))
  {
    hide WellFormed, IsTable, Version, Model, SoundLog, Storable, Fold, Separate, JobOk, OutputsNewer, RemovedAll,
        NamedOutputs, EncodeCheckpoint, Snapshot.Valid, Triggered, BySmallest, KeepsAnswer, Snapshot.Readable,
        State.Ahead, CompactOps, DistinctPaths, RoundOps, Measured;
    CompactAhead(s, job, ops, s');
    CompactReadable(s, job, ops, s');
    CompactMeasured(s, job, ops, s');
    LastStep(s.files, s.store, s.maxLevel, job, s'.store);
    forall k | s.Shown(k) ensures s'.Shown(k) <==> KeepsAnswer(s.files, s.store, job, k) {
      AnswerExact(s.files, s.store, s.maxLevel, job, s'.store, s'.files, k);
    }
  }

  lemma CompactMeasured(s: State, job: Job, ops: seq<DiskOp>, s': State)
    requires Separate(s.l) && Compacts(s, job, ops, s')
    requires forall f :: f in s'.files ==> EndsWith(f.path, DOT_SST)
    ensures Measured(s'.files, s'.disk)
  {
    hide JobOk, OutputsNewer, RemovedAll, NamedOutputs, EncodeCheckpoint, Triggered, BySmallest, CompactOps,
        DistinctPaths, RoundOps, Snapshot.Readable, Snapshot.Numbered;
    RoundDisk(s, job, ops, s');
    forall f | f in s'.files ensures f.path != s.l.temp && f.path != s.l.checkpoint {
      assert EndsWith(f.path, DOT_SST);
    }
  }

  lemma CompactAhead(s: State, job: Job, ops: seq<DiskOp>, s': State)
    requires s.Ahead() && Compacts(s, job, ops, s')
    requires forall f :: f in s.files ==> EndsWith(f.path, DOT_SST)
    ensures s'.Ahead() && forall f :: f in s'.files ==> EndsWith(f.path, DOT_SST)
  {
    hide JobOk, OutputsNewer, RemovedAll, EncodeCheckpoint, Triggered, BySmallest, CompactOps, OutputPath, FlushPath,
        Snapshot.Readable, DistinctPaths, Inputs, RoundOps;
    RemovedMembers(s.files + job.outs, Inputs(job));
    SSTableNames(s.l.sstDir);
    forall f | f in s'.files
      ensures NamedByEngine(s.l.sstDir, f) && EndsWith(f.path, DOT_SST) && (f.level == 0 ==> f.seqno < s.nextSst)
    {
      if f in job.outs {
        assert f.level == job.level + 1 && f.seqno > s.nextFile;
      } else {
        assert f in s.files;
      }
    }
  }

  lemma CompactReadable(s: State, job: Job, ops: seq<DiskOp>, s': State)
    requires s.Serving() && Separate(s.l) && Compacts(s, job, ops, s')
    requires forall f :: f in s'.files ==> EndsWith(f.path, DOT_SST)
    ensures s'.Snap().Readable(s.maxLevel)
  {
    hide WellFormed, IsTable, JobOk, OutputsNewer, RemovedAll, EncodeCheckpoint, Triggered, BySmallest, CompactOps,
        Storable, SoundLog, Fold, NamedOutputs, Snapshot.Numbered, DistinctPaths, RoundOps, ApplyAll;
    RoundDisk(s, job, ops, s');
    ReadableKept(Midway(s, job, s'), s'.Snap(), s.maxLevel);
  }

  /** A run touches no file but its inputs and outputs: not the log, not the checkpoint. */
  lemma RunLeaves(s: State, job: Job, ops: seq<DiskOp>, s': State, n: nat, p: Str)
    requires Compacts(s, job, ops, s') && n <= |Inputs(job)| && !EndsWith(p, DOT_SST)
    requires forall f :: f in s.files ==> EndsWith(f.path, DOT_SST)
    ensures Contents(Removing(s, job, s', n), p) == Contents(s.disk, p)
        && (p in Removing(s, job, s', n) <==> p in s.disk)
  {
    hide JobOk, OutputsNewer, RemovedAll, EncodeCheckpoint, Triggered, BySmallest, WriteOps, RemoveOps, ApplyAll,
        OutputPath, Snapshot.Valid, DistinctPaths, RoundOps, Inputs;
    SSTableNames(s.l.sstDir);
    WritesLeave(job.outs, s'.store, s.disk);
    RemovalsLeave(Inputs(job)[..n], Written(s, job, s'));
    InputsInCatalogue(s, job, ops, s');
  }

  lemma InputsInCatalogue(s: State, job: Job, ops: seq<DiskOp>, s': State)
    requires Compacts(s, job, ops, s')
    ensures forall m :: m in Inputs(job) ==> m in s.files
  {
    hide OutputsNewer, RemovedAll, EncodeCheckpoint, Triggered, BySmallest, CompactOps, Snapshot.Valid, DistinctPaths,
        RoundOps, NamedOutputs, WellFormed, Selection, Renumbered, TablesOf, Produced;
    InputsListed(s.files, job);
  }

  /** The disk once all outputs are written. */
  ghost function Written(s: State, job: Job, s': State): Files {
    ApplyAll(s.disk, WriteOps(job.outs, s'.store))
  }

  /** And once `n` inputs are removed. */
  ghost function Removing(s: State, job: Job, s': State, n: nat): Files
    requires n <= |Inputs(job)|
  {
    ApplyAll(Written(s, job, s'), RemoveOps(Inputs(job)[..n]))
  }

  lemma AllRemoved(s: State, job: Job, s': State)
    ensures Midway(s, job, s').disk == Removing(s, job, s', |Inputs(job)|)
  {
    hide WriteOps, RemoveOps, ApplyAll;
    assert Inputs(job)[..|Inputs(job)|] == Inputs(job);
    CrashSplit(s.disk, WriteOps(job.outs, s'.store), RemoveOps(Inputs(job)), s.disk);
  }

  /** So does a round. */
  lemma CompactLeavesLog(s: State, job: Job, ops: seq<DiskOp>, s': State)
    requires s.Live() && Compacts(s, job, ops, s')
    ensures Contents(s'.disk, s.l.wal) == Contents(s.disk, s.l.wal)
  {
    hide SoundLog, Fold, JobOk, OutputsNewer, RemovedAll, EncodeCheckpoint, NamedOutputs, Snapshot.Valid, Triggered,
        BySmallest, Snapshot.Readable, State.Ahead, CompactOps, DistinctPaths, RoundOps, Inputs;
    RoundDisk(s, job, ops, s');
    AllRemoved(s, job, s');
    RunLeaves(s, job, ops, s', |Inputs(job)|, s.l.wal);
  }

  /** The checkpoint of a round covers the whole log. With unflushed entries it is not the one recovery needs: the state
      is durable afterwards if and only if the memtable was empty. */
  lemma CompactIsDurableExactly(s: State, job: Job, ops: seq<DiskOp>, s': State)
    requires s.Live() && Compacts(s, job, ops, s') && FitsCheckpoint(RoundCheckpoint(s, s'.files))
    requires GoodLog(s.log) && Contents(s.disk, s.l.wal) == Records(s.log)
    ensures Contents(s'.disk, s.l.wal) == Records(s.log)
    ensures Loaded(s'.disk, s.l.checkpoint) == Ok(Checkpoint(|s.log|, s'.files))
    ensures s'.Durable() <==> s.mem == []
  {
    hide WellFormed, IsTable, SoundLog, Storable, Fold, JobOk, OutputsNewer, RemovedAll, EncodeCheckpoint, FitsMeta,
        DecodeCheckpoint, NamedOutputs, Snapshot.Valid, Triggered, BySmallest, Snapshot.Readable, State.Ahead,
        CompactOps, DistinctPaths, RoundOps, GoodLog, Records, Inputs;
    RoundDisk(s, job, ops, s');
    CompactLeavesLog(s, job, ops, s');
    CheckpointRoundTrip(RoundCheckpoint(s, s'.files));
    MemIsEmptyExactly(s);
  }

  lemma MemIsEmptyExactly(s: State)
    requires s.flushed <= |s.log| && s.mem == Fold(s.log[s.flushed..])
    ensures s.mem == [] <==> s.flushed == |s.log|
  {
    hide Upsert;
    var rest := s.log[s.flushed..];
    if rest == [] {
      NothingFolds();
    } else {
      UpsertIsSomething(Fold(rest[..|rest| - 1]), AsEntry(rest[|rest| - 1]));
    }
  }

  // ---- steps ----

  /** A write: logged, applied, and followed by a flush if the memtable is full. */
  ghost predicate Writes(s: State, e: WalEntry, ops: seq<DiskOp>, s': State) {
    var s1, append := Appended(s, e), [Append(s.l.wal, Record(e))];
    (s' == s1 && ops == append) || (s' == Flushed(s1) && ops == append + FlushRun(s1))
  }

  /** No level asks for a compaction. */
  ghost predicate Idle(s: State) {
    forall level :: 0 <= level ==> !Triggered(s.files, s.maxLevel, level)
  }

  // ---- opening ----

  function FoldOnto(mem: seq<Entry>, es: seq<WalEntry>): seq<Entry> {
    if es == [] then mem else Upsert(FoldOnto(mem, es[..|es| - 1]), AsEntry(es[|es| - 1]))
  }

  /** The entries recovery applies: those numbered after the checkpoint. */
  function Replay(es: seq<WalEntry>, lsn: nat): seq<WalEntry> {
    if es == [] then []
    else Replay(es[..|es| - 1], lsn) + if es[|es| - 1].lsn > lsn then [es[|es| - 1]] else []
  }

  ghost predicate Known(es: seq<WalEntry>) {
    forall i :: 0 <= i < |es| ==> es[i].kind == PUT || es[i].kind == DELETE
  }

  ghost predicate LevelsInRange(metas: seq<Meta>, maxLevel: int) {
    forall i :: 0 <= i < |metas| ==> 0 <= metas[i].level < maxLevel
  }

  /** What opening a disk returns: an error from the checkpoint, from its levels or from the log, or the state it
      recovers, with the file counters back at 1. Nothing is said here about whether the SSTables agree with the log. */
  ghost function Reopened(d: Files, l: Layout, maxLevel: int, store: Store): Result<State> {
    var loaded := Loaded(d, l.checkpoint);
    if loaded.Err? then Err(loaded.error)
    else if !LevelsInRange(loaded.value.sstables, maxLevel) then Err(InvalidArgument)
    else
      var cp, log := loaded.value, Contents(d, l.wal);
      var todo := Replay(Entries(log), cp.lsn);
      if !Known(todo) then Err(Corruption)
      else Ok(State(l, maxLevel, d[l.wal := log], FoldOnto([], todo), cp.sstables, store, 1,
                    NextLsn(Scan(log, 0, U32_LIMIT)), 1, Entries(log), cp.lsn))
  }

  /** Opening fails exactly if the checkpoint does not decode, a level in it is out of range, or the log holds, past the
      checkpoint's number, an entry that is neither a put nor a delete. */
  lemma OpensExactly(d: Files, l: Layout, maxLevel: int, store: Store)
    ensures Reopened(d, l, maxLevel, store).Ok? <==>
      && (l.checkpoint in d ==> DecodeCheckpoint(d[l.checkpoint]).Ok?)
      && var cp := if l.checkpoint in d then DecodeCheckpoint(d[l.checkpoint]).value else Checkpoint(0, []);
         (forall f :: f in cp.sstables ==> 0 <= f.level < maxLevel) &&
         (forall e :: e in Entries(Contents(d, l.wal)) && e.lsn > cp.lsn ==> e.kind == 1 || e.kind == 2)
  {
    hide DecodeCheckpoint, Scan, FoldOnto, NextLsn, Replay, Entries;
    var loaded := Loaded(d, l.checkpoint);
    if loaded.Ok? {
      ReplayMembers(Entries(Contents(d, l.wal)), loaded.value.lsn);
      var ms := loaded.value.sstables;
      assert forall i :: 0 <= i < |ms| ==> ms[i] in ms;
      var todo := Replay(Entries(Contents(d, l.wal)), loaded.value.lsn);
      assert forall i :: 0 <= i < |todo| ==> todo[i] in todo;
    }
  }

  lemma {:induction false} ReplayMembers(es: seq<WalEntry>, lsn: nat)
    ensures forall e :: e in Replay(es, lsn) <==> e in es && e.lsn > lsn
  {
    if es != [] {
      var n := |es| - 1;
      ReplayMembers(es[..n], lsn);
      assert es == es[..n] + [es[n]];
    }
  }

  lemma {:induction false} FoldsFromNothing(es: seq<WalEntry>)
    ensures FoldOnto([], es) == Fold(es)
  {
    hide Upsert;
    if es != [] {
      FoldsFromNothing(es[..|es| - 1]);
    }
  }

  /** In a consecutive log those are the entries past the checkpoint's number. */
  lemma {:induction false} ReplayIsRest(es: seq<WalEntry>, lsn: nat)
    requires forall i :: 0 <= i < |es| ==> es[i].lsn == i + 1
    ensures Replay(es, lsn) == if lsn <= |es| then es[lsn..] else []
  {
    hide Replay;
    ReplayUnfolds(es, lsn);
    if es != [] {
      ReplayIsRest(es[..|es| - 1], lsn);
      RestGrows(es, lsn);
    }
  }

  lemma ReplayUnfolds(es: seq<WalEntry>, lsn: nat)
    ensures es == [] ==> Replay(es, lsn) == []
    ensures es != [] ==>
      Replay(es, lsn) == Replay(es[..|es| - 1], lsn) + if es[|es| - 1].lsn > lsn then [es[|es| - 1]] else []
  {
  }

  lemma RestGrows(es: seq<WalEntry>, lsn: nat)
    requires es != []
    ensures lsn < |es| ==> es[lsn..] == es[..|es| - 1][lsn..] + [es[|es| - 1]]
    ensures lsn == |es| ==> es[lsn..] == []
  {
  }

  /** What opening finds behind a good log: the unflushed entries, whatever the checkpoint is. */
  lemma ReopenedLog(d: Files, l: Layout, maxLevel: int, store: Store, es: seq<WalEntry>, cp: Checkpoint)
    requires LogHolds(Contents(d, l.wal), es) && GoodLog(es) && Loaded(d, l.checkpoint) == Ok(cp) && cp.lsn <= |es|
    requires LevelsInRange(cp.sstables, maxLevel)
    ensures |es| + 1 < U64_LIMIT
    ensures Reopened(d, l, maxLevel, store) == Ok(State(l, maxLevel, d[l.wal := Contents(d, l.wal)], Fold(es[cp.lsn..]),
        cp.sstables, store, 1, |es| + 1, 1, es, cp.lsn))
  {
    hide LogHolds, Scan, Fold, FoldOnto, Replay, Loaded, Payload, Recordable;
    LogReads(Contents(d, l.wal), es);
    ReplayIsRest(es, cp.lsn);
    FoldsFromNothing(es[cp.lsn..]);
    assert forall i :: 0 <= i < |es| ==> GoodEntry(es[i]);
  }

  /** A disk that recovers opens to a serving state that shows its log. */
  lemma ReopenedServes(d: Files, l: Layout, maxLevel: int, keys: iset<Str>, es: seq<WalEntry>, cp: Checkpoint,
      store: Store)
    requires Separate(l) && Recovers(d, l, maxLevel, keys, es, cp, store)
    ensures cp.lsn <= |es| && |es| + 1 < U64_LIMIT
    ensures var r := Reopened(d, l, maxLevel, store);
      && r == Ok(State(l, maxLevel, d[l.wal := Contents(d, l.wal)], Fold(es[cp.lsn..]), cp.sstables, store, 1,
                       |es| + 1, 1, es, cp.lsn))
      && r.value.Serving() && forall k :: k in keys ==> r.value.Shown(k)
  {
    hide Version, Model, IsTable, Loaded, LogHolds, Storable, WellFormed, Fold, GoodLog, SoundLog, Reopened, Separate;
    WellFormedLevels(cp.sstables, store, maxLevel);
    ReopenedLog(d, l, maxLevel, store, es, cp);
    GoodIsSound(es);
    WalOnly(d, d[l.wal := Contents(d, l.wal)], l, maxLevel, keys, es, cp, store);
  }

  lemma WellFormedLevels(files: seq<Meta>, store: Store, maxLevel: int)
    requires WellFormed(files, store, maxLevel)
    ensures LevelsInRange(files, maxLevel)
  {
    hide Describes, Compatible;
    forall i | 0 <= i < |files| ensures 0 <= files[i].level < maxLevel {
      assert Placed(files[i], store, maxLevel);
    }
  }
}
