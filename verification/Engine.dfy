/** The storage engine (src/storage/engine/storage_engine.cpp) and the recovery it starts with
    (src/storage/recovery/recovery_manager.cpp). */
module Engines {
  import opened Common
  import opened Bytes
  import opened Serializer
  import opened Tables
  import opened Blocks
  import opened SSTableFormat
  import opened SSTables
  import opened Disks
  import opened SkipLists
  import opened Memtables
  import opened Paths
  import opened Catalogue
  import opened CompactionTheory
  import opened Compactions
  import opened Searches
  import opened Wals
  import opened Checkpoints
  import opened EngineTheory
  import opened EngineStates

  /** Every file that opens has a filter that can be probed: `Open` does not check this of a corrupt file. */
  ghost predicate UsableFilters(d: Files, files: seq<Meta>) {
    forall f :: f in files && f.path in d && DecodeFile(d[f.path]).Ok? ==>
      0 < DecodeFile(d[f.path]).value.numBits <= 8 * |DecodeFile(d[f.path]).value.bits|
  }

  /** Written tables have usable filters. */
  lemma TablesHaveFilters(d: Files, files: seq<Meta>, store: Store)
    requires TablesThere(d, files, store)
    ensures UsableFilters(d, files)
  {
    hide DecodeFile, EncodeTable, BloomBits, IndexOf, Pack, Fits;
    forall f | f in files && f.path in d
      ensures DecodeFile(d[f.path]).Ok?
          && 0 < DecodeFile(d[f.path]).value.numBits <= 8 * |DecodeFile(d[f.path]).value.bits|
    {
      OpensTable(store[f.path]);
    }
  }

  // ---- recovery ----

  /** Replays the log onto a memtable, skipping what the checkpoint covers. */
  method RecoverMemTable(disk: Disk, path: Str, mem: MemTable, lsn: nat) returns (r: Result<nat>)
    requires mem.Valid()
    modifies disk, mem.table, mem.table.head, mem.table.nodes
    ensures mem.Valid() && fresh(mem.Repr() - old(mem.Repr()))
    ensures disk.files == old(disk.files)
    ensures disk.trace == old(disk.trace) + if path in old(disk.files) then [Append(path, [])] else []
    ensures var todo := Replay(Entries(old(Contents(disk.files, path))), lsn);
      && r == (if Known(todo) then Ok(|todo|) else Err(Corruption))
      && (Known(todo) ==> mem.Entries() == FoldOnto(old(mem.Entries()), todo))
  {
    hide Scan, FoldOnto, Replay, SkipList.Valid, EntriesOf, Known;
    if path !in disk.files {
      NothingToReplay(lsn);
      return Ok(0);
    }
    var wal := Wal.Open(disk, path);
    assert disk.files == old(disk.files);
    var entries := wal.ReadAll();
    r := ReplayInto(mem, entries, lsn);
  }

  /** The replay loop. */
  method ReplayInto(mem: MemTable, entries: seq<WalEntry>, lsn: nat) returns (r: Result<nat>)
    requires mem.Valid()
    modifies mem.table, mem.table.head, mem.table.nodes
    ensures mem.Valid() && fresh(mem.Repr() - old(mem.Repr()))
    ensures var todo := Replay(entries, lsn);
      && r == (if Known(todo) then Ok(|todo|) else Err(Corruption))
      && (Known(todo) ==> mem.Entries() == FoldOnto(old(mem.Entries()), todo))
  {
    hide FoldOnto, Replay, Upsert, SkipList.Valid, EntriesOf, Known;
    NothingToReplay(lsn);
    var applied := 0;
    var i := 0;
    while i < |entries|
      invariant 0 <= i <= |entries| && mem.Valid() && fresh(mem.Repr() - old(mem.Repr()))
      invariant Known(Replay(entries[..i], lsn)) && applied == |Replay(entries[..i], lsn)|
      invariant mem.Entries() == FoldOnto(old(mem.Entries()), Replay(entries[..i], lsn))
    {
      var e := entries[i];
      assert forall n :: 0 <= n < |mem.table.nodes| ==> mem.table.nodes[n] in mem.Repr();
      ReplayMore(old(mem.Entries()), entries, lsn, i);
      if e.lsn > lsn {
        if e.kind == PUT {
          mem.Put(e.key, e.value);
          applied := applied + 1;
        } else if e.kind == DELETE {
          mem.Delete(e.key);
          applied := applied + 1;
        } else {
          KnownPrefix(entries, lsn, i + 1);
          return Err(Corruption);
        }
      }
      i := i + 1;
    }
    assert entries[..i] == entries;
    return Ok(applied);
  }

  lemma NothingToReplay(lsn: nat)
    ensures Entries([]) == [] && Replay([], lsn) == [] && Known([]) && forall mem :: FoldOnto(mem, []) == mem
  {
  }

  /** One more entry of the log. */
  lemma ReplayMore(mem: seq<Entry>, entries: seq<WalEntry>, lsn: nat, i: nat)
    requires i < |entries|
    ensures var e, before, after := entries[i], Replay(entries[..i], lsn), Replay(entries[..i + 1], lsn);
      if e.lsn > lsn then
        && after == before + [e] && FoldOnto(mem, after) == Upsert(FoldOnto(mem, before), AsEntry(e))
        && (Known(after) <==> Known(before) && (e.kind == PUT || e.kind == DELETE))
      else after == before
  {
    hide Upsert;
    var e, before := entries[i], Replay(entries[..i], lsn);
    assert entries[..i + 1][..i] == entries[..i];
    assert (before + [e])[..|before|] == before;
    assert Known(before + [e]) ==> forall j :: 0 <= j < |before| ==> (before + [e])[j] == before[j];
    assert Known(before + [e]) ==> (before + [e])[|before|] == e;
  }

  /** An unknown entry makes the whole replay fail. */
  lemma {:induction false} KnownPrefix(entries: seq<WalEntry>, lsn: nat, i: nat)
    requires i <= |entries| && !Known(Replay(entries[..i], lsn))
    ensures !Known(Replay(entries, lsn))
    decreases |entries| - i
  {
    hide Known, Replay, FoldOnto;
    if i == |entries| {
      assert entries[..i] == entries;
    } else {
      ReplayMore([], entries, lsn, i);
      KnownPrefix(entries, lsn, i + 1);
    }
  }

  class StorageEngine {
    const disk: Disk
    const layout: Layout
    const maxLevel: int
    const sizes: Sizes
    const memtableSize: nat
    const manager: CompactionManager
    const checkpoints: CheckpointManager
    const wal: Wal
    var active: MemTable
    var nextSst: U64
    ghost var log: seq<WalEntry>
    ghost var flushed: nat

    /** The parts belong together, and the configured memtable size leaves a flush within the SSTable limits. */
    ghost predicate Configured()
      reads this
    {
      && manager.disk == disk && manager.dir == layout.sstDir && manager.maxLevel == maxLevel
      && checkpoints.disk == disk && checkpoints.path == layout.checkpoint && checkpoints.temp == layout.temp
      && wal.disk == disk && wal.path == layout.wal && active.table.sizes == sizes && layout.checkpoint != layout.temp
      && sizes.node >= 9 && memtableSize <= COMFORTABLE_SIZE - ENTRY_LIMIT && 0 < maxLevel
    }

    ghost function Now(): State
      reads this, disk, manager, wal, active.table, active.table.nodes
    {
      State(layout, maxLevel, disk.files, active.Entries(), manager.files, manager.store, manager.nextFileNumber,
            wal.nextSequence, nextSst, log, flushed)
    }

    ghost predicate Valid()
      reads this, active.table, active.table.head, active.table.nodes
    {
      Configured() && active.Valid()
    }

    constructor (dataDir: Str, walDir: Str, sstDir: Str, maxLevel: int, sizes: Sizes, memtableSize: nat, disk: Disk,
                 manager: CompactionManager, checkpoints: CheckpointManager, wal: Wal, active: MemTable)
      ensures this.disk == disk && layout == LayoutOf(dataDir, walDir, sstDir) && this.maxLevel == maxLevel
          && this.sizes == sizes
      ensures this.memtableSize == memtableSize && this.manager == manager && this.checkpoints == checkpoints
          && this.wal == wal
      ensures this.active == active && nextSst == 1
    {
      this.disk, this.maxLevel, this.sizes, this.memtableSize := disk, maxLevel, sizes, memtableSize;
      layout := LayoutOf(dataDir, walDir, sstDir);
      this.manager, this.checkpoints, this.wal, this.active := manager, checkpoints, wal, active;
      nextSst := 1;
    }

    // ---- opening ----

    /** Opens a store: loads the checkpoint, restores the catalogue, replays the log. */
    static method Open(disk: Disk, dataDir: Str, walDir: Str, sstDir: Str, maxLevel: int, sizes: Sizes,
        memtableSize: nat, ghost store: Store)
      returns (r: Result<StorageEngine>)
      requires sizes.node >= 9 && memtableSize <= COMFORTABLE_SIZE - ENTRY_LIMIT && 0 < maxLevel
      modifies disk
      ensures var was := Reopened(old(disk.files), LayoutOf(dataDir, walDir, sstDir), maxLevel, store);
        if was.Err? then r == Err(was.error) else
          && r.Ok? && fresh(r.value) && r.value.Valid() && r.value.Now() == was.value
          && r.value.disk == disk && disk.trace == old(disk.trace) + RecoveryOps(r.value.layout)
      ensures r.Ok? ==>
        fresh(r.value.wal) && fresh(r.value.manager) && forall o :: o in r.value.active.Repr() ==> fresh(o)
    {
      hide MemTable.Valid, MemTable.Entries, MemTable.Repr, Loaded, FoldOnto, Scan, Snapshot.Valid, Contents, Separate,
          Known, LevelsInRange, Replay, NextLsn, Entries, CompactionManager.Valid;
      ghost var d := disk.files;
      LayoutsSeparate(dataDir, walDir, sstDir);
      LayoutApart(LayoutOf(dataDir, walDir, sstDir));
      var manager := new CompactionManager(sstDir, maxLevel, sizes, disk);
      var checkpoints := new CheckpointManager(dataDir, disk);
      var parts :- Recover(disk, manager, checkpoints, walDir + WAL_NAME, sizes, store);
      var engine := new StorageEngine(dataDir, walDir, sstDir, maxLevel, sizes, memtableSize, disk, manager,
          checkpoints, parts.0, parts.1);
      engine.log := Entries(Contents(d, engine.layout.wal));
      engine.flushed := Loaded(d, engine.layout.checkpoint).value.lsn;
      manager.store := store;
      return Ok(engine);
    }

    /** Loads the checkpoint, restores the catalogue, opens the log and replays it. */
    static method Recover(disk: Disk, manager: CompactionManager, checkpoints: CheckpointManager, path: Str,
        sizes: Sizes, ghost store: Store)
      returns (r: Result<(Wal, MemTable)>)
      requires manager.files == [] && checkpoints.disk == disk
      modifies disk, manager`files, manager`store
      ensures var loaded, log := Loaded(old(disk.files), checkpoints.path), old(Contents(disk.files, path));
        if loaded.Err? then r == Err(loaded.error) else
        if !LevelsInRange(loaded.value.sstables, manager.maxLevel) then r == Err(InvalidArgument) else
        var todo := Replay(Entries(log), loaded.value.lsn);
        if !Known(todo) then r == Err(Corruption) else
          && r.Ok? && r.value.0.nextSequence == NextLsn(Scan(log, 0, U32_LIMIT))
          && r.value.1.Entries() == FoldOnto([], todo) && manager.files == loaded.value.sstables
          && disk.files == old(disk.files)[path := log]
          && disk.trace == old(disk.trace) + [Append(path, []), Append(path, [])]
      ensures r.Ok? ==>
        && fresh(r.value.0) && fresh(r.value.1) && fresh(r.value.1.table) && r.value.1.Valid()
        && r.value.0.disk == disk && r.value.0.path == path && r.value.1.table.sizes == sizes
        && forall o :: o in r.value.1.Repr() ==> fresh(o)
    {
      hide MemTable.Valid, MemTable.Entries, Scan, Loaded, Replay, FoldOnto, Known, LevelsInRange;
      var loaded :- checkpoints.LoadCheckpoint();
      var restored :- Restore(manager, loaded.sstables, store);
      var active := new MemTable(sizes);
      assert forall n :: 0 <= n < |active.table.nodes| ==> active.table.nodes[n] in active.Repr();
      var wal := Wal.Open(disk, path);
      var replayed :- RecoverMemTable(disk, path, active, loaded.lsn);
      return Ok((wal, active));
    }

    /** Restores the catalogue from a checkpoint. */
    static method Restore(manager: CompactionManager, metas: seq<Meta>, ghost store: Store) returns (r: Result<()>)
      requires manager.files == []
      modifies manager`files, manager`store
      ensures r == if LevelsInRange(metas, manager.maxLevel) then Ok(()) else Err(InvalidArgument)
      ensures r.Ok? ==> manager.files == metas
    {
      var i := 0;
      while i < |metas|
        invariant 0 <= i <= |metas| && manager.files == metas[..i] && LevelsInRange(metas[..i], manager.maxLevel)
      {
        var added :- manager.AddFile(metas[i], if metas[i].path in store then store[metas[i].path] else []);
        assert metas[..i + 1] == metas[..i] + [metas[i]];
        i := i + 1;
      }
      assert metas[..i] == metas;
      return Ok(());
    }

    // ---- writing ----

    method Put(key: Str, value: seq<Byte>) returns (ghost ops: seq<DiskOp>)
      requires Valid()
      modifies this`active, this`nextSst, this`flushed, this`log, wal, manager`files, manager`store, disk
      modifies active.table, active.table.head, active.table.nodes
      ensures Valid() && disk.trace == old(disk.trace) + ops
      ensures forall o :: o in active.Repr() ==> o in old(active.Repr()) || fresh(o)
      ensures var e := WalEntry(old(Now()).nextLsn, PUT, key, value);
        Fits(Appended(old(Now()), e).mem) ==>
          && Writes(old(Now()), e, ops, Now()) && TotalSize(Now().mem) <= memtableSize
          && Timely(sizes, memtableSize, Appended(old(Now()), e), Now())
    {
      hide StorageEngine.Now, StorageEngine.Valid, Appended, Writes, Fits, TotalSize, Timely;
      NowFields();
      ops := WriteEntry(PUT, key, value);
    }

    method Delete(key: Str) returns (ghost ops: seq<DiskOp>)
      requires Valid()
      modifies this`active, this`nextSst, this`flushed, this`log, wal, manager`files, manager`store, disk
      modifies active.table, active.table.head, active.table.nodes
      ensures Valid() && disk.trace == old(disk.trace) + ops
      ensures forall o :: o in active.Repr() ==> o in old(active.Repr()) || fresh(o)
      ensures var e := WalEntry(old(Now()).nextLsn, DELETE, key, []);
        Fits(Appended(old(Now()), e).mem) ==>
          && Writes(old(Now()), e, ops, Now()) && TotalSize(Now().mem) <= memtableSize
          && Timely(sizes, memtableSize, Appended(old(Now()), e), Now())
    {
      hide StorageEngine.Now, StorageEngine.Valid, Appended, Writes, Fits, TotalSize, Timely;
      NowFields();
      ops := WriteEntry(DELETE, key, []);
    }

    /** Log first, then memtable, then a flush if the memtable has reached its size. */
    method WriteEntry(kind: Byte, key: Str, value: seq<Byte>) returns (ghost ops: seq<DiskOp>)
      requires Valid() && (kind == PUT || kind == DELETE)
      modifies this`active, this`nextSst, this`flushed, this`log, wal, manager`files, manager`store, disk
      modifies active.table, active.table.head, active.table.nodes
      ensures Valid() && disk.trace == old(disk.trace) + ops
      ensures forall o :: o in active.Repr() ==> o in old(active.Repr()) || fresh(o)
      ensures var e := WalEntry(old(Now()).nextLsn, kind, key, value);
        Fits(Appended(old(Now()), e).mem) ==>
          && Writes(old(Now()), e, ops, Now()) && TotalSize(Now().mem) <= memtableSize
          && Timely(sizes, memtableSize, Appended(old(Now()), e), Now())
    {
      hide *;
      NowFields();
      ghost var before := Now();
      ghost var e := WalEntry(before.nextLsn, kind, key, value);
      LogAndApply(kind, key, value);
      NowFields();
      AppendedFields(before, e);
      ghost var append, written := [Append(layout.wal, Record(e))], Now();
      ghost var more := FlushIfFull();
      NowFields();
      ops := append + more;
      assert old(disk.trace) + append + more == old(disk.trace) + ops;
      if Fits(written.mem) {
        TimelyWrites(before, e, more, Now());
      }
    }

    /** The first two steps of a write. */
    method LogAndApply(kind: Byte, key: Str, value: seq<Byte>)
      requires Valid() && (kind == PUT || kind == DELETE)
      modifies this`log, wal, disk, active.table, active.table.head, active.table.nodes
      ensures Valid() && forall o :: o in active.Repr() ==> o in old(active.Repr()) || fresh(o)
      ensures var e := WalEntry(old(Now()).nextLsn, kind, key, value);
        Now() == Appended(old(Now()), e) && disk.trace == old(disk.trace) + [Append(layout.wal, Record(e))]
    {
      hide Record, Upsert, MemTable.Valid, MemTable.Repr, MemTable.Entries, StorageEngine.Now, StorageEngine.Configured,
          Following, Apply;
      NowFields();
      AppendLog(kind, key, value);
      NowFields();
      assert active.Repr() == old(active.Repr());
      ApplyWrite(kind, key, value);
    }

    lemma NowFields()
      ensures Now().nextLsn == wal.nextSequence && Now().l == layout && Now().mem == active.Entries()
          && Now().disk == disk.files && Now().log == log && Now().maxLevel == maxLevel && Now().flushed == flushed
          && Now().files == manager.files && Now().store == manager.store
    {
    }

    /** The third step of a write: a flush exactly if the memory estimate has reached the configured size. */
    method FlushIfFull() returns (ghost ops: seq<DiskOp>)
      requires Valid() && active.Entries() != []
      modifies this`active, this`nextSst, this`flushed, manager`files, manager`store, disk
      ensures Valid() && disk.trace == old(disk.trace) + ops
      ensures forall o :: o in active.Repr() ==> o in old(active.Repr()) || fresh(o)
      ensures Fits(old(active.Entries())) ==>
        && TotalSize(active.Entries()) <= memtableSize
        && Timely(sizes, memtableSize, old(Now()), Now())
        && if old(Estimate(active.table)) >= memtableSize
           then Now() == Flushed(old(Now())) && ops == FlushRun(old(Now()))
           else Now() == old(Now()) && ops == []
    {
      hide SkipList.Valid, SkipList.Entries, TotalSize, Usage, CellsOf, Fits, Flushed, FlushRun, EstimateAt;
      EstimateBounds(active.table);
      var usage := active.table.ApproximateMemoryUsage();
      UsageCovers(active.table);
      if usage >= memtableSize {
        SSTableFormat.EmptySize();
        ops := FlushMemTable();
      } else {
        ops := [];
      }
    }

    method AppendLog(kind: Byte, key: Str, value: seq<Byte>)
      requires Valid()
      modifies this`log, wal, disk
      ensures Valid()
      ensures var e := WalEntry(old(wal.nextSequence), kind, key, value);
        && disk.trace == old(disk.trace) + [Append(layout.wal, Record(e))]
        && wal.nextSequence == Following(old(wal.nextSequence))
        && Now() == old(Now()).(disk := Apply(old(disk.files), Append(layout.wal, Record(e))), log := old(log) + [e],
            nextLsn := wal.nextSequence)
    {
      hide SkipList.Valid, SkipList.Entries, Record;
      var lsn := wal.AppendEntry(kind, key, value);
      log := log + [WalEntry(lsn, kind, key, value)];
    }

    method ApplyWrite(kind: Byte, key: Str, value: seq<Byte>)
      requires Valid() && (kind == PUT || kind == DELETE)
      modifies active.table, active.table.head, active.table.nodes
      ensures Valid()
      ensures forall o :: o in active.Repr() ==> o in old(active.Repr()) || fresh(o)
      ensures Now() == old(Now()).(mem := Upsert(old(active.Entries()),
          if kind == PUT then Entry(key, value, false) else Entry(key, [], true)))
    {
      hide SkipList.Valid, SkipList.Entries, Upsert, SkipList.Repr;
      if kind == PUT {
        active.Put(key, value);
      } else {
        active.Delete(key);
      }
    }

    /** Writes the memtable to a new level-0 SSTable and then a checkpoint that names it. Neither the writer nor
        the catalogue can refuse a non-empty table at level 0. */
    method FlushMemTable() returns (ghost ops: seq<DiskOp>)
      requires Valid()
      modifies this`active, this`nextSst, this`flushed, manager`files, manager`store, disk
      ensures Valid() && disk.trace == old(disk.trace) + ops
      ensures active.Entries() == [] && forall o :: o in active.Repr() ==> o in old(active.Repr()) || fresh(o)
      ensures old(active.Entries()) == [] ==> Now() == old(Now()) && ops == []
      ensures old(active.Entries()) != [] && Fits(old(active.Entries())) ==>
        Now() == Flushed(old(Now())) && ops == FlushRun(old(Now()))
    {
      hide Fits, SkipList.Valid, EntriesOf, Flushed, FlushRun;
      ops := [];
      ghost var before := Now();
      var empty := active.table.IsEmpty();
      if empty {
        return;
      }
      var toFlush := active;
      active := new MemTable(sizes);
      ops := WriteOut(toFlush, before);
    }

    /** The part of a flush after the memtables are swapped. */
    method WriteOut(toFlush: MemTable, ghost before: State) returns (ghost ops: seq<DiskOp>)
      requires Configured() && toFlush.Valid() && toFlush.Entries() == before.mem != [] && Now() == before.(mem := [])
      modifies this`nextSst, this`flushed, manager`files, manager`store, disk
      ensures disk.trace == old(disk.trace) + ops
      ensures Fits(before.mem) ==> Now() == Flushed(before) && ops == FlushRun(before)
    {
      hide EncodeTable, Fits, FlushPath, EncodeCheckpoint, SkipList.Valid, EntriesOf;
      var lsn := LastLsn(wal.nextSequence);
      var meta := WriteLevel0(toFlush, before.mem);
      ops := [Write(meta.path, disk.files[meta.path])];
      var added := manager.AddFile(meta, before.mem);
      checkpoints.SaveCheckpoint(Checkpoint(lsn, manager.files));
      flushed := |log|;
      ops := ops + SaveOps(layout.checkpoint, layout.temp, Checkpoint(lsn, manager.files));
    }

    /** Writes a memtable to a new level-0 file and describes it. */
    method WriteLevel0(toFlush: MemTable, ghost es: seq<Entry>) returns (meta: Meta)
      requires toFlush.Valid() && toFlush.Entries() == es != []
      modifies this`nextSst, disk
      ensures meta.path == FlushPath(layout.sstDir, old(nextSst)) && meta.level == 0 && meta.seqno == old(nextSst)
      ensures meta.path in disk.files && disk.files == old(disk.files)[meta.path := disk.files[meta.path]]
      ensures disk.trace == old(disk.trace) + [Write(meta.path, disk.files[meta.path])]
      ensures nextSst == Following(old(nextSst))
      ensures Fits(es) ==>
        && disk.files[meta.path] == EncodeTable(es)
        && meta.smallest == es[0].key && meta.largest == es[|es| - 1].key && meta.size == |EncodeTable(es)|
    {
      hide Fits, EncodeTable, FlushPath, SkipList.Valid, EntriesOf, Iterator.Positioned;
      var seqno := nextSst;
      nextSst := Following(nextSst);
      var path := FlushPath(layout.sstDir, seqno);
      var it := toFlush.table.Begin();
      var written := WriteTable(disk, path, it);
      ListSorted(toFlush.table);
      var smallest, largest := ReadRange(path, es);
      meta := Meta(path, 0, smallest, largest, |disk.files[path]|, seqno);
    }

    /** The key range of a file, read back from it. */
    method ReadRange(path: Str, ghost es: seq<Entry>) returns (smallest: Str, largest: Str)
      ensures path in disk.files && IsTable(disk.files[path], es) ==>
        es != [] && smallest == es[0].key && largest == es[|es| - 1].key
    {
      hide IsTable, DecodeFile;
      smallest, largest := [], [];
      ghost var there := path in disk.files && IsTable(disk.files[path], es);
      if there {
        TableOpens(disk.files[path], es);
        NotEmpty(disk.files[path], es);
      }
      var opened' := SSTableReader.Open(disk, path);
      if opened'.Ok? {
        var entries := opened'.value.ReadAll(disk, es);
        if entries.Ok? && entries.value != [] {
          smallest, largest := entries.value[0].key, entries.value[|entries.value| - 1].key;
        }
      }
    }

    // ---- compacting ----

    /** One round of the compaction loop: a compaction if a level asks for one, then a checkpoint that names the
        last log entry, flushed or not. */
    method CompactionRound() returns (ghost job: Job, ghost ops: seq<DiskOp>)
      requires Valid() && manager.Valid() && maxLevel >= 2
      modifies manager`files, manager`store, manager`nextFileNumber, disk
      ensures Valid() && disk.trace == old(disk.trace) + ops
      ensures active.Entries() == old(active.Entries())
      ensures if Idle(old(Now())) then Now() == old(Now()) && ops == [] else Compacts(old(Now()), job, ops, Now())
    {
      hide MemTable.Valid, MemTable.Entries, Triggered, Version, Snapshot.Valid, JobOk, StepAt, BySmallest,
          OutputsNewer, RemovedAll, TablesOf, Potential, Weigh, Inputs, NamedOutputs, EncodeCheckpoint, KeepsAnswer,
          CompactOps, ApplyAll, DistinctPaths;
      job, ops := Job(0, [], [], [], [], false), [];
      var needed := manager.NeedsCompaction();
      if needed {
        ghost var steps;
        var stats;
        stats, job, steps := manager.RunCompaction();
        checkpoints.SaveCheckpoint(Checkpoint(LastLsn(wal.nextSequence), manager.files));
        ops := RoundOps(old(Now()), job, manager.files, manager.store);
        RoundEnds(old(Now()), job, manager.files, manager.store, disk.files);
      }
    }

    // ---- reading ----

    /** The active memtable first, then the SSTables. */
    method Get(key: Str) returns (r: Result<Option<seq<Byte>>>)
      requires Valid() && UsableFilters(disk.files, manager.files)
      ensures Searchable(disk.files, manager.files, manager.store) ==> r == Answer(Now(), key)
      ensures forall v :: Lookup(active.Entries(), key) == Some(Entry(key, v, false)) ==> r == Ok(Some(v))
      ensures Searchable(disk.files, manager.files, manager.store) && NotLive(Lookup(active.Entries(), key)) ==>
        forall v :: r == Ok(Some(v)) <==>
          !Unreadable(disk.files, manager.files, manager.store, key)
          && Version(manager.files, manager.store, key) == Some(Entry(key, v, false))
    {
      hide SkipList.Valid, EntriesOf, Found, Searchable, UsableFilters, Lookup, Version, Unreadable;
      var found := active.Get(key);
      if found.Some? {
        return Ok(found);
      }
      r := GetFromSSTables(key);
    }

    /** Newest level first, newest file first within level 0, until a file holds the key. */
    method GetFromSSTables(key: Str) returns (r: Result<Option<seq<Byte>>>)
      requires manager.disk == disk && UsableFilters(disk.files, manager.files)
      ensures Searchable(disk.files, manager.files, manager.store) ==>
        r == Found(disk.files, manager.files, manager.store, key)
      ensures Searchable(disk.files, manager.files, manager.store) ==>
        forall v :: r == Ok(Some(v)) <==>
          !Unreadable(disk.files, manager.files, manager.store, key)
          && Version(manager.files, manager.store, key) == Some(Entry(key, v, false))
    {
      hide *;
      FoundExactly(disk.files, manager.files, manager.store, key);
      ghost var d, store := disk.files, manager.store;
      ghost var searchable := Searchable(d, manager.files, store);
      var files := SortByRank(manager.files);
      NothingPassed(d, files, store, key);
      var i := 0;
      while i < |files|
        invariant 0 <= i <= |files|
        invariant searchable ==> Passed(d, files, store, key, i)
      {
        var meta := files[i];
        assert meta in files;
        if !(Less(key, meta.smallest) || Less(meta.largest, key)) {
          var found := GetFromFile(meta.path, key);
          if searchable {
            SearchStep(d, manager.files, files, store, key, i, found);
          }
          if found.Err? {
            return Err(found.error);
          }
          if found.value.Some? {
            var entry := found.value.value;
            if entry.tombstone {
              return Ok(None);
            }
            return Ok(Some(entry.value));
          }
        } else if searchable {
          SearchSkips(d, files, store, key, i);
        }
        i := i + 1;
      }
      if searchable {
        SearchEnds(d, manager.files, files, store, key);
      }
      return Ok(None);
    }

    /** One file of the search. */
    method GetFromFile(path: Str, key: Str) returns (r: Result<Option<Entry>>)
      requires manager.disk == disk && UsableFilters(disk.files, manager.files)
      requires exists f :: f in manager.files && f.path == path
      ensures path !in disk.files ==> r == Err(IoError)
      ensures path in disk.files && path in manager.store && IsTable(disk.files[path], manager.store[path]) ==>
        r == Ok(Lookup(manager.store[path], key))
    {
      hide Lookup, IsTable, DecodeFile;
      if path in disk.files && path in manager.store && IsTable(disk.files[path], manager.store[path]) {
        TableOpens(disk.files[path], manager.store[path]);
      }
      var reader :- SSTableReader.Open(disk, path);
      r := reader.Get(disk, key, if path in manager.store then manager.store[path] else []);
    }
  }

  /** The disk after a compaction and the checkpoint that follows it. */
  lemma RoundEnds(s: State, job: Job, files: seq<Meta>, store: Store, d: Files)
    requires s.l.checkpoint != s.l.temp
    requires d == (ApplyAll(s.disk, CompactOps(job, store)) - {s.l.temp})[s.l.checkpoint := EncodeCheckpoint(
        RoundCheckpoint(s, files))]
    ensures d == ApplyAll(s.disk, RoundOps(s, job, files, store))
  {
    hide CompactOps, EncodeCheckpoint;
    var cp := RoundCheckpoint(s, files);
    CrashSplit(s.disk, CompactOps(job, store), SaveOps(s.l.checkpoint, s.l.temp, cp), s.disk);
    SaveEnds(ApplyAll(s.disk, CompactOps(job, store)), s.l.checkpoint, s.l.temp, cp);
  }

  lemma ListSorted(list: SkipList)
    requires list.Valid()
    ensures Sorted(list.Entries())
  {
  }

  /** `ApproximateMemoryUsage`. */
  ghost function Estimate(list: SkipList): nat
    reads list, list.nodes
  {
    list.sizes.list + list.sizes.node + MAX_HEIGHT * list.sizes.link + Usage(list.sizes, CellsOf(list.nodes))
  }

  /** What the estimate of a list with these entries would be if all its towers had the same height. */
  function EstimateAt(sizes: Sizes, es: seq<Entry>, height: nat): nat {
    if es == [] then sizes.list + sizes.node + MAX_HEIGHT * sizes.link
    else EstimateAt(sizes, es[1..], height) + sizes.node + |es[0].key| + |es[0].value| + height * sizes.link
  }

  /** Of a memtable filled to `s`, a flush has made `s'` only if it could have reached the limit, and was left out only
      if it could have stayed below: its estimate depends on the tower heights drawn. */
  ghost predicate Timely(sizes: Sizes, limit: nat, s: State, s': State) {
    || (s' == s && EstimateAt(sizes, s.mem, 1) < limit)
    || (s.mem != [] && s' == Flushed(s) && EstimateAt(sizes, s.mem, MAX_HEIGHT) >= limit)
  }

  /** An append with or without a flush after it is one of the two ways to write. */
  lemma TimelyWrites(s: State, e: WalEntry, more: seq<DiskOp>, s': State)
    requires var s1 := Appended(s, e);
      (s' == s1 && more == []) || (s1.mem != [] && s' == Flushed(s1) && more == FlushRun(s1))
    ensures Writes(s, e, [Append(s.l.wal, Record(e))] + more, s')
  {
    hide Appended, Flushed, FlushRun, Record;
  }

  lemma AppendedFields(s: State, e: WalEntry)
    ensures Appended(s, e).l == s.l
  {
  }

  lemma EstimateBounds(list: SkipList)
    requires list.Valid()
    ensures EstimateAt(list.sizes, list.Entries(), 1) <= Estimate(list)
    ensures Estimate(list) <= EstimateAt(list.sizes, list.Entries(), MAX_HEIGHT)
  {
    hide EstimateAt, Usage;
    CellBounds(list.sizes, CellsOf(list.nodes), list.Entries());
  }

  lemma {:induction false} CellBounds(sizes: Sizes, cells: seq<Cell>, es: seq<Entry>)
    requires |cells| == |es| && forall i :: 0 <= i < |es| ==>
      cells[i].entry == es[i] && 1 <= cells[i].height <= MAX_HEIGHT
    ensures var fixed := sizes.list + sizes.node + MAX_HEIGHT * sizes.link;
      EstimateAt(sizes, es, 1) <= fixed + Usage(sizes, cells) <= EstimateAt(sizes, es, MAX_HEIGHT)
  {
    if es != [] {
      CellBounds(sizes, cells[1..], es[1..]);
      Between(1, cells[0].height, MAX_HEIGHT, sizes.link);
    }
  }

  lemma Between(low: nat, n: nat, high: nat, width: nat)
    requires low <= n <= high
    ensures low * width <= n * width <= high * width
  {
  }

  /** The memory estimate covers the encoded size of the memtable. */
  lemma UsageCovers(list: SkipList)
    requires list.sizes.node >= 9
    ensures TotalSize(list.Entries()) <= Usage(list.sizes, CellsOf(list.nodes))
  {
    CellsCover(list.sizes, CellsOf(list.nodes), list.Entries());
  }

  lemma {:induction false} CellsCover(sizes: Sizes, cells: seq<Cell>, es: seq<Entry>)
    requires sizes.node >= 9 && |cells| == |es| && forall i :: 0 <= i < |es| ==> cells[i].entry == es[i]
    ensures TotalSize(es) <= Usage(sizes, cells)
  {
    hide TotalSize;
    SSTableFormat.EmptySize();
    if es != [] {
      CellsCover(sizes, cells[1..], es[1..]);
      TotalSizeSplit([es[0]], es[1..]);
      assert es == [es[0]] + es[1..];
      SingleSize(es[0]);
    }
  }

  lemma NotEmpty(file: seq<Byte>, es: seq<Entry>)
    requires IsTable(file, es)
    ensures es != []
  {
  }
}
