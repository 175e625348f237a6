/** Where the engine stops keeping its promises, and exactly when: at the first flush after a restart, and after a crash
    inside a compaction or right behind the checkpoint that follows it. */
module EngineLimits {
  import opened Common
  import opened Bytes
  import opened Serializer
  import opened Tables
  import opened SSTableFormat
  import opened Disks
  import opened Paths
  import opened Merge
  import opened Catalogue
  import opened CompactionTheory
  import opened Compactions
  import opened Searches
  import opened Wals
  import opened Checkpoints
  import opened EngineTheory
  import opened EngineStates

  // ---- flushes after a restart ----

  /** The level-0 files numbered above `n`. */
  ghost function Later(files: seq<Meta>, n: nat): seq<Meta> {
    if files == [] then []
    else (if files[0].level == 0 && files[0].seqno > n then [files[0]] else []) + Later(files[1..], n)
  }

  lemma {:induction false} LaterMembers(files: seq<Meta>, n: nat)
    ensures forall f :: f in Later(files, n) <==> f in files && f.level == 0 && f.seqno > n
  {
    if files != [] {
      LaterMembers(files[1..], n);
      assert files == [files[0]] + files[1..];
    }
  }

  /** The version on top after a flush, whatever numbers are in use. A key of the memtable is found in the new file
      unless a level-0 file with a higher number holds it. Any other key is looked up as if the file whose name the
      flush takes were gone. */
  ghost function AfterFlush(s: State, k: Str): Option<Entry> {
    var above := Version(Later(s.files, s.nextSst), s.store, k);
    if Lookup(s.mem, k).None? then Version(Without(s.files, FlushPath(s.l.sstDir, s.nextSst)), s.store, k)
    else if above.Some? then above
    else Lookup(s.mem, k)
  }

  lemma FlushVersionExactly(s: State, k: Str)
    requires s.Serving() && s.Named() && s.mem != []
    ensures Version(Flushed(s).files, Flushed(s).store, k) == AfterFlush(s, k)
  {
    hide WellFormed, Fold, SoundLog, EncodeTable, EncodeCheckpoint, FlushPath, Lookup, Version, NamedByEngine;
    if Lookup(s.mem, k).None? {
      ReusedNameForgets(s, k);
    } else {
      MemKeyVersion(s.files, s.store, s.maxLevel, s.l.sstDir, FlushMeta(s), s.mem, k);
    }
  }

  /** A key of the memtable. */
  lemma MemKeyVersion(files: seq<Meta>, store: Store, maxLevel: int, dir: Str, meta: Meta, es: seq<Entry>, k: Str)
    requires WellFormed(files, store, maxLevel) && (forall f :: f in files ==> NamedByEngine(dir, f))
    requires meta.level == 0 && meta.path == FlushPath(dir, meta.seqno) && Lookup(es, k).Some?
    ensures Version(files + [meta], store[meta.path := es], k) ==
      var above := Version(Later(files, meta.seqno), store, k); if above.Some? then above else Lookup(es, k)
  {
    hide Lookup, FlushPath, Describes, Later, NamedByEngine;
    var files', store', later := files + [meta], store[meta.path := es], Later(files, meta.seqno);
    LaterMembers(files, meta.seqno);
    BestNone(later, store, k);
    assert meta in files' && Holds(store', meta, k);
    BestNotOutranked(files', store', k, meta);
    var b := Best(files', store', k).value;
    forall f | f in files && f.path == meta.path ensures f.level == 0 && f.seqno == meta.seqno {
      NameTells(dir, f, meta.seqno);
    }
    forall f | f in files ensures f.level >= 0 {
      assert Placed(f, store, maxLevel);
    }
    if b.path == meta.path {
      forall f | f in later ensures !Holds(store, f, k) {
        if Holds(store, f, k) {
          assert f in files' && Holds(store', f, k);
          BestNotOutranked(files', store', k, f);
        }
      }
    } else {
      assert b in files && Holds(store, b, k);
      NumberTells(dir, b);
      assert b in later;
      forall g | g in later && g != b && Holds(store, g, k) ensures Outranks(b, g) {
        assert g in files' && Holds(store', g, k);
        BestNotOutranked(files', store', k, g);
        assert Compatible(b, g);
      }
      TopIsBest(later, store, k, b);
    }
  }

  lemma NumberTells(dir: Str, f: Meta)
    requires NamedByEngine(dir, f)
    ensures f.level == 0 ==> f.path == FlushPath(dir, f.seqno)
  {
    hide FlushPath, OutputPath;
  }

  /** Any other key. */
  lemma ReusedNameForgets(s: State, k: Str)
    requires s.mem != [] && Lookup(s.mem, k).None?
    ensures Version(Flushed(s).files, Flushed(s).store, k) == Version(Without(s.files, FlushMeta(s).path), s.store, k)
  {
    hide FlushPath, EncodeTable, EncodeCheckpoint, Lookup;
    var meta := FlushMeta(s);
    BestWithout(s.files + [meta], s.store, s.mem, meta.path, k);
    WithoutLast(s.files, meta);
  }

  lemma {:induction false} BestWithout(files: seq<Meta>, store: Store, es: seq<Entry>, path: Str, k: Str)
    requires Lookup(es, k).None?
    ensures Best(files, store[path := es], k) == Best(Without(files, path), store, k)
  {
    hide Lookup, Outranks;
    if files != [] {
      var f, rest := files[0], Without(files[1..], path);
      BestWithout(files[1..], store, es, path, k);
      if f.path == path {
        assert [] + rest == rest;
      } else {
        assert ([f] + rest)[1..] == rest;
        assert Holds(store[path := es], f, k) <==> Holds(store, f, k);
      }
    }
  }

  lemma {:induction false} WithoutLast(files: seq<Meta>, meta: Meta)
    ensures Without(files + [meta], meta.path) == Without(files, meta.path)
  {
    if files == [] {
      assert files + [meta] == [meta];
    } else {
      WithoutLast(files[1..], meta);
      assert (files + [meta])[1..] == files[1..] + [meta];
    }
  }

  /** What a flush must not meet for `k`: over a key of the memtable, a level-0 file with a higher number that shows
      something else; under any other key, an answering file of the name it takes, unless the rest shows the same. */
  ghost predicate Survives(s: State, k: Str) {
    match Lookup(s.mem, k)
    case Some(e) =>
      var above := Version(Later(s.files, s.nextSst), s.store, k);
      above.None? || Visible(above) == Visible(Some(e))
    case None =>
      var b, path := Best(s.files, s.store, k), FlushPath(s.l.sstDir, s.nextSst);
      || b.None? || b.value.path != path
      || Visible(Version(Without(s.files, path), s.store, k)) == Visible(Version(s.files, s.store, k))
  }

  /** Removing a file that does not answer changes nothing. */
  lemma WithoutOther(files: seq<Meta>, store: Store, maxLevel: int, path: Str, k: Str)
    requires WellFormed(files, store, maxLevel)
    requires Best(files, store, k).Some? ==> Best(files, store, k).value.path != path
    ensures Version(Without(files, path), store, k) == Version(files, store, k)
  {
    hide Holds, Describes, Apart, Compatible;
    WithoutMembers(files, path);
    var rest := Without(files, path);
    BestNone(files, store, k);
    BestNone(rest, store, k);
    if Best(files, store, k).Some? {
      var b := Best(files, store, k).value;
      BestIsTop(files, store, maxLevel, k);
      assert Top(rest, store, k, b);
      TopIsBest(rest, store, k, b);
    }
  }

  /** For every key and every file number: after a flush a lookup returns the last write if and only if `Survives` holds
      before it. */
  lemma FlushAnswersExactly(s: State, k: Str)
    requires s.Serving() && s.Named() && Separate(s.l) && s.mem != [] && Fits(s.mem) && s.Shown(k)
    ensures Searchable(Flushed(s).disk, Flushed(s).files, Flushed(s).store)
    ensures Answer(Flushed(s), k) == Ok(Visible(Version(Flushed(s).files, Flushed(s).store, k)))
    ensures Answer(Flushed(s), k) == Ok(Model(s.log, k)) <==> Survives(s, k)
  {
    hide WellFormed, Fold, SoundLog, EncodeTable, EncodeCheckpoint, FlushPath, Lookup, Version, NamedByEngine, Fits,
        Searchable, Later, LastWrite, Found;
    FlushedSearchable(s);
    FlushedThere(s);
    NothingHeld(k);
    AllThere(Flushed(s).disk, Flushed(s).files, Flushed(s).store, k);
    FlushVersionExactly(s, k);
    FoldIsMap(s.log[s.flushed..]);
    LastWriteSplit(s.log[..s.flushed], s.log[s.flushed..], k);
    assert s.log[..s.flushed] + s.log[s.flushed..] == s.log;
    var b, path := Best(s.files, s.store, k), FlushPath(s.l.sstDir, s.nextSst);
    if b.None? || b.value.path != path {
      WithoutOther(s.files, s.store, s.maxLevel, path, k);
    }
  }

  lemma NothingHeld(k: Str)
    ensures Lookup([], k).None?
  {
  }

  lemma FlushedThere(s: State)
    requires s.Serving() && Separate(s.l) && s.mem != []
    ensures forall f :: f in Flushed(s).files ==> f.path in Flushed(s).disk
  {
    hide WellFormed, IsTable, Fold, SoundLog, EncodeTable, EncodeCheckpoint, FlushPath;
    SSTableNames(s.l.sstDir);
    forall f | f in Flushed(s).files ensures f.path in Flushed(s).disk {
      if f in s.files {
        assert s.Snap().OnDisk(f.path);
      }
    }
  }

  /** Even with a name used twice the catalogue can be searched. */
  lemma FlushedSearchable(s: State)
    requires s.Serving() && s.Named() && Separate(s.l) && s.mem != [] && Fits(s.mem)
    ensures Searchable(Flushed(s).disk, Flushed(s).files, Flushed(s).store)
  {
    hide WellFormed, IsTable, Fold, SoundLog, EncodeTable, EncodeCheckpoint, FlushPath, Holds, InRange, NamedByEngine,
        Fits, Describes, Storable, Ranked;
    var s', meta := Flushed(s), FlushMeta(s);
    FlushedTables(s);
    forall f, k | f in s'.files && Holds(s'.store, f, k) ensures Covered(s'.files, f, k) {
      FlushedCovers(s, f, k);
    }
    forall f, g, k | f in s'.files && g in s'.files && f.path != g.path && InRange(f, k) && Holds(s'.store, g, k)
      ensures Ranked(f, g)
    {
      FlushedRanks(s, f, g, k);
    }
  }

  lemma FlushedTables(s: State)
    requires s.Serving() && Separate(s.l) && s.mem != [] && Fits(s.mem)
    ensures TablesThere(Flushed(s).disk, Flushed(s).files, Flushed(s).store)
  {
    hide WellFormed, Fold, SoundLog, EncodeTable, EncodeCheckpoint, FlushPath, Fits, Describes, Storable;
    MemIsTable(s);
    SSTableNames(s.l.sstDir);
    var s' := Flushed(s);
    forall f | f in s'.files && f.path in s'.disk
      ensures f.path in s'.store && IsTable(s'.disk[f.path], s'.store[f.path])
    {
      if f in s.files {
        assert s.Snap().OnDisk(f.path);
      }
    }
  }

  /** The names of a flush decide the place. */
  lemma SameNameSamePlace(s: State, f: Meta)
    requires s.Serving() && s.Named() && s.mem != [] && f in Flushed(s).files
    ensures f.path == FlushMeta(s).path ==> SamePlace(f, FlushMeta(s))
    ensures f.path != FlushMeta(s).path ==> f in s.files
  {
    hide Fold, SoundLog, EncodeTable, EncodeCheckpoint, FlushPath, NamedByEngine, Snapshot.Readable;
    if f in s.files && f.path == FlushMeta(s).path {
      NameTells(s.l.sstDir, f, s.nextSst);
    }
  }

  lemma FlushedCovers(s: State, f: Meta, k: Str)
    requires s.Serving() && s.Named() && s.mem != [] && f in Flushed(s).files && Holds(Flushed(s).store, f, k)
    ensures Covered(Flushed(s).files, f, k)
  {
    hide IsTable, Fold, SoundLog, EncodeTable, EncodeCheckpoint, FlushPath, InRange, NamedByEngine, Describes, Storable,
        Lookup, Compatible;
    var s', meta := Flushed(s), FlushMeta(s);
    SameNameSamePlace(s, f);
    if f.path == meta.path {
      MemIsTable(s);
      assert Holds(s'.store, meta, k) && meta in s'.files;
      HeldInside(s'.store, meta, k);
    } else {
      assert Placed(f, s.store, s.maxLevel) && Holds(s.store, f, k);
      HeldInside(s.store, f, k);
    }
  }

  lemma FlushedRanks(s: State, f: Meta, g: Meta, k: Str)
    requires s.Serving() && s.Named() && s.mem != [] && f in Flushed(s).files && g in Flushed(s).files
    requires f.path != g.path && InRange(f, k) && Holds(Flushed(s).store, g, k)
    ensures Ranked(f, g)
  {
    hide IsTable, Fold, SoundLog, EncodeTable, EncodeCheckpoint, FlushPath, InRange, Describes, Storable, Lookup, Apart;
    SameNameSamePlace(s, f);
    SameNameSamePlace(s, g);
    var meta := FlushMeta(s);
    if f.path == meta.path {
      FlushedNumber(s, g);
    } else if g.path == meta.path {
      FlushedNumber(s, f);
    } else {
      assert Placed(f, s.store, s.maxLevel) && Placed(g, s.store, s.maxLevel) && Compatible(f, g)
          && Holds(s.store, g, k);
      HeldInside(s.store, g, k);
      ApartRanges(f, g, k);
    }
  }

  /** A file of another name has another place. */
  lemma FlushedNumber(s: State, f: Meta)
    requires s.Serving() && s.Named() && s.mem != [] && f in s.files && f.path != FlushMeta(s).path
    ensures f.level != 0 || f.seqno != s.nextSst
  {
    hide IsTable, Fold, SoundLog, EncodeTable, EncodeCheckpoint, FlushPath, Snapshot.Readable;
  }

  /** With no level-0 file numbered from the counter on, as when a reopened store has files from level 1 on only, a
      flush keeps every answer. */
  lemma NoHigherNumbers(s: State, k: Str)
    requires s.Serving() && s.Named() && forall f :: f in s.files && f.level == 0 ==> f.seqno < s.nextSst
    ensures Survives(s, k)
  {
    hide Fold, SoundLog, FlushPath, Lookup, Version, NamedByEngine, Snapshot.Readable, Later;
    LaterMembers(s.files, s.nextSst);
    BestNone(Later(s.files, s.nextSst), s.store, k);
    var b, path := Best(s.files, s.store, k), FlushPath(s.l.sstDir, s.nextSst);
    if b.Some? && b.value.path == path {
      NameTells(s.l.sstDir, b.value, s.nextSst);
    }
    NoneIsNothing(Later(s.files, s.nextSst), s.store, k);
  }

  lemma NoneIsNothing(files: seq<Meta>, store: Store, k: Str)
    ensures Version(files, store, k).None? <==> Best(files, store, k).None?
  {
  }

  /** The counters restart at 1. They are ahead of every number in use exactly when nothing is catalogued. */
  lemma RestartIsAheadExactly(s: State)
    requires s.nextSst == 1 && s.nextFile == 1 && s.Named()
    ensures s.Ahead() <==> s.files == []
  {
    hide FlushPath, OutputPath;
    if s.files != [] {
      var f := s.files[0];
      assert f in s.files;
      assert f.level == 0 ==> !(f.seqno < s.nextSst);
      assert f.level != 0 ==> !(f.seqno <= s.nextFile);
    }
  }

  /** Reopening a durable state changes nothing but the file counters, and creates the log file if there was none. The
      invariant of the writers survives exactly if nothing is catalogued; what the next flush does otherwise is stated
      by `FlushAnswersExactly`. */
  lemma RestartResets(s: State)
    requires s.Consistent()
    ensures var t := s.(disk := s.disk[s.l.wal := Contents(s.disk, s.l.wal)], nextFile := 1, nextSst := 1);
      && Reopened(s.disk, s.l, s.maxLevel, s.store) == Ok(t) && t.Serving() && t.Named() && t.Durable()
      && (forall k :: s.Shown(k) ==> t.Shown(k)) && (t.Consistent() <==> s.files == [])
  {
    hide WellFormed, IsTable, Version, Model, GoodLog, Storable, Loaded, LogHolds, Fold, Records, SoundLog, Reopened,
        State.Ahead, State.Shown, Recovers, Separate;
    DurableRecovers(s);
    ReopenedServes(s.disk, s.l, s.maxLevel, s.Keys(), s.log, Checkpoint(s.flushed, s.files), s.store);
    var t := s.(disk := s.disk[s.l.wal := Contents(s.disk, s.l.wal)], nextFile := 1, nextSst := 1);
    AheadNamed(s);
    assert t.Named();
    RestartIsAheadExactly(t);
    LayoutApart(s.l);
    LoadedElsewhere(s.disk, s.l.wal, Contents(s.disk, s.l.wal), s.l.checkpoint);
  }

  /** Writes that do not fill the memtable. */
  ghost function AppendedAll(s: State, es: seq<WalEntry>): State {
    if es == [] then s else Appended(AppendedAll(s, es[..|es| - 1]), es[|es| - 1])
  }

  ghost predicate Numbered(es: seq<WalEntry>, first: nat) {
    forall i :: 0 <= i < |es| ==> SoundEntry(es[i]) && es[i].lsn == first + i
  }

  /** They keep the catalogue, its counters and what it shows, ahead or not. */
  lemma {:induction false} WritesKeep(s: State, es: seq<WalEntry>)
    requires s.Serving() && s.Named() && Separate(s.l) && Numbered(es, s.nextLsn) && s.nextLsn + |es| < U64_LIMIT
    ensures var t := AppendedAll(s, es);
      && t.Serving() && t.Named() && t.l == s.l && t.files == s.files && t.store == s.store && t.nextSst == s.nextSst
      && t.log == s.log + es && t.nextLsn == s.nextLsn + |es| && forall k :: s.Shown(k) ==> t.Shown(k)
  {
    hide State.Serving, State.Shown, SoundEntry, Record, Upsert, Separate, Apply, NamedByEngine, Following;
    ServingCounts(s);
    if es != [] {
      var n := |es| - 1;
      WritesKeep(s, es[..n]);
      var t := AppendedAll(s, es[..n]);
      ServingCounts(t);
      AppendServes(t, es[n]);
      assert es[..n] + [es[n]] == es;
      assert s.log + es[..n] + [es[n]] == s.log + es;
    }
  }

  lemma ServingCounts(s: State)
    requires s.Serving()
    ensures s.flushed <= |s.log|
  {
  }

  /** Reopen, write, flush: for every key, a lookup then returns the last write if and only if `Survives` holds for the
      counter at 1 and the memtable about to be flushed. */
  lemma RestartThenFlush(s: State, es: seq<WalEntry>, k: Str)
    requires s.Consistent() && Numbered(es, s.nextLsn) && s.nextLsn + |es| < U64_LIMIT
    ensures s.flushed <= |s.log| && Reopened(s.disk, s.l, s.maxLevel, s.store).Ok?
    ensures var t := AppendedAll(Reopened(s.disk, s.l, s.maxLevel, s.store).value, es);
      && t.nextSst == 1 && t.files == s.files && t.store == s.store && t.log == s.log + es
      && (t.mem != [] && Fits(t.mem) && s.Shown(k) ==>
           && Searchable(Flushed(t).disk, Flushed(t).files, Flushed(t).store)
           && (Answer(Flushed(t), k) == Ok(Model(s.log + es, k)) <==> Survives(t, k)))
  {
    hide State.Live, State.Durable, State.Serving, State.Shown, Reopened, Fits, Flushed, Searchable, Answer, Model,
        Survives, NamedByEngine, AppendedAll, Separate;
    RestartResets(s);
    LiveSeparate(s);
    LiveCounts(s);
    var r := Reopened(s.disk, s.l, s.maxLevel, s.store).value;
    WritesKeep(r, es);
    var t := AppendedAll(r, es);
    if t.mem != [] && Fits(t.mem) && s.Shown(k) {
      FlushAnswersExactly(t, k);
    }
  }

  lemma AheadNamed(s: State)
    requires s.Ahead()
    ensures s.Named()
  {
  }

  lemma LoadedElsewhere(d: Files, path: Str, bytes: seq<Byte>, checkpoint: Str)
    requires path != checkpoint
    ensures Loaded(d[path := bytes], checkpoint) == Loaded(d, checkpoint)
  {
  }

  /** A reopened store is durable, so that writes behind its log are safe, exactly if the log has no torn tail. */
  lemma TornTailIsNotDurable(d: Files, l: Layout, maxLevel: int, keys: iset<Str>, es: seq<WalEntry>, cp: Checkpoint,
      store: Store)
    requires Separate(l) && Recovers(d, l, maxLevel, keys, es, cp, store)
    ensures var r := Reopened(d, l, maxLevel, store);
      r.Ok? && (r.value.Durable() <==> Contents(d, l.wal) == Records(es))
  {
    hide WellFormed, IsTable, Version, Model, GoodLog, Storable, Loaded, LogHolds, Fold, Records, SoundLog, Reopened,
        State.Shown, State.Serving, Separate;
    ReopenedServes(d, l, maxLevel, keys, es, cp, store);
    LayoutApart(l);
    LoadedElsewhere(d, l.wal, Contents(d, l.wal), l.checkpoint);
  }

  /** Opening leaves a torn tail in the log file, and writes go behind it. The log the next recovery finds is the whole
      records and then whatever the tail and the new records read as together. */
  lemma TornTailRecovers(d: Files, l: Layout, maxLevel: int, store: Store, es: seq<WalEntry>, tail: seq<Byte>,
      more: seq<WalEntry>)
    requires Separate(l) && Contents(d, l.wal) == Records(es) + tail && Reopened(d, l, maxLevel, store).Ok?
    requires forall i :: 0 <= i < |es| ==> GoodEntry(es[i])
    ensures var t := Reopened(d, l, maxLevel, store).value; var u := AppendedAll(t, more);
      var r := Reopened(u.disk, l, maxLevel, store);
      && t.log == es + Entries(tail) && Loaded(u.disk, l.checkpoint) == Loaded(d, l.checkpoint)
      && Entries(Contents(u.disk, l.wal)) == es + Entries(tail + Records(more))
      && (r.Ok? ==>
           && (r.value.log == es + more <==> Entries(tail + Records(more)) == more)
           && (r.value.log == es <==> Ends(tail + Records(more), 0, MAX_PAYLOAD)))
  {
    hide Records, Payload, Recordable, Loaded, AppendedAll, NextRecord, Replay, FoldOnto, Known, LevelsInRange, NextLsn;
    LayoutApart(l);
    var t := Reopened(d, l, maxLevel, store).value;
    var u := AppendedAll(t, more);
    AppendedBehind(t, more);
    LoadedElsewhere(d, l.wal, Contents(d, l.wal), l.checkpoint);
    Assoc(Records(es), tail, Records(more));
    ReadsOn(es, tail);
    ReadsOn(es, tail + Records(more));
    SameTail(es, Entries(tail + Records(more)), more);
    SameTail(es, Entries(tail + Records(more)), []);
    assert es + [] == es;
  }

  lemma SameTail(a: seq<WalEntry>, b: seq<WalEntry>, c: seq<WalEntry>)
    ensures a + b == a + c <==> b == c
  {
    assert (a + b)[|a|..] == b && (a + c)[|a|..] == c;
  }

  /** Writes touch the log file alone, and only behind its end. */
  lemma {:induction false} AppendedBehind(s: State, es: seq<WalEntry>)
    requires Separate(s.l)
    ensures var t := AppendedAll(s, es);
      && t.l == s.l && Contents(t.disk, s.l.wal) == Contents(s.disk, s.l.wal) + Records(es)
      && Loaded(t.disk, s.l.checkpoint) == Loaded(s.disk, s.l.checkpoint)
  {
    hide Record, Records, Loaded, Upsert, Following;
    LayoutApart(s.l);
    if es == [] {
      NoRecords();
      assert Contents(s.disk, s.l.wal) + [] == Contents(s.disk, s.l.wal);
    } else {
      var n := |es| - 1;
      AppendedBehind(s, es[..n]);
      var t, more := AppendedAll(s, es[..n]), Record(es[n]);
      AppendedLog(es[..n], es[n]);
      assert es[..n] + [es[n]] == es;
      Assoc(Contents(s.disk, s.l.wal), Records(es[..n]), more);
      LoadedElsewhere(t.disk, s.l.wal, Contents(t.disk, s.l.wal) + more, s.l.checkpoint);
    }
  }

  // ---- lookups during a flush ----

  /** From the swap of the memtables until the new file is catalogued, a lookup sees neither: it returns the last write
      exactly if the memtable being flushed adds nothing to the SSTables for its key. */
  lemma MidFlushAnswersExactly(s: State, k: Str)
    requires s.Serving() && s.Shown(k)
    ensures var held := Visible(Lookup(s.mem, k));
      Answer(s.(mem := []), k) == Ok(Model(s.log, k)) <==>
      Lookup(s.mem, k).None? || held == Visible(Version(s.files, s.store, k))
  {
    hide Version, LastWrite, Lookup, WellFormed, IsTable, SoundLog, Storable, Unreadable;
    assert forall f :: f in s.files ==> s.Snap().OnDisk(f.path);
    AllThere(s.disk, s.files, s.store, k);
    NothingHeld(k);
    FoldIsMap(s.log[s.flushed..]);
    LastWriteSplit(s.log[..s.flushed], s.log[s.flushed..], k);
    assert s.log[..s.flushed] + s.log[s.flushed..] == s.log;
  }

  // ---- crashes inside a compaction ----

  /** The old checkpoint is in place and so are the catalogued files, except that the first `n` inputs are gone. */
  ghost predicate HalfRemoved(s: State, job: Job, d: Files, n: nat) {
    && n <= |Inputs(job)| && Contents(d, s.l.wal) == Contents(s.disk, s.l.wal)
    && Loaded(d, s.l.checkpoint) == Loaded(s.disk, s.l.checkpoint)
    && forall f :: f in s.files ==>
      && (f.path in d <==> f !in Inputs(job)[..n]) && (f.path in d ==> f.path in s.disk && d[f.path] == s.disk[f.path])
  }

  /** Two disks agree on a path. */
  ghost predicate SameAt(d: Files, d': Files, p: Str) {
    (p in d' <==> p in d) && (p in d ==> d'[p] == d[p])
  }

  lemma {:induction false} WriteCrashLeaves(outs: seq<Meta>, store: Store, d: Files, d': Files, p: Str)
    requires CrashState(d, WriteOps(outs, store), d') && forall o :: o in outs ==> o.path != p
    ensures SameAt(d, d', p)
  {
    hide EncodeTable, ApplyAll;
    if outs != [] {
      var n := |outs| - 1;
      assert WriteOps(outs, store)[..n] == WriteOps(outs[..n], store);
      assert outs[n] in outs;
      if CrashState(d, WriteOps(outs[..n], store), d') {
        WriteCrashLeaves(outs[..n], store, d, d', p);
      } else {
        WritesLeave(outs[..n], store, d);
        assert SameAt(d, ApplyAll(d, WriteOps(outs[..n], store)), p);
      }
    }
  }

  lemma {:induction false} RemoveCrashCounts(ms: seq<Meta>, d: Files, d': Files) returns (n: nat)
    requires CrashState(d, RemoveOps(ms), d')
    ensures n <= |ms| && d' == ApplyAll(d, RemoveOps(ms[..n]))
  {
    hide ApplyAll;
    if ms == [] {
      NothingRemoved(d);
      n := 0;
    } else {
      var last := |ms| - 1;
      assert RemoveOps(ms)[..last] == RemoveOps(ms[..last]);
      if CrashState(d, RemoveOps(ms[..last]), d') {
        n := RemoveCrashCounts(ms[..last], d, d');
        assert ms[..last][..n] == ms[..n];
      } else {
        RemovesMore(ms, last, d);
        n := if d' == ApplyAll(d, RemoveOps(ms[..last])) then last else last + 1;
      }
    }
  }

  lemma SaveCrashStates(d: Files, path: Str, temp: Str, cp: Checkpoint, d': Files)
    requires path != temp && CrashState(d, SaveOps(path, temp, cp), d')
    ensures d' == ApplyAll(d, SaveOps(path, temp, cp)) || forall p :: p != temp ==> SameAt(d, d', p)
  {
    hide EncodeCheckpoint;
    var write := Write(temp, EncodeCheckpoint(cp));
    FirstOp(d, write);
    OneMoreOp(d, [write], Rename(temp, path));
    assert [write] + [Rename(temp, path)] == SaveOps(path, temp, cp);
  }

  lemma WritingCrash(s: State, job: Job, ops: seq<DiskOp>, s': State, d: Files)
    requires s.Live() && Compacts(s, job, ops, s') && CrashState(s.disk, WriteOps(job.outs, s'.store), d)
    ensures HalfRemoved(s, job, d, 0)
  {
    hide OutputsNewer, RemovedAll, WriteOps, RemoveOps, EncodeCheckpoint, Snapshot.Valid, Triggered, DistinctPaths,
        BySmallest, State.Ahead, Fold, SoundLog, ApplyAll, CrashState, Inputs, OutputPath, WellFormed, Selection,
        IsMerge, Produced, Renumbered, TablesOf, IsTable, Storable, CompactOps, DecodeCheckpoint;
    SSTableNames(s.l.sstDir);
    WriteCrashLeaves(job.outs, s'.store, s.disk, d, s.l.wal);
    WriteCrashLeaves(job.outs, s'.store, s.disk, d, s.l.checkpoint);
    forall f | f in s.files ensures f.path in d && f.path in s.disk && d[f.path] == s.disk[f.path] {
      assert s.Snap().OnDisk(f.path);
      WriteCrashLeaves(job.outs, s'.store, s.disk, d, f.path);
    }
    assert Inputs(job)[..0] == [];
  }

  lemma RemovingIsHalf(s: State, job: Job, ops: seq<DiskOp>, s': State, n: nat)
    requires s.Live() && Compacts(s, job, ops, s') && n <= |Inputs(job)|
    ensures HalfRemoved(s, job, Removing(s, job, s', n), n)
  {
    hide OutputsNewer, RemovedAll, WriteOps, RemoveOps, EncodeCheckpoint, Snapshot.Valid, Triggered, BySmallest,
        State.Ahead, Fold, SoundLog, ApplyAll, Inputs, OutputPath, Selection, IsMerge, NamedOutputs, Produced,
        Renumbered, TablesOf, IsTable, Storable, CompactOps, DecodeCheckpoint, Placed, Compatible;
    RunLeaves(s, job, ops, s', n, s.l.wal);
    RunLeaves(s, job, ops, s', n, s.l.checkpoint);
    WritesLeave(job.outs, s'.store, s.disk);
    RemovalsLeave(Inputs(job)[..n], Written(s, job, s'));
    InputsInCatalogue(s, job, ops, s');
    var d := Removing(s, job, s', n);
    forall f | f in s.files
      ensures f.path in d <==> f !in Inputs(job)[..n]
      ensures f.path in d ==> f.path in s.disk && d[f.path] == s.disk[f.path]
    {
      assert s.Snap().OnDisk(f.path);
      forall m | m in Inputs(job)[..n] ensures m.path == f.path ==> m == f {
        assert m in s.files;
      }
    }
  }

  lemma RemovingCrash(s: State, job: Job, ops: seq<DiskOp>, s': State, d: Files)
    requires s.Live() && Compacts(s, job, ops, s') && CrashState(Written(s, job, s'), RemoveOps(Inputs(job)), d)
    ensures exists n :: HalfRemoved(s, job, d, n)
  {
    hide State.Live, Compacts, HalfRemoved, Inputs, RemoveOps, WriteOps, CrashState, ApplyAll;
    var n := RemoveCrashCounts(Inputs(job), Written(s, job, s'), d);
    RemovingIsHalf(s, job, ops, s', n);
  }

  lemma SavingCrash(s: State, job: Job, ops: seq<DiskOp>, s': State, d: Files)
    requires s.Live() && Compacts(s, job, ops, s')
    requires CrashState(Midway(s, job, s').disk, SaveOps(s.l.checkpoint, s.l.temp, RoundCheckpoint(s, s'.files)), d)
    ensures d == s'.disk || exists n :: HalfRemoved(s, job, d, n)
  {
    hide JobOk, OutputsNewer, RemovedAll, NamedOutputs, WriteOps, RemoveOps, EncodeCheckpoint, Snapshot.Valid,
        Triggered, DistinctPaths, BySmallest, Snapshot.Readable, State.Ahead, Fold, SoundLog, ApplyAll, CrashState,
        Inputs, EndsWith, CompactOps, DecodeCheckpoint, Removing, Midway;
    var cp := RoundCheckpoint(s, s'.files);
    var save, mid := SaveOps(s.l.checkpoint, s.l.temp, cp), Midway(s, job, s').disk;
    SaveCrashStates(mid, s.l.checkpoint, s.l.temp, cp, d);
    RoundDisk(s, job, ops, s');
    SaveEnds(mid, s.l.checkpoint, s.l.temp, cp);
    if d != s'.disk {
      AllRemoved(s, job, s');
      RemovingIsHalf(s, job, ops, s', |Inputs(job)|);
      HalfElsewhere(s, job, mid, d, |Inputs(job)|);
    }
  }

  lemma HalfElsewhere(s: State, job: Job, d: Files, d': Files, n: nat)
    requires s.Live() && HalfRemoved(s, job, d, n) && forall p :: p != s.l.temp ==> SameAt(d, d', p)
    ensures HalfRemoved(s, job, d', n)
  {
    hide Snapshot.Readable, State.Ahead, Fold, SoundLog, Inputs, DecodeCheckpoint;
    assert SameAt(d, d', s.l.wal) && SameAt(d, d', s.l.checkpoint);
    forall f | f in s.files ensures SameAt(d, d', f.path) {
      assert EndsWith(f.path, DOT_SST);
    }
  }

  /** A crash inside a compaction round leaves the old checkpoint with some inputs gone, or the round finished. */
  lemma RoundCrash(s: State, job: Job, ops: seq<DiskOp>, s': State, d: Files)
    requires s.Live() && Compacts(s, job, ops, s') && FitsCheckpoint(RoundCheckpoint(s, s'.files))
    requires CrashState(s.disk, ops, d)
    ensures d == s'.disk || exists n :: HalfRemoved(s, job, d, n)
  {
    hide JobOk, OutputsNewer, RemovedAll, NamedOutputs, WriteOps, RemoveOps, EncodeCheckpoint, Snapshot.Valid,
        Triggered, DistinctPaths, BySmallest, Snapshot.Readable, State.Ahead, Fold, SoundLog, ApplyAll, CrashState,
        HalfRemoved, Inputs, EndsWith, FitsCheckpoint, Removing;
    var write, remove := WriteOps(job.outs, s'.store), RemoveOps(Inputs(job));
    var save := SaveOps(s.l.checkpoint, s.l.temp, RoundCheckpoint(s, s'.files));
    CrashSplit(s.disk, write + remove, save, d);
    CrashSplit(s.disk, write, remove, d);
    if CrashState(s.disk, write, d) {
      WritingCrash(s, job, ops, s', d);
    } else if CrashState(ApplyAll(s.disk, write), remove, d) {
      RemovingCrash(s, job, ops, s', d);
    } else {
      SavingCrash(s, job, ops, s', d);
    }
  }

  // ---- opening after a crash ----

  /** A disk that opens to the log and the catalogue of `s` under a checkpoint that covers the first `c` log entries.
      The log may end in a torn record, and catalogued files may be gone. */
  ghost predicate Resembles(d: Files, s: State, c: nat) {
    && s.flushed <= c <= |s.log| && GoodLog(s.log) && LogHolds(Contents(d, s.l.wal), s.log)
    && Loaded(d, s.l.checkpoint) == Ok(Checkpoint(c, s.files))
    && forall f :: f in s.files && f.path in d ==> f.path in s.disk && d[f.path] == s.disk[f.path]
  }

  /** What opening it gives: the log is replayed from entry `c` on. */
  ghost function Restarted(d: Files, s: State, c: nat): State
    requires c <= |s.log|
  {
    s.(disk := d[s.l.wal := Contents(d, s.l.wal)], mem := Fold(s.log[c..]), flushed := c, nextFile := 1, nextSst := 1)
  }

  /** When a lookup then returns the last write: it is replayed and live, or replayed and a tombstone over nothing
      visible, or it is not among the entries between the flushed and the replayed ones, or it shows the same as the
      SSTables; and unless it is replayed and live, no missing file is in the way. */
  ghost predicate Recalls(d: Files, s: State, c: nat, k: Str)
    requires s.flushed <= c <= |s.log|
  {
    var skipped, shown := Lookup(Fold(s.log[s.flushed..c]), k), Visible(Version(s.files, s.store, k));
    match Lookup(Fold(s.log[c..]), k)
    case Some(e) => !e.tombstone || (!Unreadable(d, s.files, s.store, k) && shown.None?)
    case None => !Unreadable(d, s.files, s.store, k) && (skipped.None? || Visible(skipped) == shown)
  }

  /** Opening any such disk, for every key: what a lookup returns, and that for a key the SSTables show it is the last
      write if and only if `Recalls` holds. */
  lemma RestartAnswersExactly(d: Files, s: State, c: nat, k: Str)
    requires s.Live() && Resembles(d, s, c)
    ensures s.flushed <= |s.log| && Reopened(d, s.l, s.maxLevel, s.store) == Ok(Restarted(d, s, c))
    ensures var t := Restarted(d, s, c); var held := Visible(Lookup(t.mem, k));
      && Searchable(t.disk, t.files, t.store)
      && Answer(t, k) == (if held.Some? then Ok(held) else Found(d, s.files, s.store, k))
      && (s.Shown(k) ==> (Answer(t, k) == Ok(Model(s.log, k)) <==> Recalls(d, s, c, k)))
  {
    hide WellFormed, IsTable, Version, LastWrite, GoodLog, Storable, Loaded, LogHolds, Fold, Records, SoundLog,
        Reopened, State.Ahead, Lookup, Searchable, Unreadable, Separate, Snapshot.Readable;
    LiveCounts(s);
    LiveLevels(s);
    ReopenedLog(d, s.l, s.maxLevel, s.store, s.log, Checkpoint(c, s.files));
    ResemblesSearchable(d, s, c);
    LogIsNoTable(s, d, k);
    LogInThree(s.log, s.flushed, c, k);
  }

  /** The last write is in the last of three stretches of a log that has one. */
  lemma LogInThree(log: seq<WalEntry>, a: nat, b: nat, k: Str)
    requires a <= b <= |log|
    ensures LastWrite(log, k) ==
      if Lookup(Fold(log[b..]), k).Some? then Lookup(Fold(log[b..]), k)
      else if Lookup(Fold(log[a..b]), k).Some? then Lookup(Fold(log[a..b]), k)
      else LastWrite(log[..a], k)
  {
    hide LastWrite, Lookup, Fold;
    FoldIsMap(log[b..]);
    FoldIsMap(log[a..b]);
    LastWriteSplit(log[..a], log[a..b], k);
    LastWriteSplit(log[..b], log[b..], k);
    assert log[..a] + log[a..b] == log[..b] && log[..b] + log[b..] == log;
  }

  lemma ResemblesSearchable(d: Files, s: State, c: nat)
    requires s.Live() && Resembles(d, s, c)
    ensures Searchable(d[s.l.wal := Contents(d, s.l.wal)], s.files, s.store)
  {
    hide WellFormed, IsTable, Storable, Loaded, Fold, SoundLog, State.Ahead, Searchable, LogHolds, GoodLog;
    var d' := d[s.l.wal := Contents(d, s.l.wal)];
    forall f | f in s.files && f.path in d' ensures f.path in s.store && IsTable(d'[f.path], s.store[f.path]) {
      assert s.Snap().OnDisk(f.path) && EndsWith(f.path, DOT_SST);
    }
    WellFormedSearchable(d', s.files, s.store, s.maxLevel);
  }

  /** The disk of a state resembles it, and nothing is missing. */
  lemma MarkedResembles(s: State, c: nat)
    requires s.Live() && Marked(s, c)
    ensures Resembles(s.disk, s, c) && forall f :: f in s.files ==> f.path in s.disk
  {
    hide WellFormed, IsTable, Storable, Loaded, Fold, SoundLog, State.Ahead, LogHolds, GoodLog, Separate;
    WholeLogHolds(s.log);
    forall f | f in s.files ensures f.path in s.disk {
      assert s.Snap().OnDisk(f.path);
    }
  }

  /** With every file there nothing is in the way. */
  lemma NothingInTheWay(d: Files, s: State, k: Str)
    requires forall f :: f in s.files ==> f.path in d
    ensures !Unreadable(d, s.files, s.store, k)
  {
    hide InRange, Holds;
  }

  /** Under the checkpoint of a durable state nothing is skipped: the last write is returned except exactly where it is
      a replayed tombstone over a live SSTable version. */
  lemma DurableRecalls(d: Files, s: State, k: Str)
    requires s.flushed <= |s.log| && forall f :: f in s.files ==> f.path in d
    ensures var held := Lookup(Fold(s.log[s.flushed..]), k);
      Recalls(d, s, s.flushed, k) <==>
      !(held.Some? && held.value.tombstone && Visible(Version(s.files, s.store, k)).Some?)
  {
    hide Lookup, Version, Unreadable, Fold;
    NothingInTheWay(d, s, k);
    assert s.log[s.flushed..s.flushed] == [];
    NothingFolds();
    NothingHeld(k);
  }

  /** And the restarted state serves the log, showing every key shown before. */
  lemma DurableServes(d: Files, s: State)
    requires s.Live() && Resembles(d, s, s.flushed) && forall f :: f in s.files ==> f.path in d
    ensures s.flushed <= |s.log| && Restarted(d, s, s.flushed).Serving()
    ensures forall k :: s.Shown(k) ==> Restarted(d, s, s.flushed).Shown(k)
  {
    hide WellFormed, IsTable, Storable, Loaded, Fold, SoundLog, State.Ahead, LogHolds, GoodLog, Version, Model;
    var t := Restarted(d, s, s.flushed);
    forall f | f in s.files && f.path in s.disk ensures f.path in t.disk && t.disk[f.path] == s.disk[f.path] {
      assert EndsWith(f.path, DOT_SST);
    }
    ReadableKept(s.Snap(), t.Snap(), s.maxLevel);
  }

  /** So does the disk of a half-removed store, under the checkpoint from before the round. */
  lemma HalfRemovedResembles(s: State, c: nat, job: Job, d: Files, n: nat)
    requires s.Live() && Marked(s, c) && HalfRemoved(s, job, d, n)
    ensures Resembles(d, s, c)
  {
    hide Snapshot.Readable, Loaded, Fold, SoundLog, State.Ahead, LogHolds, GoodLog, Separate, Inputs;
    MarkedResembles(s, c);
  }

  /** Opening a half-removed store replays what opening it before the round would have replayed. A lookup returns what
      it would have returned then, or fails if and only if the replayed entries are not live for the key and a missing
      file is in the way. */
  lemma HalfRemovedAnswers(s: State, c: nat, job: Job, d: Files, n: nat, k: Str)
    requires s.Live() && Marked(s, c) && HalfRemoved(s, job, d, n)
    ensures Reopened(d, s.l, s.maxLevel, s.store) == Ok(Restarted(d, s, c))
    ensures Reopened(s.disk, s.l, s.maxLevel, s.store) == Ok(Restarted(s.disk, s, c))
    ensures var t := Restarted(d, s, c);
      && Searchable(t.disk, t.files, t.store)
      && Answer(t, k) == (if Visible(Lookup(t.mem, k)).None? && Unreadable(d, s.files, s.store, k) then Err(IoError)
                          else Answer(Restarted(s.disk, s, c), k))
  {
    hide HalfRemoved, State.Live, Version, Model, Lookup, Fold, Reopened, Searchable, Unreadable, Recalls, Answer,
        LogHolds, GoodLog, Loaded;
    HalfRemovedResembles(s, c, job, d, n);
    MarkedResembles(s, c);
    RestartAnswersExactly(d, s, c, k);
    RestartAnswersExactly(s.disk, s, c, k);
    NothingInTheWay(s.disk, s, k);
  }

  /** The log file is none of the files a search reads. */
  lemma LogIsNoTable(s: State, d: Files, k: Str)
    requires s.Live()
    ensures Unreadable(d[s.l.wal := Contents(d, s.l.wal)], s.files, s.store, k) <==> Unreadable(d, s.files, s.store, k)
  {
    hide Snapshot.Readable, Fold, SoundLog, State.Ahead, Holds, InRange, Outranks;
    var d' := d[s.l.wal := Contents(d, s.l.wal)];
    assert forall f :: f in s.files ==> (f.path in d' <==> f.path in d);
    if Unreadable(d', s.files, s.store, k) {
      var f :| Obstructs(d', s.files, s.store, k, f);
      assert Obstructs(d, s.files, s.store, k, f);
    }
    if Unreadable(d, s.files, s.store, k) {
      var f :| Obstructs(d, s.files, s.store, k, f);
      assert Obstructs(d', s.files, s.store, k, f);
    }
  }

  /** A store with nothing removed yet reads as before. */
  lemma NothingMissing(s: State, job: Job, d: Files, k: Str)
    requires HalfRemoved(s, job, d, 0)
    ensures !Unreadable(d, s.files, s.store, k)
  {
    hide Loaded, InRange, Holds;
    assert Inputs(job)[..0] == [];
  }

  /** A round leaves the checkpoint over the whole log. */
  lemma RoundMarks(s: State, job: Job, ops: seq<DiskOp>, s': State)
    requires s.Live() && Logged(s) && Compacts(s, job, ops, s') && FitsCheckpoint(RoundCheckpoint(s, s'.files))
    ensures s'.Live() && Marked(s', |s.log|) && s'.log == s.log && s'.flushed == s.flushed && s'.mem == s.mem
  {
    hide State.Live, Compacts, GoodLog, Records, Loaded, FitsCheckpoint, State.Durable, KeepsAnswer, State.Shown;
    LiveCounts(s);
    CompactKeeps(s, job, ops, s');
    CompactLeaves(s, job, ops, s');
    CompactIsDurableExactly(s, job, ops, s');
  }

  /** Opening a finished round replays nothing: its checkpoint names the last log entry although the memtable was not
      flushed. A key shown by the new SSTables is answered by the log exactly if the memtable added nothing to them. */
  lemma FinishedRoundAnswers(s: State, job: Job, ops: seq<DiskOp>, s': State, k: Str)
    requires s.Live() && Logged(s) && Compacts(s, job, ops, s') && FitsCheckpoint(RoundCheckpoint(s, s'.files))
    ensures s'.Live() && s'.flushed <= |s'.log| && s'.log == s.log
    ensures var t := Restarted(s'.disk, s', |s.log|);
      && Reopened(s'.disk, s'.l, s'.maxLevel, s'.store) == Ok(t) && Searchable(t.disk, t.files, t.store)
      && t.mem == [] && Answer(t, k) == Ok(Visible(Version(s'.files, s'.store, k)))
      && (s'.Shown(k) ==>
           (Answer(t, k) == Ok(Model(s.log, k)) <==>
            Lookup(s.mem, k).None? || Visible(Lookup(s.mem, k)) == Visible(Version(s'.files, s'.store, k))))
  {
    hide Compacts, State.Live, Version, Model, Lookup, Fold, Reopened, Searchable, Unreadable, Answer, LogHolds,
        GoodLog, Loaded, FitsCheckpoint, Records;
    RoundMarks(s, job, ops, s');
    MarkedResembles(s', |s.log|);
    RestartAnswersExactly(s'.disk, s', |s.log|, k);
    NothingInTheWay(s'.disk, s', k);
    LiveCounts(s');
    assert s.log[|s.log|..] == [] && s.log[s'.flushed..|s.log|] == s.log[s'.flushed..];
    NothingFolds();
    NothingHeld(k);
    LiveFolds(s');
  }

  lemma LiveFolds(s: State)
    requires s.Live()
    ensures s.flushed <= |s.log| && s.mem == Fold(s.log[s.flushed..])
  {
  }

  lemma LiveLevels(s: State)
    requires s.Live()
    ensures LevelsInRange(s.files, s.maxLevel)
  {
    hide WellFormed, IsTable, Storable, Fold, SoundLog, State.Ahead, Separate;
    WellFormedLevels(s.files, s.store, s.maxLevel);
  }
}
