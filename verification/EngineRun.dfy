/** Whole runs of the engine: any script of puts, deletes, flushes, compactions and lookups, from an empty disk, and
    what opening the disk finds after a crash at any point of it. */
module EngineRuns {
  import opened Common
  import opened Bytes
  import opened Serializer
  import opened Tables
  import opened Blocks
  import opened SSTableFormat
  import opened SkipLists
  import opened Disks
  import opened Catalogue
  import opened CompactionTheory
  import opened Compactions
  import opened Searches
  import opened Wals
  import opened Checkpoints
  import opened EngineTheory
  import opened EngineStates
  import opened EngineSteps
  import opened EngineLimits
  import opened EngineCrashes
  import opened Memtables
  import opened Engines

  function AllOps(runs: seq<seq<DiskOp>>): seq<DiskOp> {
    if runs == [] then [] else AllOps(runs[..|runs| - 1]) + runs[|runs| - 1]
  }

  lemma AllOpsMore(runs: seq<seq<DiskOp>>, ops: seq<DiskOp>)
    ensures AllOps(runs + [ops]) == AllOps(runs) + ops
  {
    assert (runs + [ops])[..|runs|] == runs;
  }

  /** Every listed file of a live state can be searched, and the catalogue can be compacted. */
  lemma LiveIsUsable(s: State)
    requires s.Live()
    ensures Searchable(s.disk, s.files, s.store) && UsableFilters(s.disk, s.files)
    ensures s.Snap().Valid(s.l.sstDir, s.maxLevel)
  {
    hide UsableFilters, Searchable, Snapshot.Readable, Snapshot.Numbered, State.Ahead, SoundLog, Fold, Separate;
    ServingSearchable(s);
    SearchableThere(s.disk, s.files, s.store);
    TablesHaveFilters(s.disk, s.files, s.store);
    LiveIsValid(s);
  }

  lemma SearchableThere(d: Files, files: seq<Meta>, store: Store)
    requires Searchable(d, files, store)
    ensures TablesThere(d, files, store)
  {
  }

  /** One command. */
  method Do(engine: StorageEngine, c: Command)
    returns (answer: Result<Option<seq<Byte>>>, ghost job: Job, ghost ops: seq<DiskOp>)
    requires engine.Valid() && engine.Now().Live() && engine.Now().Bounded() && Sound(c)
    requires c.CompactCommand? ==> engine.maxLevel >= 2
    modifies engine, engine.wal, engine.manager, engine.disk, engine.active.Repr()
    ensures engine.Valid() && engine.Now().Bounded() && engine.disk.trace == old(engine.disk.trace) + ops
    ensures forall o :: o in engine.active.Repr() ==> o in old(engine.active.Repr()) || fresh(o)
    ensures Next(old(engine.Now()), c, job, ops, engine.Now())
    ensures c.GetCommand? ==> answer == Answer(engine.Now(), c.key)
  {
    hide State.Live, SoundEntry, Writes, Flushed, FlushRun, Compacts, Idle, Searchable, UsableFilters, Fits, Appended,
        TotalSize, Snapshot.Valid, MemTable.Valid, MemTable.Entries, Answer;
    ghost var s := engine.Now();
    LiveIsUsable(s);
    BoundedFits(s);
    SSTableFormat.EmptySize();
    answer, job, ops := Ok(None), Job(0, [], [], [], [], false), [];
    match c {
      case PutCommand(k, v) =>
        AppendedFits(s, Entered(c, s.nextLsn)[0]);
        ops := engine.Put(k, v);
      case DeleteCommand(k) =>
        AppendedFits(s, Entered(c, s.nextLsn)[0]);
        ops := engine.Delete(k);
      case FlushCommand =>
        ops := engine.FlushMemTable();
      case CompactCommand =>
        job, ops := engine.CompactionRound();
      case GetCommand(k) =>
        answer := engine.Get(k);
    }
  }

  /** A script can run: entries SSTables can hold, room in the counters, and two levels if it compacts. */
  ghost predicate Runnable(s: State, script: seq<Command>) {
    && s.Live() && s.Bounded() && Room(s, |script|)
    && forall i :: 0 <= i < |script| ==> Sound(script[i]) && (script[i].CompactCommand? ==> s.maxLevel >= 2)
  }

  /** Runs a script. Every lookup in it returns the last write to its key if and only if `Right` holds at that point. */
  method Run(engine: StorageEngine, script: seq<Command>)
    returns (answers: seq<Result<Option<seq<Byte>>>>, ghost states: seq<State>, ghost jobs: seq<Job>,
             ghost runs: seq<seq<DiskOp>>)
    requires engine.Valid() && Runnable(engine.Now(), script)
    modifies engine, engine.wal, engine.manager, engine.disk, engine.active.Repr()
    ensures engine.Valid() && Started(states, script, jobs, runs)
    ensures states[0] == old(engine.Now()) && states[|script|] == engine.Now() && |answers| == |script|
    ensures engine.disk.trace == old(engine.disk.trace) + AllOps(runs)
    ensures forall i :: 0 <= i < |script| && script[i].GetCommand? ==> answers[i] == Answer(states[i], script[i].key)
    ensures |states[0].log| + |script| < U64_LIMIT - 1
    ensures forall i :: 0 <= i < |script| && script[i].GetCommand? ==>
      states[i].flushed <= |states[i].log| &&
      (answers[i] == Ok(Model(LogAfter(states[0].log, script, i), script[i].key)) <==> Right(states[i], script[i].key))
  {
    hide State.Live, State.Bounded, Sound, Room, Next, Answer, Right, Model, StorageEngine.Valid, StorageEngine.Now,
        MemTable.Repr, LogAfter, AllOps, IsRun;
    ghost var before := engine.Now();
    answers, states, jobs, runs := [], [before], [], [];
    NoOps();
    RunStarts(before, script);
    var i := 0;
    while i < |script|
      invariant 0 <= i <= |script| && |answers| == i && engine.Valid() && Runnable(before, script)
      invariant Started(states, script[..i], jobs, runs) && |states| == i + 1 && states[0] == before
          && states[i] == engine.Now()
      invariant engine.disk.trace == old(engine.disk.trace) + AllOps(runs)
      invariant forall o :: o in engine.active.Repr() ==> o in old(engine.active.Repr()) || fresh(o)
      invariant forall n :: 0 <= n < i && script[n].GetCommand? ==> answers[n] == Answer(states[n], script[n].key)
    {
      PrefixKeeps(before, script, states, jobs, runs, i);
      MaxLevelStays(engine);
      var answer;
      ghost var job, ops;
      answer, job, ops := Do(engine, script[i]);
      AllOpsMore(runs, ops);
      Longer(states, script[..i], jobs, runs, script[i], job, ops, engine.Now());
      assert script[..i + 1] == script[..i] + [script[i]];
      assert old(engine.disk.trace) + AllOps(runs) + ops == old(engine.disk.trace) + (AllOps(runs) + ops);
      LookupLeaves(states[i], script[i], job, ops, engine.Now());
      answers, states, jobs, runs := answers + [answer], states + [engine.Now()], jobs + [job], runs + [ops];
      i := i + 1;
    }
    assert script[..i] == script;
    RunKeeps(states, script, jobs, runs, 0);
    forall n | 0 <= n < |script| && script[n].GetCommand? ensures states[n].flushed <= |states[n].log| &&
      (answers[n] == Ok(Model(LogAfter(before.log, script, n), script[n].key)) <==> Right(states[n], script[n].key))
    {
      ScriptAnswers(states, script, jobs, runs, n, script[n].key);
    }
  }

  lemma NoOps()
    ensures AllOps([]) == []
  {
  }

  lemma LookupLeaves(s: State, c: Command, job: Job, ops: seq<DiskOp>, s': State)
    requires Next(s, c, job, ops, s')
    ensures c.GetCommand? ==> s' == s
  {
  }

  lemma MaxLevelStays(engine: StorageEngine)
    ensures engine.Now().maxLevel == engine.maxLevel
  {
  }

  lemma RunStarts(s: State, script: seq<Command>)
    requires Runnable(s, script)
    ensures Started([s], script[..0], [], [])
  {
    hide State.Live, State.Bounded, Sound;
  }

  /** Before each command. */
  lemma PrefixKeeps(before: State, script: seq<Command>, states: seq<State>, jobs: seq<Job>, runs: seq<seq<DiskOp>>,
      i: nat)
    requires Runnable(before, script) && i < |script| && Started(states, script[..i], jobs, runs) && states[0] == before
    ensures |states| == i + 1 && states[i].Live() && states[i].maxLevel == before.maxLevel && states[i].Bounded()
    ensures Sound(script[i]) && Room(before, i + 1) && (script[i].CompactCommand? ==> before.maxLevel >= 2)
  {
    hide State.Live, State.Bounded, Sound, Next;
    RunKeeps(states, script[..i], jobs, runs, i);
  }

  // ---- from an empty disk, and after a crash ----

  /** Opens an empty disk and runs a script on it. */
  method Session(disk: Disk, dataDir: Str, walDir: Str, sstDir: Str, maxLevel: int, sizes: Sizes, memtableSize: nat,
      script: seq<Command>)
    returns (answers: seq<Result<Option<seq<Byte>>>>, ghost states: seq<State>, ghost jobs: seq<Job>,
             ghost runs: seq<seq<DiskOp>>)
    requires sizes.node >= 9 && memtableSize <= COMFORTABLE_SIZE - ENTRY_LIMIT && 0 < maxLevel
    requires disk.files == map[] && |script| + 1 < U64_LIMIT
    requires forall i :: 0 <= i < |script| ==> Sound(script[i]) && (script[i].CompactCommand? ==> maxLevel >= 2)
    modifies disk
    ensures Started(states, script, jobs, runs) && Begun(states[0], LayoutOf(dataDir, walDir, sstDir), maxLevel)
    ensures states[|script|].disk == disk.files && |answers| == |script|
    ensures disk.trace == old(disk.trace) + RecoveryOps(states[0].l) + AllOps(runs)
    ensures forall i :: 0 <= i < |script| && script[i].GetCommand? ==>
      states[i].flushed <= |states[i].log| &&
      (answers[i] == Ok(Model(LogAfter([], script, i), script[i].key)) <==> Right(states[i], script[i].key)) &&
      (answers[i] == Ok(Held(MapAfter(map[], script, i), script[i].key)) <==> Right(states[i], script[i].key))
  {
    hide State.Live, State.Durable, State.Bounded, State.Fitting, State.Shown, Sound, Reopened, Started, Right, Model,
        LogAfter, AllOps, Separate, StorageEngine.Valid, MemTable.Repr, MapAfter, Held, Replayed;
    LayoutsSeparate(dataDir, walDir, sstDir);
    EmptyDiskStarts(LayoutOf(dataDir, walDir, sstDir), maxLevel);
    var first := StorageEngine.Open(disk, dataDir, walDir, sstDir, maxLevel, sizes, memtableSize, map[]);
    var engine := first.value;
    answers, states, jobs, runs := Run(engine, script);
    forall i | 0 <= i < |script| && script[i].GetCommand?
      ensures Model(LogAfter([], script, i), script[i].key) == Held(MapAfter(map[], script, i), script[i].key)
    {
      ModelIsMap(LogAfter([], script, i), script[i].key);
      LogIsMap([], script, i);
      NothingReplayed();
    }
  }

  /** Opens what a crash left of `ops`. Every key the SSTables showed is looked up in the log from before `ops` or in
      the log from after. */
  method Reopen(disk: Disk, dataDir: Str, walDir: Str, sstDir: Str, maxLevel: int, sizes: Sizes, memtableSize: nat,
      ghost s: State, ghost ops: seq<DiskOp>, ghost log': seq<WalEntry>, key: Str)
    returns (r: Result<StorageEngine>, answer: Result<Option<seq<Byte>>>, ghost t: State)
    requires sizes.node >= 9 && memtableSize <= COMFORTABLE_SIZE - ENTRY_LIMIT && 0 < maxLevel
    requires s.l == LayoutOf(dataDir, walDir, sstDir) && s.maxLevel == maxLevel && s.flushed <= |s.log|
    requires CrashSafe(s, ops, log') && CrashState(s.disk, ops, disk.files)
    modifies disk
    ensures r.Ok? && fresh(r.value) && r.value.Valid() && r.value.Now() == t && t.Serving()
    ensures (t.log == s.log || t.log == log') && forall k :: s.Shown(k) ==> t.Shown(k)
    ensures answer == Answer(t, key) && (answer == Ok(Model(t.log, key)) <==> Right(t, key))
  {
    hide Recovers, State.Serving, State.Shown, Model, Reopened, StorageEngine.Valid, MemTable.Repr, Answer, Right,
        CrashState, Searchable, UsableFilters, Separate;
    ghost var d := disk.files;
    assert Recoverable(d, s.l, maxLevel, s.Keys(), s.log) || Recoverable(d, s.l, maxLevel, s.Keys(), log');
    ghost var log := if Recoverable(d, s.l, maxLevel, s.Keys(), s.log) then s.log else log';
    ghost var cp, store :| Recovers(d, s.l, maxLevel, s.Keys(), log, cp, store);
    LayoutsSeparate(dataDir, walDir, sstDir);
    ReopenedServes(d, s.l, maxLevel, s.Keys(), log, cp, store);
    r := StorageEngine.Open(disk, dataDir, walDir, sstDir, maxLevel, sizes, memtableSize, store);
    t := r.value.Now();
    ServingSearchable(t);
    SearchableThere(t.disk, t.files, t.store);
    TablesHaveFilters(t.disk, t.files, t.store);
    answer := r.value.Get(key);
    AnswerExactly(t, key);
  }

  /** Opens what a crash anywhere in a run from an empty disk left, and looks a key up. The crash is inside command `i`,
      whatever it is, or right before or behind it, and the commands before it are any. The disk opens to `u`, the state
      before the command, that state with the command's entry, or the state after it, under a checkpoint over its first
      `c` log entries. If no compaction changed the answer for the key, the lookup returns the last write in the log of
      `u` if and only if `Recalls` holds. On a durable state, outside a compaction, the engine serves that log. */
  method Survive(disk: Disk, dataDir: Str, walDir: Str, sstDir: Str, maxLevel: int, sizes: Sizes, memtableSize: nat,
      ghost states: seq<State>, ghost script: seq<Command>, ghost jobs: seq<Job>, ghost runs: seq<seq<DiskOp>>,
      ghost i: nat, key: Str)
    returns (r: Result<StorageEngine>, answer: Result<Option<seq<Byte>>>, ghost u: State, ghost c: nat)
    requires sizes.node >= 9 && memtableSize <= COMFORTABLE_SIZE - ENTRY_LIMIT && 0 < maxLevel
    requires Recorded(states, script, jobs, runs) && Begun(states[0], LayoutOf(dataDir, walDir, sstDir), maxLevel)
    requires i < |script| && CrashState(states[i].disk, runs[i], disk.files)
    modifies disk
    ensures Landed(states[i], script[i], states[i + 1], MarkAt(states, script, 0, i), u, c) && u.flushed <= c <= |u.log|
    ensures |script| < U64_LIMIT - 1 && (u.log == LogAfter([], script, i) || u.log == LogAfter([], script, i + 1))
    ensures r.Ok? && fresh(r.value) && r.value.Valid() && r.value.Now() == Restarted(old(disk.files), u, c)
    ensures !Merges(states[i], script[i]) ==> forall f :: f in u.files ==> f.path in old(disk.files)
    ensures (forall n :: 0 <= n <= i ==> Spares(states[n], script[n], jobs[n], key)) ==> u.Shown(key)
    ensures answer == Answer(r.value.Now(), key)
    ensures u.Shown(key) ==> (answer == Ok(Model(u.log, key)) <==> Recalls(old(disk.files), u, c, key))
    ensures states[i].Durable() && !Merges(states[i], script[i]) ==>
      && c == u.flushed && r.value.Now().Serving() && (u.Shown(key) ==> r.value.Now().Shown(key))
      && (answer == Ok(Model(u.log, key)) <==> Right(r.value.Now(), key))
  {
    hide State.Live, State.Durable, State.Bounded, State.Fitting, State.Shown, Sound, Good, Next, Answer, Model,
        StorageEngine.Valid, MemTable.Repr, CrashState, Merges, Spares, Room, Logged, State.Serving, Marked, Resembles,
        Recalls, Reopened, Searchable, UsableFilters, Landed, Fold, Right;
    ghost var d, mark := disk.files, MarkAt(states, script, 0, i);
    RunStartsMarked(states[0]);
    RunMarks(states, script, jobs, runs, 0, i);
    RunStep(states, script, jobs, runs, i);
    RunKeeps(states, script, jobs, runs, i);
    RunKeeps(states, script, jobs, runs, i + 1);
    RunShowsExactly(states, script, jobs, runs, i, key);
    u, c := NextCrash(states[i], script[i], jobs[i], runs[i], states[i + 1], mark, d);
    LandedKeeps(states[i], script[i], jobs[i], runs[i], states[i + 1], mark, u, c);
    r, answer := OpenAndGet(disk, dataDir, walDir, sstDir, maxLevel, sizes, memtableSize, u, c, key);
    if states[i].Durable() && !Merges(states[i], script[i]) {
      DurableLands(states[i], script[i], states[i + 1], mark, u, c);
      DurableServes(d, u);
      AnswerExactly(Restarted(d, u, c), key);
    }
  }

  lemma RunStartsMarked(s: State)
    requires s.Consistent() && s.log == []
    ensures Marked(s, 0)
  {
    hide GoodLog, Records, Loaded, State.Live;
    LiveCounts(s);
  }

  /** Opens a disk that resembles a state, and looks a key up. */
  method OpenAndGet(disk: Disk, dataDir: Str, walDir: Str, sstDir: Str, maxLevel: int, sizes: Sizes, memtableSize: nat,
      ghost s: State, ghost c: nat, key: Str)
    returns (r: Result<StorageEngine>, answer: Result<Option<seq<Byte>>>)
    requires sizes.node >= 9 && memtableSize <= COMFORTABLE_SIZE - ENTRY_LIMIT && 0 < maxLevel
    requires s.l == LayoutOf(dataDir, walDir, sstDir) && s.maxLevel == maxLevel
    requires s.Live() && Resembles(disk.files, s, c)
    modifies disk
    ensures s.flushed <= c <= |s.log| && r.Ok? && fresh(r.value) && r.value.Valid()
    ensures r.value.Now() == Restarted(old(disk.files), s, c) && answer == Answer(r.value.Now(), key)
    ensures s.Shown(key) ==> (answer == Ok(Model(s.log, key)) <==> Recalls(old(disk.files), s, c, key))
  {
    hide State.Live, State.Shown, Model, Reopened, StorageEngine.Valid, MemTable.Repr, Answer, Recalls, Searchable,
        UsableFilters, LogHolds, GoodLog, Loaded, Fold;
    RestartAnswersExactly(disk.files, s, c, key);
    r := StorageEngine.Open(disk, dataDir, walDir, sstDir, maxLevel, sizes, memtableSize, s.store);
    ghost var t := r.value.Now();
    SearchableThere(t.disk, t.files, t.store);
    TablesHaveFilters(t.disk, t.files, t.store);
    answer := r.value.Get(key);
  }

  /** Opens what a crash inside a compaction round left, and looks a key up, whatever checkpoint there was before the
      round. Either the round had not written its own: the answer is that of a restart before the round, or an error if
      a removed input is in the way. Or it had: the answer is that of the new SSTables, without the unflushed writes. */
  method ReopenAfterRound(disk: Disk, dataDir: Str, walDir: Str, sstDir: Str, maxLevel: int, sizes: Sizes,
      memtableSize: nat, ghost s: State, ghost c: nat, ghost job: Job, ghost ops: seq<DiskOp>, ghost s': State,
      key: Str)
    returns (answer: Result<Option<seq<Byte>>>)
    requires sizes.node >= 9 && memtableSize <= COMFORTABLE_SIZE - ENTRY_LIMIT && 0 < maxLevel
    requires s.l == LayoutOf(dataDir, walDir, sstDir) && s.maxLevel == maxLevel && s.Live() && Marked(s, c)
    requires Compacts(s, job, ops, s') && FitsCheckpoint(RoundCheckpoint(s, s'.files))
    requires CrashState(s.disk, ops, disk.files)
    modifies disk
    ensures s'.flushed <= |s'.log|
    ensures
      || (&& (exists n :: HalfRemoved(s, job, old(disk.files), n))
          && answer == (if Visible(Lookup(Fold(s.log[c..]), key)).None?
                             && Unreadable(old(disk.files), s.files, s.store, key)
                        then Err(IoError) else Answer(Restarted(s.disk, s, c), key)))
      || (&& old(disk.files) == s'.disk && answer == Ok(Visible(Version(s'.files, s'.store, key)))
          && (s'.Shown(key) ==>
               (answer == Ok(Model(s.log, key)) <==>
                Lookup(s.mem, key).None? || Visible(Lookup(s.mem, key)) == Visible(Version(s'.files, s'.store, key)))))
  {
    hide State.Live, State.Durable, Compacts, FitsCheckpoint, CrashState, HalfRemoved, Lookup, Version, Model,
        State.Shown, Answer, Reopened, Unreadable, StorageEngine.Valid, MemTable.Repr, Resembles, Recalls, Fold, Loaded,
        GoodLog, Records, Searchable;
    ghost var d := disk.files;
    RoundCrash(s, job, ops, s', d);
    FinishedRoundAnswers(s, job, ops, s', key);
    ghost var half := exists n :: HalfRemoved(s, job, d, n);
    ghost var u, cu := s', |s.log|;
    if half {
      ghost var n :| HalfRemoved(s, job, d, n);
      HalfRemovedAnswers(s, c, job, d, n, key);
      HalfRemovedResembles(s, c, job, d, n);
      u, cu := s, c;
    } else {
      RoundMarks(s, job, ops, s');
      MarkedResembles(s', |s.log|);
      CompactLeaves(s, job, ops, s');
    }
    var r;
    r, answer := OpenAndGet(disk, dataDir, walDir, sstDir, maxLevel, sizes, memtableSize, u, cu, key);
  }
}
