/** Runs of the engine as sequences of states: any script of writes, flushes, compactions and lookups, what every
    prefix of it answers, and what a crash at any point leaves. */
module EngineSteps {
  import opened Common
  import opened Bytes
  import opened Serializer
  import opened Tables
  import opened Blocks
  import opened SSTableFormat
  import opened Disks
  import opened Paths
  import opened Merge
  import opened Catalogue
  import opened CompactionTheory
  import opened Compactions
  import opened Wals
  import opened Checkpoints
  import opened EngineTheory
  import opened EngineStates

  datatype Command =
    | PutCommand(key: Str, value: seq<Byte>)
    | DeleteCommand(key: Str)
    | FlushCommand
    | CompactCommand
    | GetCommand(key: Str)

  /** What a command writes to the log. */
  function Entered(c: Command, lsn: U64): seq<WalEntry> {
    match c
    case PutCommand(k, v) => [WalEntry(lsn, PUT, k, v)]
    case DeleteCommand(k) => [WalEntry(lsn, DELETE, k, [])]
    case _ => []
  }

  /** What a command does. */
  ghost predicate Next(s: State, c: Command, job: Job, ops: seq<DiskOp>, s': State) {
    if Entered(c, s.nextLsn) != [] then Writes(s, Entered(c, s.nextLsn)[0], ops, s')
    else if c.FlushCommand? && s.mem != [] then s' == Flushed(s) && ops == FlushRun(s)
    else if Merges(s, c) then Compacts(s, job, ops, s')
    else s' == s && ops == []
  }

  /** A compaction actually runs. */
  ghost predicate Merges(s: State, c: Command) {
    c.CompactCommand? && !Idle(s)
  }

  /** An entry of a size SSTables can hold. */
  ghost predicate Sound(c: Command) {
    forall lsn: U64, e :: e in Entered(c, lsn) ==> SoundEntry(e)
  }

  /** An entry of a size the log reads back. */
  ghost predicate Good(c: Command) {
    forall lsn: U64, e :: e in Entered(c, lsn) ==> GoodEntry(e)
  }

  /** Neither counter wraps around in `n` commands. */
  ghost predicate Room(s: State, n: nat) {
    s.nextLsn + n < U64_LIMIT && s.nextSst + n < U64_LIMIT
  }

  // ---- one command ----

  /** A write of an entry that fits keeps the invariant and every key the SSTables show. */
  lemma WriteKeeps(s: State, e: WalEntry, ops: seq<DiskOp>, s': State)
    requires s.Live() && s.Bounded() && Room(s, 1) && e.lsn == s.nextLsn && SoundEntry(e) && Writes(s, e, ops, s')
    ensures s'.Live() && s'.l == s.l && s'.maxLevel == s.maxLevel && s'.log == s.log + [e]
        && s'.nextSst <= s.nextSst + 1
    ensures forall k :: s.Shown(k) ==> s'.Shown(k)
  {
    hide SoundEntry, Record, Upsert, State.Shown, Fits, State.Ahead, State.Serving, Separate, TotalSize, EncodedSize,
        EncodeTable, EncodeCheckpoint, Apply;
    AppendKeeps(s, e);
    AppendedFits(s, e);
    var s1 := Appended(s, e);
    if s' != s1 {
      FlushKeeps(s1);
    }
  }

  lemma AppendedFits(s: State, e: WalEntry)
    requires s.Bounded() && SoundEntry(e)
    ensures Fits(Appended(s, e).mem)
  {
    hide Record, Upsert, Fits, TotalSize, Recordable;
    UpsertSize(s.mem, AsEntry(e));
    ComfortableTableFits(Appended(s, e).mem);
  }

  /** Every command keeps the invariant. A key the SSTables showed is shown afterwards unless a compaction ran that
      changed its answer. */
  lemma NextKeeps(s: State, c: Command, job: Job, ops: seq<DiskOp>, s': State)
    requires s.Live() && s.Bounded() && Room(s, 1) && Sound(c) && Next(s, c, job, ops, s')
    ensures s'.Live() && s'.l == s.l && s'.maxLevel == s.maxLevel && s'.nextSst <= s.nextSst + 1
    ensures s'.log == s.log + Entered(c, s.nextLsn)
    ensures forall k :: s.Shown(k) ==> (s'.Shown(k) <==> Spares(s, c, job, k))
  {
    hide SoundEntry, Upsert, State.Shown, Fits, State.Ahead, State.Serving, Separate, TotalSize, Idle, KeepsAnswer,
        Writes, Compacts, EncodeTable, EncodeCheckpoint;
    if Entered(c, s.nextLsn) != [] {
      WriteKeeps(s, Entered(c, s.nextLsn)[0], ops, s');
    } else if c.FlushCommand? && s.mem != [] {
      ComfortableTableFits(s.mem);
      FlushKeeps(s);
    } else if Merges(s, c) {
      CompactKeeps(s, job, ops, s');
      CompactLeaves(s, job, ops, s');
    }
  }

  /** The command leaves the answer of the SSTables for `k` alone. */
  ghost predicate Spares(s: State, c: Command, job: Job, k: Str) {
    Merges(s, c) ==> KeepsAnswer(s.files, s.store, job, k)
  }

  /** Compactions above level 0 spare every key but the empty one. So does one at level 0 if newer files start at
      smaller keys. */
  lemma OrderedSpares(s: State, job: Job, ops: seq<DiskOp>, s': State, k: Str)
    requires s.Serving() && Compacts(s, job, ops, s') && k != [] && (job.level >= 1 || Level0Ordered(s.files, s.store))
    ensures KeepsAnswer(s.files, s.store, job, k)
  {
    hide WellFormed, IsTable, SoundLog, Storable, Fold, OutputsNewer, RemovedAll, NamedOutputs, Snapshot.Valid,
        Triggered, Level0Ordered, RoundOps, CompactOps, BySmallest, NewerFirst;
    if job.level == 0 {
      SourceListed(s, job, ops, s');
      OrderedIsNewerFirst(s.files, s.store, s.maxLevel, job.source);
      NewerFirstKeeps(s.files, s.store, job, k);
    }
  }

  lemma SourceListed(s: State, job: Job, ops: seq<DiskOp>, s': State)
    requires Compacts(s, job, ops, s')
    ensures DistinctPaths(job.source) && forall f :: f in job.source ==> f in s.files && f.level == job.level
  {
    hide OutputsNewer, RemovedAll, EncodeCheckpoint, Triggered, BySmallest, CompactOps, Snapshot.Valid, RoundOps,
        NamedOutputs, WellFormed, Renumbered, TablesOf, Produced, IsMerge;
    var inputs := Inputs(job);
    assert inputs[..|job.source|] == job.source;
    assert forall i :: 0 <= i < |job.source| ==> inputs[i] == job.source[i];
  }

  // ---- runs ----

  ghost predicate IsRun(states: seq<State>, script: seq<Command>, jobs: seq<Job>, runs: seq<seq<DiskOp>>) {
    && |states| == |script| + 1 && |jobs| == |runs| == |script|
    && forall i :: 0 <= i < |script| ==> Next(states[i], script[i], jobs[i], runs[i], states[i + 1])
  }

  /** A run that starts well, of entries that fit, with room in the counters. */
  ghost predicate Started(states: seq<State>, script: seq<Command>, jobs: seq<Job>, runs: seq<seq<DiskOp>>) {
    && IsRun(states, script, jobs, runs) && states[0].Live() && Room(states[0], |script|)
    && (forall i :: 0 <= i < |states| ==> states[i].Bounded()) && forall i :: 0 <= i < |script| ==> Sound(script[i])
  }

  /** One more command. */
  lemma Longer(states: seq<State>, script: seq<Command>, jobs: seq<Job>, runs: seq<seq<DiskOp>>, c: Command, job: Job,
      ops: seq<DiskOp>, s': State)
    requires Started(states, script, jobs, runs) && Next(states[|script|], c, job, ops, s') && Sound(c) && s'.Bounded()
    requires Room(states[0], |script| + 1)
    ensures Started(states + [s'], script + [c], jobs + [job], runs + [ops])
  {
    hide Next, State.Live, Room, State.Bounded, Sound;
    var script', states', jobs', runs' := script + [c], states + [s'], jobs + [job], runs + [ops];
    forall n | 0 <= n < |script'| ensures Next(states'[n], script'[n], jobs'[n], runs'[n], states'[n + 1]) {
      if n < |script| {
        assert Next(states[n], script[n], jobs[n], runs[n], states[n + 1]);
      }
    }
  }

  /** The log after the first `n` commands of a script. */
  ghost function LogAfter(log: seq<WalEntry>, script: seq<Command>, n: nat): (r: seq<WalEntry>)
    requires n <= |script| && |log| + |script| < U64_LIMIT - 1
    ensures |log| <= |r| <= |log| + n
  {
    if n == 0 then log else
    var before := LogAfter(log, script, n - 1);
    before + Entered(script[n - 1], |before| + 1)
  }

  /** The plain map after the first `n` commands of a script. */
  ghost function MapAfter(m: map<Str, seq<Byte>>, script: seq<Command>, n: nat): map<Str, seq<Byte>>
    requires n <= |script|
  {
    if n == 0 then m else MapDone(MapAfter(m, script, n - 1), script[n - 1])
  }

  ghost function MapDone(m: map<Str, seq<Byte>>, c: Command): map<Str, seq<Byte>> {
    match c
    case PutCommand(k, v) => m[k := v]
    case DeleteCommand(k) => m - {k}
    case _ => m
  }

  lemma {:induction false} LogIsMap(log: seq<WalEntry>, script: seq<Command>, n: nat)
    requires n <= |script| && |log| + |script| < U64_LIMIT - 1
    ensures Replayed(LogAfter(log, script, n)) == MapAfter(Replayed(log), script, n)
  {
    hide Replayed;
    if n > 0 {
      LogIsMap(log, script, n - 1);
      ReplayedEntered(LogAfter(log, script, n - 1), script[n - 1]);
    }
  }

  lemma ReplayedEntered(log: seq<WalEntry>, c: Command)
    requires |log| + 1 < U64_LIMIT
    ensures Replayed(log + Entered(c, |log| + 1)) == MapDone(Replayed(log), c)
  {
    hide Replayed;
    var more := Entered(c, |log| + 1);
    if c.PutCommand? || c.DeleteCommand? {
      ReplayedMore(log, more[0]);
    } else {
      assert log + more == log;
    }
  }

  lemma ReplayedMore(log: seq<WalEntry>, e: WalEntry)
    ensures Replayed(log + [e]) == if e.kind == PUT then Replayed(log)[e.key := e.value] else Replayed(log) - {e.key}
  {
    assert (log + [e])[..|log|] == log;
  }

  /** Every state of a run keeps the invariant and stands for the log of the commands so far. */
  lemma {:induction false} RunKeeps(states: seq<State>, script: seq<Command>, jobs: seq<Job>, runs: seq<seq<DiskOp>>,
      n: nat)
    requires Started(states, script, jobs, runs) && n <= |script|
    ensures |states[0].log| + |script| < U64_LIMIT - 1 && states[n].Live() && Room(states[n], |script| - n)
    ensures states[n].log == LogAfter(states[0].log, script, n)
    ensures states[n].l == states[0].l && states[n].maxLevel == states[0].maxLevel
  {
    hide Next, State.Live, State.Bounded, Sound;
    LiveCounts(states[0]);
    if n > 0 {
      RunKeeps(states, script, jobs, runs, n - 1);
      var s, c := states[n - 1], script[n - 1];
      LiveCounts(s);
      assert s.Bounded() && Sound(c) && Next(s, c, jobs[n - 1], runs[n - 1], states[n - 1 + 1]);
      NextKeeps(s, c, jobs[n - 1], runs[n - 1], states[n]);
      LiveCounts(states[n]);
    }
  }

  /** After every prefix of a script, a lookup returns the last write to its key if and only if `Right` holds. */
  lemma ScriptAnswers(states: seq<State>, script: seq<Command>, jobs: seq<Job>, runs: seq<seq<DiskOp>>, n: nat, k: Str)
    requires Started(states, script, jobs, runs) && n <= |script|
    ensures |states[0].log| + |script| < U64_LIMIT - 1 && states[n].flushed <= |states[n].log|
    ensures Answer(states[n], k) == Ok(Model(LogAfter(states[0].log, script, n), k)) <==> Right(states[n], k)
  {
    hide Next, State.Live, State.Bounded, Sound, Room, Right, Answer, Model, State.Serving;
    RunKeeps(states, script, jobs, runs, n);
    LiveCounts(states[n]);
    LiveServes(states[n]);
    AnswerExactly(states[n], k);
  }

  /** The same against the plain map of the script's own commands. */
  lemma ScriptAnswersMap(states: seq<State>, script: seq<Command>, jobs: seq<Job>, runs: seq<seq<DiskOp>>, n: nat,
      k: Str)
    requires Started(states, script, jobs, runs) && n <= |script|
    ensures states[n].flushed <= |states[n].log|
    ensures Answer(states[n], k) == Ok(Held(MapAfter(Replayed(states[0].log), script, n), k)) <==> Right(states[n], k)
  {
    var log := states[0].log;
    hide Right, Answer, Model, Replayed, Held, Started, MapAfter, LogAfter;
    ScriptAnswers(states, script, jobs, runs, n, k);
    ModelIsMap(LogAfter(log, script, n), k);
    LogIsMap(log, script, n);
  }

  /** A key the SSTables show at the start is shown after every prefix if and only if every compaction spares it. */
  lemma {:induction false} RunShowsExactly(states: seq<State>, script: seq<Command>, jobs: seq<Job>,
      runs: seq<seq<DiskOp>>, n: nat, k: Str)
    requires Started(states, script, jobs, runs) && n <= |script|
    ensures forall i :: 0 <= i < |states| ==> states[i].flushed <= |states[i].log|
    ensures states[0].Shown(k) ==>
      ((forall i :: 0 <= i <= n ==> states[i].Shown(k)) <==>
       (forall i :: 0 <= i < n ==> Spares(states[i], script[i], jobs[i], k)))
  {
    hide Next, State.Live, State.Bounded, Sound, State.Shown, Spares, Room;
    forall i | 0 <= i < |states| ensures states[i].flushed <= |states[i].log| {
      RunKeeps(states, script, jobs, runs, i);
      LiveCounts(states[i]);
    }
    if n > 0 {
      RunShowsExactly(states, script, jobs, runs, n - 1, k);
      var s, c := states[n - 1], script[n - 1];
      RunKeeps(states, script, jobs, runs, n - 1);
      StillRoom(s, |script| - (n - 1));
      assert s.Bounded() && Sound(c) && Next(s, c, jobs[n - 1], runs[n - 1], states[n - 1 + 1]);
      NextKeeps(s, c, jobs[n - 1], runs[n - 1], states[n]);
      assert s.Shown(k) ==> (states[n].Shown(k) <==> Spares(s, c, jobs[n - 1], k));
    }
  }

  lemma StillRoom(s: State, n: nat)
    requires Room(s, n) && n > 0
    ensures Room(s, 1)
  {
  }

  /** So a key all compactions spare is answered by its last write after every prefix, unless the memtable holds a
      tombstone for it over a live SSTable version. */
  lemma SparedAnswers(states: seq<State>, script: seq<Command>, jobs: seq<Job>, runs: seq<seq<DiskOp>>, n: nat, k: Str)
    requires Started(states, script, jobs, runs) && n <= |script|
    requires states[0].flushed <= |states[0].log| && states[0].Shown(k)
    requires forall i :: 0 <= i < |script| ==> Spares(states[i], script[i], jobs[i], k)
    ensures |states[0].log| + |script| < U64_LIMIT - 1
    ensures var s := states[n]; var held := Lookup(s.mem, k);
      Answer(s, k) == Ok(Model(LogAfter(states[0].log, script, n), k)) <==>
      !(held.Some? && held.value.tombstone && Visible(Version(s.files, s.store, k)).Some?)
  {
    hide Next, State.Live, State.Bounded, Sound, State.Shown, Spares, Room, Answer, Model, Lookup, Version;
    RunShowsExactly(states, script, jobs, runs, |script|, k);
    ScriptAnswers(states, script, jobs, runs, n, k);
    assert states[n].Shown(k);
  }

  // ---- durability ----

  /** A flush keeps the log file whole and makes the state durable if the catalogue fits its checkpoint. */
  lemma FlushLogged(s: State)
    requires s.Live() && s.mem != [] && Logged(s)
    ensures Logged(Flushed(s)) && Flushed(s).flushed != s.flushed && (Flushed(s).Durable() <==> Flushed(s).Fitting())
  {
    hide GoodLog, Records, State.Ahead, Separate, SoundLog, Snapshot.Readable, Fold, EncodeTable, EncodeCheckpoint,
        FitsCheckpoint, Loaded, FlushPath;
    FlushLeavesLog(s);
    MemIsEmptyExactly(s);
    if Flushed(s).Fitting() {
      FlushIsDurable(s);
    } else if Flushed(s).Durable() {
      DurableFits(Flushed(s));
    }
  }

  /** A write keeps the log file whole, and the state durable if it was or if it flushes. */
  lemma WriteLogged(s: State, e: WalEntry, ops: seq<DiskOp>, s': State)
    requires s.Live() && s.Bounded() && Room(s, 1) && e.lsn == s.nextLsn && GoodEntry(e) && Writes(s, e, ops, s')
    requires Logged(s)
    ensures Logged(s') && (s'.Durable() <==> s'.Fitting() && (s'.flushed != s.flushed || s.Durable()))
  {
    hide GoodLog, GoodEntry, Records, State.Live, Record, Upsert, Fold, EncodeTable, EncodeCheckpoint, FitsCheckpoint,
        DecodeCheckpoint, FlushPath, SoundEntry;
    GoodEntryIsSound(e);
    AppendKeeps(s, e);
    LiveCounts(s);
    LiveSeparate(s);
    GoodLogMore(s.log, e);
    AppendedLog(s.log, e);
    var s1 := Appended(s, e);
    assert Logged(s1);
    if s' == s1 {
      assert Loaded(s1.disk, s.l.checkpoint) == Loaded(s.disk, s.l.checkpoint);
      if s.Durable() {
        DurableFits(s);
      }
    } else {
      FlushLogged(s1);
    }
  }

  /** Every command keeps the log file whole. The state is durable afterwards if and only if the catalogue fits its
      checkpoint and the command flushed, or compacted under an empty memtable, or did neither on a durable state. */
  lemma NextDurable(s: State, c: Command, job: Job, ops: seq<DiskOp>, s': State)
    requires s.Live() && s.Bounded() && Room(s, 1) && Good(c) && Next(s, c, job, ops, s') && Logged(s)
    ensures Logged(s')
    ensures s'.Durable() <==>
      && s'.Fitting()
      && if s'.flushed != s.flushed then true else if Merges(s, c) then s.mem == [] else s.Durable()
  {
    hide GoodEntry, Writes, Compacts, Idle, State.Live, State.Durable, EncodeTable, EncodeCheckpoint, FlushPath,
        State.Bounded, GoodLog, Records, State.Fitting;
    if Entered(c, s.nextLsn) != [] {
      WriteLogged(s, Entered(c, s.nextLsn)[0], ops, s');
    } else if c.FlushCommand? && s.mem != [] {
      FlushLogged(s);
    } else if Merges(s, c) {
      MergeDurable(s, job, ops, s');
    } else if s.Durable() {
      DurableFits(s);
    }
  }

  lemma MergeDurable(s: State, job: Job, ops: seq<DiskOp>, s': State)
    requires s.Live() && Compacts(s, job, ops, s') && Logged(s)
    ensures Logged(s') && s'.flushed == s.flushed && (s'.Durable() <==> s'.Fitting() && s.mem == [])
  {
    hide Compacts, State.Live, State.Durable, EncodeCheckpoint, GoodLog, Records, FitsMeta;
    CompactLeaves(s, job, ops, s');
    CompactLeavesLog(s, job, ops, s');
    LiveCounts(s);
    if s'.Fitting() {
      CompactIsDurableExactly(s, job, ops, s');
    } else if s'.Durable() {
      DurableFits(s');
    }
  }

  /** A crash inside any command but a running compaction, on a durable state, recovers for every key the SSTables show
      the log from before the command or the log from after it. */
  lemma NextIsCrashSafe(s: State, c: Command, job: Job, ops: seq<DiskOp>, s': State)
    requires s.Consistent() && s.Bounded() && Room(s, 1) && Good(c) && Next(s, c, job, ops, s') && s'.Fitting()
    requires !Merges(s, c)
    ensures s'.flushed <= |s'.log| && CrashSafe(s, ops, s'.log) && s'.disk == ApplyAll(s.disk, ops)
  {
    hide GoodEntry, Writes, Idle, State.Live, State.Durable, EncodeTable, EncodeCheckpoint, FlushPath, CrashSafe,
        State.Bounded, GoodLog, ApplyAll, FitsCheckpoint;
    LiveCounts(s);
    if Entered(c, s.nextLsn) != [] {
      WriteIsCrashSafe(s, Entered(c, s.nextLsn)[0], ops, s');
    } else if c.FlushCommand? && s.mem != [] {
      BoundedFits(s);
      DurableLogged(s);
      FlushIsCrashSafe(s);
      FlushIsDurable(s);
    } else {
      NothingDone(s);
    }
  }

  lemma BoundedFits(s: State)
    requires s.Bounded()
    ensures Fits(s.mem)
  {
    ComfortableTableFits(s.mem);
  }

  lemma DurableLogged(s: State)
    requires s.Durable()
    ensures Logged(s)
  {
  }

  lemma WriteIsCrashSafe(s: State, e: WalEntry, ops: seq<DiskOp>, s': State)
    requires s.Consistent() && s.Bounded() && Room(s, 1) && e.lsn == s.nextLsn && GoodEntry(e) && Writes(s, e, ops, s')
    requires s'.Fitting()
    ensures s'.flushed <= |s'.log| && s.flushed <= |s.log|
    ensures CrashSafe(s, ops, s'.log) && s'.disk == ApplyAll(s.disk, ops)
  {
    hide GoodEntry, State.Live, State.Durable, EncodeTable, EncodeCheckpoint, FlushPath, CrashSafe, State.Bounded,
        GoodLog, ApplyAll, FitsCheckpoint, Record, SoundEntry, Fits, Upsert, Apply, State.Shown;
    GoodEntryIsSound(e);
    AppendKeeps(s, e);
    AppendIsDurable(s, e);
    AppendedFits(s, e);
    LiveCounts(s);
    var s1, append := Appended(s, e), [Append(s.l.wal, Record(e))];
    LiveCounts(s1);
    if s' != s1 {
      DurableLogged(s1);
      FlushIsCrashSafe(s1);
      FlushIsDurable(s1);
      assert s1.Keys() == s.Keys();
      TwoSteps(s, append, s1, FlushRun(s1));
    }
  }

  /** A run whose entries the log reads back and whose catalogues fit their checkpoints. */
  ghost predicate Recorded(states: seq<State>, script: seq<Command>, jobs: seq<Job>, runs: seq<seq<DiskOp>>) {
    && Started(states, script, jobs, runs) && Logged(states[0])
    && (forall i :: 0 <= i < |states| ==> states[i].Fitting()) && forall i :: 0 <= i < |script| ==> Good(script[i])
  }

  /** A run that starts durable is durable after every prefix if and only if no compaction runs over unflushed
      writes. */
  lemma {:induction false} RunDurableExactly(states: seq<State>, script: seq<Command>, jobs: seq<Job>,
      runs: seq<seq<DiskOp>>, n: nat)
    requires Recorded(states, script, jobs, runs) && n <= |script|
    ensures Logged(states[n])
    ensures states[0].Durable() ==>
      ((forall i :: 0 <= i <= n ==> states[i].Durable()) <==>
       (forall i :: 0 <= i < n && Merges(states[i], script[i]) ==> states[i].mem == []))
  {
    hide Next, State.Live, State.Bounded, Sound, Good, Room, Logged, State.Fitting, State.Durable, Merges;
    if n > 0 {
      RunDurableExactly(states, script, jobs, runs, n - 1);
      RunStep(states, script, jobs, runs, n - 1);
      var s, c := states[n - 1], script[n - 1];
      NextDurable(s, c, jobs[n - 1], runs[n - 1], states[n]);
      if Merges(s, c) {
        MergeFlushesNothing(s, c, jobs[n - 1], runs[n - 1], states[n]);
      }
    }
  }

  /** One step of a run. */
  lemma RunStep(states: seq<State>, script: seq<Command>, jobs: seq<Job>, runs: seq<seq<DiskOp>>, i: nat)
    requires Recorded(states, script, jobs, runs) && i < |script|
    ensures states[i].Live() && states[i].Bounded() && Room(states[i], 1) && Good(script[i])
    ensures Next(states[i], script[i], jobs[i], runs[i], states[i + 1]) && states[i + 1].Fitting()
  {
    hide Next, State.Live, State.Bounded, Sound, Good, Room, Logged, State.Fitting, State.Durable, Merges;
    RunKeeps(states, script, jobs, runs, i);
    StillRoom(states[i], |script| - i);
  }

  lemma MergeFlushesNothing(s: State, c: Command, job: Job, ops: seq<DiskOp>, s': State)
    requires Next(s, c, job, ops, s') && Merges(s, c)
    ensures s'.flushed == s.flushed
  {
    hide Idle, Compacts;
    CompactLeaves(s, job, ops, s');
  }

  /** A crash inside any command of a run, on a durable state and outside a running compaction, recovers the log of the
      commands before it, or that log and its own entry. */
  lemma RunIsCrashSafe(states: seq<State>, script: seq<Command>, jobs: seq<Job>, runs: seq<seq<DiskOp>>, i: nat)
    requires Recorded(states, script, jobs, runs) && i < |script| && states[i].Durable()
        && !Merges(states[i], script[i])
    ensures |states[0].log| + |script| < U64_LIMIT - 1 && states[i].Live() && states[i].flushed <= |states[i].log|
    ensures states[i].log == LogAfter(states[0].log, script, i)
    ensures CrashSafe(states[i], runs[i], LogAfter(states[0].log, script, i + 1))
    ensures states[i + 1].disk == ApplyAll(states[i].disk, runs[i])
  {
    hide Next, State.Live, State.Bounded, Sound, Good, Room, Logged, State.Fitting, State.Durable, Merges, CrashSafe,
        ApplyAll;
    RunStep(states, script, jobs, runs, i);
    RunKeeps(states, script, jobs, runs, i);
    RunKeeps(states, script, jobs, runs, i + 1);
    LiveCounts(states[i]);
    NextIsCrashSafe(states[i], script[i], jobs[i], runs[i], states[i + 1]);
  }

  // ---- the first start ----

  /** An empty disk recovers to an empty log. */
  lemma EmptyDiskRecovers(l: Layout, maxLevel: int, keys: iset<Str>)
    ensures Recovers(map[], l, maxLevel, keys, [], Checkpoint(0, []), map[])
  {
    hide WellFormed, IsTable, DecodeCheckpoint, LogHolds;
    WholeLogHolds([]);
    assert Records([]) == [];
    NothingCatalogued(maxLevel);
  }

  lemma NothingCatalogued(maxLevel: int)
    ensures WellFormed([], map[], maxLevel)
  {
  }

  /** The state after opening an empty disk. */
  ghost predicate Begun(s: State, l: Layout, maxLevel: int) {
    && s.l == l && s.maxLevel == maxLevel && s.log == [] && s.mem == [] && s.files == []
    && s.Consistent() && s.Fitting() && forall k :: s.Shown(k)
  }

  /** Opening an empty disk starts a durable run that shows every key. */
  lemma EmptyDiskStarts(l: Layout, maxLevel: int)
    requires Separate(l) && 0 < maxLevel
    ensures var r := Reopened(map[], l, maxLevel, map[]);
      && r.Ok? && Begun(r.value, l, maxLevel) && r.value.Bounded() && r.value.nextLsn == 1 && r.value.nextSst == 1
      && r.value.nextFile == 1
  {
    hide Recovers, Reopened, State.Serving, State.Shown, TotalSize, Fold, EndsWith;
    EmptyDiskRecovers(l, maxLevel, iset{});
    ReopenedServes(map[], l, maxLevel, iset{}, [], Checkpoint(0, []), map[]);
    forall k: Str ensures Reopened(map[], l, maxLevel, map[]).value.Shown(k) {
      EmptyDiskRecovers(l, maxLevel, iset{k});
      ReopenedServes(map[], l, maxLevel, iset{k}, [], Checkpoint(0, []), map[]);
    }
    NothingFolds();
    SSTableFormat.EmptySize();
    assert Records([]) == [];
  }
}
