/** Crashes anywhere in any run: which checkpoint the disk is under after every command, what a crash inside any command
    leaves, and when the run is durable. */
module EngineCrashes {
  import opened Serializer
  import opened Tables
  import opened SSTableFormat
  import opened Disks
  import opened Paths
  import opened CompactionTheory
  import opened Compactions
  import opened Wals
  import opened Checkpoints
  import opened EngineTheory
  import opened EngineStates
  import opened EngineSteps
  import opened EngineLimits

  // ---- one command ----

  /** The log entries the checkpoint covers after a command: a flush covers those it flushed, a compaction the whole
      log, and nothing else touches the checkpoint. */
  ghost function MarkAfter(s: State, cmd: Command, c: nat, s': State): nat {
    if s'.flushed != s.flushed then s'.flushed else if Merges(s, cmd) then |s.log| else c
  }

  /** The checkpoint under a write. */
  lemma AppendMarks(s: State, e: WalEntry, c: nat)
    requires s.Live() && Marked(s, c) && e.lsn == s.nextLsn < U64_LIMIT - 1 && GoodEntry(e)
    ensures Marked(Appended(s, e), c)
  {
    hide GoodLog, GoodEntry, Records, State.Live, Record, Upsert, DecodeCheckpoint;
    LiveCounts(s);
    LiveSeparate(s);
    GoodLogMore(s.log, e);
    AppendedLog(s.log, e);
  }

  /** And under a flush. */
  lemma FlushMarks(s: State)
    requires s.Live() && s.mem != [] && Logged(s) && Flushed(s).Fitting()
    ensures Marked(Flushed(s), |s.log|) && Flushed(s).flushed == |s.log| && s.flushed < |s.log|
  {
    hide GoodLog, Records, State.Live, Loaded, FitsCheckpoint, EncodeTable, EncodeCheckpoint, FlushPath, Fold;
    FlushIsDurable(s);
    LiveFolds(s);
    MemIsEmptyExactly(s);
  }

  lemma NextMarks(s: State, cmd: Command, job: Job, ops: seq<DiskOp>, s': State, c: nat)
    requires s.Live() && s.Bounded() && Room(s, 1) && Good(cmd) && Next(s, cmd, job, ops, s') && s'.Fitting()
    requires Marked(s, c)
    ensures Marked(s', MarkAfter(s, cmd, c, s'))
  {
    hide State.Live, State.Bounded, Marked, GoodEntry, Compacts, Idle, EncodeTable, EncodeCheckpoint, State.Fitting,
        Record, FlushPath;
    MarkedLogged(s, c);
    if Entered(cmd, s.nextLsn) != [] {
      WriteMarks(s, Entered(cmd, s.nextLsn)[0], ops, s', c);
    } else if cmd.FlushCommand? && s.mem != [] {
      FlushMarks(s);
    } else if Merges(s, cmd) {
      CompactLeaves(s, job, ops, s');
      FittingRound(s, s');
      RoundMarks(s, job, ops, s');
    }
  }

  lemma WriteMarks(s: State, e: WalEntry, ops: seq<DiskOp>, s': State, c: nat)
    requires s.Live() && s.Bounded() && Room(s, 1) && e.lsn == s.nextLsn && GoodEntry(e) && Writes(s, e, ops, s')
    requires Marked(s, c) && s'.Fitting()
    ensures s' == Appended(s, e) ==> s'.flushed == s.flushed && Marked(s', c)
    ensures s' != Appended(s, e) ==> s'.flushed != s.flushed && Marked(s', s'.flushed)
  {
    hide State.Live, State.Bounded, Marked, GoodEntry, SoundEntry, EncodeTable, EncodeCheckpoint, State.Fitting, Record,
        Upsert, Apply, FlushPath, Flushed, FlushRun;
    AppendMarks(s, e, c);
    GoodEntryIsSound(e);
    AppendKeeps(s, e);
    var s1 := Appended(s, e);
    if s' != s1 {
      MarkedLogged(s1, c);
      FlushMarks(s1);
    }
  }

  lemma MarkedLogged(s: State, c: nat)
    requires Marked(s, c)
    ensures Logged(s) && s.flushed <= c <= |s.log|
  {
  }

  lemma FittingRound(s: State, s': State)
    requires s'.Fitting()
    ensures FitsCheckpoint(RoundCheckpoint(s, s'.files))
  {
    hide FitsMeta;
  }

  /** A state is durable exactly if the checkpoint covers what is flushed. */
  lemma DurableIsMarked(s: State, c: nat)
    requires s.Live() && Marked(s, c)
    ensures s.Durable() <==> c == s.flushed
  {
    hide GoodLog, Records, State.Live, Loaded;
  }

  // ---- crashes ----

  /** A crash inside an append leaves the log without the entry, or with it. */
  lemma TornAppend(s: State, e: WalEntry, c: nat, d: Files)
    requires s.Live() && Marked(s, c) && e.lsn == s.nextLsn < U64_LIMIT - 1 && GoodEntry(e)
    requires Torn(s.disk, Append(s.l.wal, Record(e)), d)
    ensures Resembles(d, s, c) || Resembles(d, Appended(s, e), c)
    ensures forall f :: f in s.files ==> f.path in d
  {
    hide GoodLog, GoodEntry, Record, Records, Loaded, LogHolds, Upsert, Torn, Snapshot.Readable, Fold, SoundLog,
        State.Ahead;
    MarkedResembles(s, c);
    if d != s.disk {
      var n := AppendedBytes(s.disk, s.l.wal, Record(e), d);
      forall f | f in s.files ensures f.path in d && d[f.path] == s.disk[f.path] {
        assert EndsWith(f.path, DOT_SST);
      }
      LoadedElsewhere(s.disk, s.l.wal, d[s.l.wal], s.l.checkpoint);
      if n < |Record(e)| {
        TornLogHolds(s.log, e, n);
      } else {
        assert Record(e)[..n] == Record(e);
        AppendMarks(s, e, c);
        WholeLogHolds(s.log + [e]);
      }
    }
  }

  lemma TornLogHolds(es: seq<WalEntry>, e: WalEntry, n: nat)
    requires GoodEntry(e) && n < |Record(e)|
    ensures LogHolds(Records(es) + Record(e)[..n], es)
  {
    hide Record, Records, Payload;
  }

  /** A crash inside a flush leaves the checkpoint as it was, or the flush finished. */
  lemma TornFlush(s: State, c: nat, d: Files)
    requires s.Live() && Marked(s, c) && s.mem != [] && CrashState(s.disk, FlushRun(s), d)
    ensures d == Flushed(s).disk || (Resembles(d, s, c) && forall f :: f in s.files ==> f.path in d)
  {
    hide GoodLog, Records, LogHolds, EncodeTable, EncodeCheckpoint, FlushPath, Fold, SoundLog, Snapshot.Readable,
        State.Ahead, CrashState, DecodeCheckpoint, Separate;
    var meta, cp := FlushMeta(s), FlushCheckpoint(s);
    var write, save := Write(meta.path, EncodeTable(s.mem)), SaveOps(s.l.checkpoint, s.l.temp, cp);
    LayoutApart(s.l);
    MarkedResembles(s, c);
    FirstOp(s.disk, write);
    CrashSplit(s.disk, [write], save, d);
    var d1 := Apply(s.disk, write);
    if CrashState(s.disk, [write], d) {
      forall p | p != meta.path ensures SameAt(s.disk, d, p) {}
      UntouchedResembles(s, c, d);
    } else {
      SaveCrashStates(d1, s.l.checkpoint, s.l.temp, cp, d);
      SaveEnds(d1, s.l.checkpoint, s.l.temp, cp);
      if d != Flushed(s).disk {
        forall p | p != meta.path && p != s.l.temp ensures SameAt(s.disk, d, p) {
          assert SameAt(d1, d, p);
        }
        UntouchedResembles(s, c, d);
      }
    }
  }

  /** A new table and the temporary file do not matter. */
  lemma UntouchedResembles(s: State, c: nat, d: Files)
    requires s.Live() && Marked(s, c) && s.mem != []
    requires forall p :: p != FlushMeta(s).path && p != s.l.temp ==> SameAt(s.disk, d, p)
    ensures Resembles(d, s, c) && forall f :: f in s.files ==> f.path in d
  {
    hide GoodLog, Records, LogHolds, EncodeTable, FlushPath, Fold, SoundLog, Snapshot.Readable, State.Ahead,
        DecodeCheckpoint;
    MarkedResembles(s, c);
    AheadNames(s);
    SSTableNames(s.l.sstDir);
    assert SameAt(s.disk, d, s.l.wal) && SameAt(s.disk, d, s.l.checkpoint);
    forall f | f in s.files ensures SameAt(s.disk, d, f.path) {
      assert EndsWith(f.path, DOT_SST);
    }
  }

  /** Where a crash inside a command can leave the disk: at the state before it, at that state and the logged entry, or
      at the state after it, each under its checkpoint. */
  ghost predicate Landed(s: State, cmd: Command, s': State, c: nat, u: State, cu: nat) {
    || (u == s && cu == c)
    || (Entered(cmd, s.nextLsn) != [] && u == Appended(s, Entered(cmd, s.nextLsn)[0]) && cu == c)
    || (u == s' && cu == MarkAfter(s, cmd, c, s'))
  }

  /** A crash inside any command, on any state, leaves a disk that opens to one of these. Only a compaction leaves
      catalogued files missing. */
  lemma NextCrash(s: State, cmd: Command, job: Job, ops: seq<DiskOp>, s': State, c: nat, d: Files)
      returns (u: State, cu: nat)
    requires s.Live() && s.Bounded() && Room(s, 1) && Good(cmd) && Next(s, cmd, job, ops, s') && s'.Fitting()
    requires Marked(s, c) && CrashState(s.disk, ops, d)
    ensures Landed(s, cmd, s', c, u, cu) && Resembles(d, u, cu)
    ensures !Merges(s, cmd) ==> forall f :: f in u.files ==> f.path in d
  {
    hide State.Live, State.Bounded, Marked, GoodEntry, Compacts, Idle, EncodeTable, EncodeCheckpoint, State.Fitting,
        Record, FlushPath, CrashState, Resembles, FlushRun, Flushed;
    NextMarks(s, cmd, job, ops, s', c);
    GoodIsSoundCommand(cmd);
    NextKeeps(s, cmd, job, ops, s');
    u, cu := s, c;
    MarkedResembles(s, c);
    if Entered(cmd, s.nextLsn) != [] {
      u, cu := WriteCrash(s, Entered(cmd, s.nextLsn)[0], ops, s', c, d, MarkAfter(s, cmd, c, s'));
    } else if cmd.FlushCommand? && s.mem != [] {
      TornFlush(s, c, d);
      if d == s'.disk {
        u, cu := s', MarkAfter(s, cmd, c, s');
        MarkedResembles(u, cu);
      }
    } else if Merges(s, cmd) {
      u, cu := MergeCrash(s, job, ops, s', c, d, MarkAfter(s, cmd, c, s'));
    } else {
      NothingCrashes(s.disk, d);
    }
  }

  lemma GoodIsSoundCommand(cmd: Command)
    requires Good(cmd)
    ensures Sound(cmd)
  {
    hide GoodEntry, SoundEntry;
    forall lsn: U64, e | e in Entered(cmd, lsn) ensures SoundEntry(e) {
      GoodEntryIsSound(e);
    }
  }

  lemma NothingCrashes(d: Files, d': Files)
    requires CrashState(d, [], d')
    ensures d' == d
  {
  }

  lemma MergeCrash(s: State, job: Job, ops: seq<DiskOp>, s': State, c: nat, d: Files, c': nat)
      returns (u: State, cu: nat)
    requires s.Live() && Compacts(s, job, ops, s') && s'.Fitting() && Marked(s, c) && CrashState(s.disk, ops, d)
    requires s'.Live() && Marked(s', c')
    ensures (u == s && cu == c) || (u == s' && cu == c')
    ensures Resembles(d, u, cu)
  {
    hide State.Live, Marked, Compacts, State.Fitting, CrashState, Resembles, HalfRemoved;
    FittingRound(s, s');
    RoundCrash(s, job, ops, s', d);
    if d == s'.disk {
      u, cu := s', c';
      MarkedResembles(u, cu);
    } else {
      u, cu := s, c;
      var n :| HalfRemoved(s, job, d, n);
      HalfRemovedResembles(s, c, job, d, n);
    }
  }

  lemma WriteCrash(s: State, e: WalEntry, ops: seq<DiskOp>, s': State, c: nat, d: Files, c': nat)
      returns (u: State, cu: nat)
    requires s.Live() && s.Bounded() && Room(s, 1) && e.lsn == s.nextLsn && GoodEntry(e) && Writes(s, e, ops, s')
    requires Marked(s, c) && CrashState(s.disk, ops, d) && s'.Live() && Marked(s', c')
    ensures (u == s && cu == c) || (u == Appended(s, e) && cu == c) || (u == s' && cu == c')
    ensures Resembles(d, u, cu) && forall f :: f in u.files ==> f.path in d
  {
    hide State.Live, State.Bounded, Marked, GoodEntry, SoundEntry, EncodeTable, EncodeCheckpoint, Record, Upsert,
        FlushPath, CrashState, Resembles, FlushRun, Flushed, Torn;
    var s1, append := Appended(s, e), Append(s.l.wal, Record(e));
    FirstOp(s.disk, append);
    if CrashState(s.disk, [append], d) {
      TornAppend(s, e, c, d);
      u, cu := if Resembles(d, s, c) then s else s1, c;
    } else {
      CrashSplit(s.disk, [append], FlushRun(s1), d);
      GoodEntryIsSound(e);
      AppendKeeps(s, e);
      AppendMarks(s, e, c);
      TornFlush(s1, c, d);
      if d == s'.disk {
        u, cu := s', c';
        MarkedResembles(u, cu);
      } else {
        u, cu := s1, c;
      }
    }
  }

  /** Wherever it landed, the invariant holds, the log is that before the command or after it, and the SSTables show the
      keys they showed before, but for those a compaction changed. */
  lemma LandedKeeps(s: State, cmd: Command, job: Job, ops: seq<DiskOp>, s': State, c: nat, u: State, cu: nat)
    requires s.Live() && s.Bounded() && Room(s, 1) && Good(cmd) && Next(s, cmd, job, ops, s')
    requires Landed(s, cmd, s', c, u, cu)
    ensures s.flushed <= |s.log| && u.Live() && u.flushed <= |u.log| && u.l == s.l && u.maxLevel == s.maxLevel
    ensures u.log == s.log || u.log == s'.log
    ensures forall k :: s.Shown(k) && Spares(s, cmd, job, k) ==> u.Shown(k)
  {
    hide State.Live, State.Bounded, GoodEntry, SoundEntry, Next, Idle, Merges, Record, Upsert, Apply, State.Shown,
        Spares;
    LiveCounts(s);
    GoodIsSoundCommand(cmd);
    NextKeeps(s, cmd, job, ops, s');
    if Entered(cmd, s.nextLsn) != [] {
      var e := Entered(cmd, s.nextLsn)[0];
      assert Entered(cmd, s.nextLsn) == [e];
      GoodEntryIsSound(e);
      AppendKeeps(s, e);
    }
    LiveCounts(u);
  }

  /** On a durable state, outside a compaction, the checkpoint covers exactly what is flushed there. */
  lemma DurableLands(s: State, cmd: Command, s': State, c: nat, u: State, cu: nat)
    requires s.Live() && Marked(s, c) && s.Durable() && !Merges(s, cmd) && Landed(s, cmd, s', c, u, cu)
    ensures cu == u.flushed
  {
    hide State.Live, Marked, State.Durable, Merges, Record, Upsert, Apply;
    DurableIsMarked(s, c);
  }

  // ---- runs ----

  /** The log entries the checkpoint covers after `n` commands. */
  ghost function MarkAt(states: seq<State>, script: seq<Command>, c: nat, n: nat): nat
    requires n < |states| && n <= |script|
  {
    if n == 0 then c else MarkAfter(states[n - 1], script[n - 1], MarkAt(states, script, c, n - 1), states[n])
  }

  /** After every prefix of every run the checkpoint names the catalogue and that many log entries. */
  lemma {:induction false} RunMarks(states: seq<State>, script: seq<Command>, jobs: seq<Job>, runs: seq<seq<DiskOp>>,
      c: nat, n: nat)
    requires Recorded(states, script, jobs, runs) && n <= |script| && Marked(states[0], c)
    ensures states[n].Live() && Marked(states[n], MarkAt(states, script, c, n))
  {
    hide Next, State.Live, State.Bounded, Sound, Good, Room, Logged, State.Fitting, Marked, MarkAfter;
    if n > 0 {
      RunMarks(states, script, jobs, runs, c, n - 1);
      RunStep(states, script, jobs, runs, n - 1);
      NextMarks(states[n - 1], script[n - 1], jobs[n - 1], runs[n - 1], states[n], MarkAt(states, script, c, n - 1));
    }
    RunKeeps(states, script, jobs, runs, n);
  }

  /** A compaction over unflushed writes. */
  ghost predicate Outruns(states: seq<State>, script: seq<Command>, i: nat)
    requires i < |states| && i < |script|
  {
    Merges(states[i], script[i]) && states[i].mem != []
  }

  /** Command `j` flushes, and comes after command `i`. */
  ghost predicate FlushesAfter(states: seq<State>, i: int, j: int)
    requires 0 <= j < |states| - 1
  {
    i < j && states[j + 1].flushed != states[j].flushed
  }

  /** Every compaction over unflushed writes among the first `n` commands was followed by a flush among them. */
  ghost predicate CaughtUp(states: seq<State>, script: seq<Command>, n: nat)
    requires n < |states| && n <= |script|
  {
    forall i :: 0 <= i < n && Outruns(states, script, i) ==> exists j :: 0 <= j < n && FlushesAfter(states, i, j)
  }

  /** A run that starts durable is durable after `n` commands if and only if every compaction over unflushed writes
      among them was followed by a flush among them. */
  lemma {:induction false} RunDurableAt(states: seq<State>, script: seq<Command>, jobs: seq<Job>,
      runs: seq<seq<DiskOp>>, n: nat)
    requires Recorded(states, script, jobs, runs) && n <= |script| && states[0].Durable()
    ensures states[n].Durable() <==> CaughtUp(states, script, n)
  {
    hide Next, State.Live, State.Bounded, Sound, Good, Room, Logged, State.Fitting, Merges, State.Durable;
    if n > 0 {
      var m := n - 1;
      RunDurableAt(states, script, jobs, runs, m);
      RunStep(states, script, jobs, runs, m);
      RunDurableExactly(states, script, jobs, runs, m);
      var s, cmd := states[m], script[m];
      NextDurable(s, cmd, jobs[m], runs[m], states[n]);
      if Merges(s, cmd) {
        MergeFlushesNothing(s, cmd, jobs[m], runs[m], states[n]);
        EmptyIsDurable(states, script, jobs, runs, m);
      }
      DurableMore(states, script, m);
    }
  }

  /** With an empty memtable there is nothing the checkpoint could cover too early. */
  lemma EmptyIsDurable(states: seq<State>, script: seq<Command>, jobs: seq<Job>, runs: seq<seq<DiskOp>>, n: nat)
    requires Recorded(states, script, jobs, runs) && n <= |script| && states[0].Durable()
    ensures states[n].mem == [] ==> states[n].Durable()
  {
    hide Next, State.Live, State.Bounded, Sound, Good, Room, Logged, State.Fitting, MarkAt, Loaded, GoodLog, Records;
    RunKeeps(states, script, jobs, runs, 0);
    DurableMarks(states[0]);
    RunMarks(states, script, jobs, runs, states[0].flushed, n);
    LiveFolds(states[n]);
    MemIsEmptyExactly(states[n]);
    DurableIsMarked(states[n], MarkAt(states, script, states[0].flushed, n));
  }

  lemma DurableMarks(s: State)
    requires s.Live() && s.Durable()
    ensures Marked(s, s.flushed)
  {
    hide GoodLog, Records, Loaded, State.Live;
    LiveCounts(s);
  }

  lemma DurableMore(states: seq<State>, script: seq<Command>, m: nat)
    requires m + 1 < |states| && m < |script|
    ensures states[m + 1].flushed != states[m].flushed && !Outruns(states, script, m) ==>
      CaughtUp(states, script, m + 1)
    ensures states[m + 1].flushed == states[m].flushed && Outruns(states, script, m) ==>
      !CaughtUp(states, script, m + 1)
    ensures states[m + 1].flushed == states[m].flushed && !Outruns(states, script, m) ==>
      (CaughtUp(states, script, m + 1) <==> CaughtUp(states, script, m))
  {
    if states[m + 1].flushed != states[m].flushed && !Outruns(states, script, m) {
      forall i | 0 <= i < m + 1 && Outruns(states, script, i)
        ensures exists j :: 0 <= j < m + 1 && FlushesAfter(states, i, j)
      {
        assert FlushesAfter(states, i, m);
      }
    }
  }
}
