/** Runs that meet the limits: each from an empty disk, in a few commands. */
module EngineExamples {
  import opened Common
  import opened Bytes
  import opened Serializer
  import opened Tables
  import opened Blocks
  import opened SSTableFormat
  import opened Disks
  import opened Paths
  import opened Merge
  import opened Catalogue
  import opened CompactionTheory
  import opened Compactions
  import opened Searches
  import opened Wals
  import opened Checkpoints
  import opened EngineTheory
  import opened EngineStates
  import opened EngineSteps
  import opened EngineLimits
  import opened EngineCrashes

  const NO_JOB: Job := Job(0, [], [], [], [], false)

  function PutOf(lsn: U64, k: Byte, v: Byte): WalEntry {
    WalEntry(lsn, PUT, [k], [v])
  }

  function DeleteOf(lsn: U64, k: Byte): WalEntry {
    WalEntry(lsn, DELETE, [k], [])
  }

  lemma SmallIsGood(e: WalEntry)
    requires e.kind == PUT || e.kind == DELETE
    requires |e.key| == 1 && |e.value| <= 1 && (e.kind == DELETE ==> e.value == [])
    ensures GoodEntry(e) && SoundEntry(e)
  {
    hide WriteUint32, WriteUint64;
  }

  ghost function Home(): Layout {
    LayoutOf([], [], [])
  }

  /** After `n` puts, each flushed. */
  ghost predicate Calm(s: State, n: nat) {
    && s.l == Home() && s.maxLevel == 7 && n < 9 && s.nextLsn == s.nextSst == n + 1 && |s.files| == n && s.nextFile == 1
    && s.Consistent() && s.Fitting() && s.mem == [] && s.flushed == |s.log| == n && forall k :: s.Shown(k)
  }

  lemma StartIsCalm() returns (s: State)
    ensures Begun(s, Home(), 7) && Calm(s, 0) && s.Bounded() && s.files == []
  {
    hide State.Live, State.Durable, State.Shown, Reopened, Separate;
    LayoutsSeparate([], [], []);
    EmptyDiskStarts(Home(), 7);
    s := Reopened(map[], Home(), 7, map[]).value;
    LiveCounts(s);
  }

  lemma ShortNames(n: nat)
    requires n < 10
    ensures |FlushPath([], n)| < U32_LIMIT
  {
  }

  /** A put into an empty memtable. */
  ghost function Put1(s: State, k: Byte, v: Byte): (s': State)
    ensures s'.mem != []
  {
    Appended(s, PutOf(s.nextLsn, k, v))
  }

  lemma PutMem(s: State, k: Byte, v: Byte)
    requires s.mem == []
    ensures Put1(s, k, v).mem == [Entry([k], [v], false)]
  {
  }

  lemma OneFits(e: Entry)
    requires EncodedSize(e) <= 11
    ensures Fits([e]) && TotalSize([e]) <= 11
  {
    hide Fits;
    SingleSize(e);
    ComfortableTableFits([e]);
  }

  lemma PutKeeps(s: State, n: nat, k: Byte, v: Byte)
    requires Calm(s, n)
    ensures var s1 := Put1(s, k, v);
      && s1.Consistent() && s1.Bounded() && s1.mem == [Entry([k], [v], false)] && s1.nextSst == n + 1 && Fits(s1.mem)
      && s1.nextLsn == n + 2 && s1.flushed == n && s1.log == s.log + [PutOf(n + 1, k, v)] && forall q :: s1.Shown(q)
  {
    hide State.Serving, State.Ahead, State.Shown, GoodEntry, SoundEntry, Record, Upsert, Separate, Apply, Fits, GoodLog,
        Records, Loaded, TotalSize, Home;
    var e := PutOf(s.nextLsn, k, v);
    SmallIsGood(e);
    AppendKeeps(s, e);
    AppendIsDurable(s, e);
    PutMem(s, k, v);
    OneFits(Entry([k], [v], false));
  }

  lemma FlushKeepsCalm(s: State, n: nat, k: Byte, v: Byte)
    requires Calm(s, n) && n < 8
    ensures var s1 := Put1(s, k, v); var s2 := Flushed(s1);
      && Calm(s2, n + 1) && s2.Bounded() && s2.files == s.files + [FlushMeta(s1)]
      && FlushMeta(s1).path == FlushPath([], n + 1) && FlushMeta(s1).level == 0 && FlushMeta(s1).seqno == n + 1
      && FlushMeta(s1).smallest == FlushMeta(s1).largest == [k]
      && s2.store == s.store[FlushPath([], n + 1) := [Entry([k], [v], false)]] && s2.log == s.log + [PutOf(n + 1, k, v)]
  {
    hide State.Serving, State.Ahead, State.Shown, Record, Upsert, Separate, Apply, Fits, GoodLog, Records, Loaded,
        EncodeTable, EncodeCheckpoint, FlushPath, TotalSize;
    PutKeeps(s, n, k, v);
    var s1 := Put1(s, k, v);
    FlushKeeps(s1);
    FlushFits(s, n, k, v);
    DurableLogged(s1);
    FlushLogged(s1);
    SSTableFormat.EmptySize();
  }

  lemma FlushFits(s: State, n: nat, k: Byte, v: Byte)
    requires Calm(s, n) && n < 8
    ensures Flushed(Put1(s, k, v)).Fitting()
  {
    hide State.Serving, State.Ahead, State.Shown, Record, Separate, Apply, Fits, GoodLog, Records, Loaded, EncodeTable,
        EncodeCheckpoint, FlushPath, State.Live, State.Durable;
    var s1 := Put1(s, k, v);
    PutMem(s, k, v);
    OneFits(Entry([k], [v], false));
    FitsIsBounded(s1.mem);
    ShortNames(n + 1);
  }

  lemma SmallCommand(c: Command)
    requires match c case PutCommand(k, v) => |k| == |v| == 1 case DeleteCommand(k) => |k| == 1 case _ => true
    ensures Sound(c)
  {
    hide SoundEntry, GoodEntry;
    forall lsn: U64, e | e in Entered(c, lsn) ensures SoundEntry(e) {
      SmallIsGood(e);
    }
  }

  // ---- a deleted key is still found ----

  ghost function Delete1(s: State, k: Byte): State {
    Appended(s, DeleteOf(s.nextLsn, k))
  }

  lemma FlushedIsVisible(s: State)
    requires Calm(s, 0)
    ensures var s2 := Flushed(Put1(s, 97, 1));
      && Calm(s2, 1) && s2.log == [PutOf(1, 97, 1)] && Visible(Version(s2.files, s2.store, [97])) == Some([1])
      && s2.files[0].path == FlushPath([], 1)
  {
    hide State.Live, State.Durable, Home, Flushed, Put1, Version, FitsCheckpoint, FlushPath, FlushMeta, State.Bounded;
    FlushKeepsCalm(s, 0, 97, 1);
    var s2 := Flushed(Put1(s, 97, 1));
    assert s.log == [] && s2.log == [PutOf(1, 97, 1)] && s2.log[..1] == s2.log;
    assert s2.Shown([97]);
  }

  lemma DeleteKeeps(s: State, k: Byte)
    requires s.Live() && s.mem == [] && s.nextLsn < 9
    ensures var t := Delete1(s, k);
      && t.Live() && t.Bounded() && t.mem == [Entry([k], [], true)] && t.files == s.files && t.store == s.store
      && t.log == s.log + [DeleteOf(s.nextLsn, k)] && Model(t.log, [k]) == None
  {
    hide State.Live, State.Shown, Record, Apply, TotalSize, SoundEntry, GoodEntry, Fits;
    SmallIsGood(DeleteOf(s.nextLsn, k));
    AppendKeeps(s, DeleteOf(s.nextLsn, k));
    OneFits(Entry([k], [], true));
  }

  /** The tombstone in the memtable does not hide the flushed value. */
  lemma TombstoneFallsThrough(s: State)
    requires Calm(s, 0)
    ensures var t := Delete1(Flushed(Put1(s, 97, 1)), 97);
      t.Bounded() && Answer(t, [97]) == Ok(Some([1])) && Model(t.log, [97]) == None
  {
    hide State.Live, State.Durable, State.Shown, Home, Flushed, Put1, Delete1, Version, FitsCheckpoint, Model, Answer,
        State.Serving, Lookup, Right;
    FlushedIsVisible(s);
    var s2 := Flushed(Put1(s, 97, 1));
    DeleteKeeps(s2, 97);
    var t := Delete1(s2, 97);
    LiveCounts(t);
    LiveServes(t);
    AnswerExactly(t, [97]);
    Lookup1(Entry([97], [], true), [97]);
  }

  lemma PutNext(s: State, k: Byte, v: Byte)
    ensures Next(s, PutCommand([k], [v]), NO_JOB, [Append(s.l.wal, Record(PutOf(s.nextLsn, k, v)))], Put1(s, k, v))
  {
    hide Record, Flushed, FlushRun, Appended, Compacts, Idle;
  }

  lemma DeleteNext(s: State, k: Byte)
    ensures Next(s, DeleteCommand([k]), NO_JOB, [Append(s.l.wal, Record(DeleteOf(s.nextLsn, k)))], Delete1(s, k))
  {
    hide Record, Flushed, FlushRun, Appended, Compacts, Idle;
  }

  lemma FlushNext(s: State)
    requires s.mem != []
    ensures Next(s, FlushCommand, NO_JOB, FlushRun(s), Flushed(s))
  {
    hide Flushed, FlushRun, Writes, Compacts, Idle;
  }

  const MISSED: seq<Command> := [PutCommand([97], [1]), FlushCommand, DeleteCommand([97])]

  lemma ThreeSteps(s: State, s1: State, s2: State, s3: State, a: seq<DiskOp>, b: seq<DiskOp>, c: seq<DiskOp>)
    requires Next(s, MISSED[0], NO_JOB, a, s1) && Next(s1, MISSED[1], NO_JOB, b, s2)
        && Next(s2, MISSED[2], NO_JOB, c, s3)
    requires s.Live() && Room(s, 3) && s.Bounded() && s1.Bounded() && s2.Bounded() && s3.Bounded()
    ensures Started([s] + [s1] + [s2] + [s3], MISSED, [] + [NO_JOB] + [NO_JOB] + [NO_JOB], [] + [a] + [b] + [c])
  {
    hide Next, State.Live, State.Bounded, Sound, Started;
    SmallCommand(MISSED[0]);
    SmallCommand(MISSED[1]);
    SmallCommand(MISSED[2]);
    StartedAt(s);
    Longer([s], [], [], [], MISSED[0], NO_JOB, a, s1);
    Longer([s] + [s1], [] + [MISSED[0]], [] + [NO_JOB], [] + [a], MISSED[1], NO_JOB, b, s2);
    Longer([s] + [s1] + [s2], [] + [MISSED[0]] + [MISSED[1]], [] + [NO_JOB] + [NO_JOB], [] + [a] + [b], MISSED[2],
        NO_JOB, c, s3);
    assert [] + [MISSED[0]] + [MISSED[1]] + [MISSED[2]] == MISSED;
  }

  lemma StartedAt(s: State)
    requires s.Live() && s.Bounded() && Room(s, 0)
    ensures Started([s], [], [], [])
  {
  }

  lemma MissedRun(s: State) returns (states: seq<State>, jobs: seq<Job>, runs: seq<seq<DiskOp>>)
    requires Calm(s, 0) && s.Bounded()
    ensures Started(states, MISSED, jobs, runs)
    ensures states[0] == s && states[3] == Delete1(Flushed(Put1(s, 97, 1)), 97)
  {
    hide State.Live, State.Durable, State.Shown, State.Fitting, State.Bounded, Next, Record, Flushed, FlushRun, Put1,
        Delete1, Home, Sound, Answer, Model, Started, Fits;
    PutKeeps(s, 0, 97, 1);
    FlushKeepsCalm(s, 0, 97, 1);
    TombstoneFallsThrough(s);
    var s1 := Put1(s, 97, 1);
    var s2 := Flushed(s1);
    var s3 := Delete1(s2, 97);
    var a := [Append(s.l.wal, Record(PutOf(s.nextLsn, 97, 1)))];
    var c := [Append(s2.l.wal, Record(DeleteOf(s2.nextLsn, 97)))];
    PutNext(s, 97, 1);
    FlushNext(s1);
    DeleteNext(s2, 97);
    ThreeSteps(s, s1, s2, s3, a, FlushRun(s1), c);
    states, jobs := [s] + [s1] + [s2] + [s3], [] + [NO_JOB] + [NO_JOB] + [NO_JOB];
    runs := [] + [a] + [FlushRun(s1)] + [c];
  }

  /** Put, flush, delete: a lookup returns the deleted value. */
  lemma DeleteIsMissed()
    ensures exists states: seq<State>, jobs, runs ::
      && Started(states, MISSED, jobs, runs) && Begun(states[0], Home(), 7)
      && Answer(states[3], [97]) == Ok(Some([1])) && Model(states[3].log, [97]) == None
  {
    hide Started, Begun, Answer, Model, Home, Flushed, Put1, Delete1, Calm;
    var s := StartIsCalm();
    var states, jobs, runs := MissedRun(s);
    TombstoneFallsThrough(s);
  }

  // ---- a restart loses a key ----

  /** Put "a", flush, restart, put "b": the next flush takes the name of the first one. */
  lemma FirstFileIsTaken(s: State)
    requires Calm(s, 1) && s.files[0].path == FlushPath([], 1) && Visible(Version(s.files, s.store, [97])) == Some([1])
    ensures Reopened(s.disk, s.l, s.maxLevel, s.store).Ok?
    ensures var t := Put1(Reopened(s.disk, s.l, s.maxLevel, s.store).value, 98, 2);
      && t.Serving() && t.Named() && t.Bounded() && Fits(t.mem) && t.Shown([97]) && t.log == s.log + [PutOf(2, 98, 2)]
      && t.l == s.l && Lookup(t.mem, [97]).None? && !Survives(t, [97]) && AfterFlush(t, [97]).None?
  {
    hide State.Live, State.Durable, Record, Apply, Reopened, Version, GoodEntry, SoundEntry, Fits, TotalSize,
        State.Serving, Separate, NamedByEngine, Lookup, Home, FlushPath, State.Shown, FitsCheckpoint;
    RestartResets(s);
    var r := Reopened(s.disk, s.l, s.maxLevel, s.store).value;
    var e := PutOf(2, 98, 2);
    SmallIsGood(e);
    LiveSeparate(s);
    assert r.Shown([97]);
    AppendServes(r, e);
    PutMem(r, 98, 2);
    OneFits(Entry([98], [2], false));
    Lookup1(Entry([98], [2], false), [97]);
    HomeDir();
    OnlyFile(s.files, s.store, [97]);
  }

  lemma HomeDir()
    ensures Home().sstDir == []
  {
  }

  /** The only file answers, and nothing is left without it. */
  lemma OnlyFile(files: seq<Meta>, store: Store, k: Str)
    requires |files| == 1 && Version(files, store, k).Some?
    ensures Best(files, store, k) == Some(files[0]) && Version(Without(files, files[0].path), store, k).None?
  {
    hide Holds;
    assert files == [files[0]] && files[1..] == [];
    assert Without(files[1..], files[0].path) == [];
    assert [] + Without(files[1..], files[0].path) == [];
  }

  /** Put "a", flush, restart, put "b", flush: "a" is gone. */
  lemma RestartLosesKey()
    ensures exists s0, t ::
      var s := Flushed(Put1(s0, 97, 1));
      && Begun(s0, Home(), 7) && Reopened(s.disk, s.l, s.maxLevel, s.store) == Ok(t)
      && Model(Put1(t, 98, 2).log, [97]) == Some([1]) && Answer(Flushed(Put1(t, 98, 2)), [97]) == Ok(None)
  {
    hide State.Live, State.Durable, State.Shown, Home, Flushed, Put1, Reopened, Answer, Model, Version, Survives,
        AfterFlush, Calm, Fits, State.Serving, Lookup, Separate, State.Bounded, State.Fitting, Begun;
    var s0 := StartIsCalm();
    var s := Flushed(Put1(s0, 97, 1));
    FlushedIsVisible(s0);
    FirstFileIsTaken(s);
    var t := Reopened(s.disk, s.l, s.maxLevel, s.store).value;
    LosesKey(s, Put1(t, 98, 2));
  }

  lemma LosesKey(s: State, t: State)
    requires Calm(s, 1) && s.log == [PutOf(1, 97, 1)] && t.l == s.l && t.log == s.log + [PutOf(2, 98, 2)] && t.mem != []
    requires t.Serving() && t.Named() && Fits(t.mem) && t.Shown([97]) && AfterFlush(t, [97]).None?
    ensures Model(t.log, [97]) == Some([1]) && Answer(Flushed(t), [97]) == Ok(None)
  {
    hide State.Live, State.Durable, State.Shown, Home, Flushed, Answer, Version, Fits, State.Serving, Separate,
        NamedByEngine, AfterFlush, Survives;
    LiveSeparate(s);
    FlushAnswersExactly(t, [97]);
    FlushVersionExactly(t, [97]);
    assert t.log[..1] == s.log && s.log[..0] == [];
    assert LastWrite(s.log, [97]) == Some(Entry([97], [1], false));
  }

  // ---- a compaction's checkpoint hides a write ----

  /** A round whose merge fits one output file. */
  lemma OneOutput(s: State, level: nat, source: seq<Meta>, target: seq<Meta>, out: seq<Entry>)
      returns (job: Job, ops: seq<DiskOp>, s': State)
    requires s.Live() && level + 1 < s.maxLevel && Triggered(s.files, s.maxLevel, level) && BySmallest(source)
    requires Selection(s.files, level, source, target) && DistinctPaths(source + target)
    requires var bottom := level + 1 == s.maxLevel - 1;
      IsMerge(TablesOf(source + target, s.store), Renumbered(|source|, |target|), bottom, out)
    requires out != [] && Fits(out) && Storable(out)
    ensures Compacts(s, job, ops, s') && job.level == level && job.source == source && job.target == target
    ensures job.outs == [Meta(OutputPath(s.l.sstDir, level + 1, s.nextFile), level + 1, out[0].key, out[|out| - 1].key,
        |EncodeTable(out)|, s.nextFile + 1)]
  {
    hide State.Serving, State.Ahead, Triggered, Selection, IsMerge, Fits, Storable, BySmallest, Renumbered, RemovedAll,
        JobOk, OutputsNewer, NamedOutputs, Snapshot.Valid, CompactOps, Snapshot.Wrote, Snapshot.Keeps, EncodeTable,
        OutputPath, DistinctPaths, ApplyAll, TablesOf, KeepsAnswer, Separate, WriteOps;
    var dir, target': nat, before := s.l.sstDir, level + 1, s.Snap();
    var meta := Meta(OutputPath(dir, target', s.nextFile), target', out[0].key, out[|out| - 1].key, |EncodeTable(out)|,
        s.nextFile + 1);
    var merged := Snapshot(s.files, s.store[meta.path := out], s.disk[meta.path := EncodeTable(out)], s.nextFile + 2);
    job := Job(level, source, target, [meta], out, level + 1 == s.maxLevel - 1);
    assert Inputs(job) == source + target;
    LiveIsValid(s);
    MergeIsSorted(TablesOf(source + target, s.store), Renumbered(|source|, |target|), job.bottom, out);
    OutputWrites(before, merged, dir, s.maxLevel, target', meta, out);
    OutputMakesJob(before, merged, dir, s.maxLevel, job, meta);
    OutputDisk(s.disk, meta, merged.store, out);
    var after := Snapshot(RemovedAll(s.files + [meta], Inputs(job)), merged.store, ApplyAll(merged.disk,
        RemoveOps(Inputs(job))), merged.next);
    KeepsFiles(before, merged);
    AfterSwap(before, merged, after, dir, s.maxLevel, job);
    AfterMerge(before, merged, dir, s.maxLevel, job);
    ops := RoundOps(s, job, after.files, merged.store);
    s' := s.(files := after.files, store := merged.store, disk := ApplyAll(s.disk, ops), nextFile := merged.next);
  }

  lemma KeepsFiles(before: Snapshot, after: Snapshot)
    requires after.Keeps(before)
    ensures after.files == before.files
  {
  }

  lemma OutputDisk(d: Files, meta: Meta, store: Store, out: seq<Entry>)
    requires meta.path in store && store[meta.path] == out
    ensures ApplyAll(d, WriteOps([meta], store)) == d[meta.path := EncodeTable(out)]
  {
    hide EncodeTable;
    FirstOp(d, Write(meta.path, EncodeTable(out)));
    assert WriteOps([meta], store) == [Write(meta.path, EncodeTable(out))];
  }

  lemma OutputWrites(before: Snapshot, merged: Snapshot, dir: Str, maxLevel: int, target: nat, meta: Meta,
      out: seq<Entry>)
    requires before.Valid(dir, maxLevel) && target >= 1 && out != [] && Sorted(out) && Fits(out) && Storable(out)
    requires meta == Meta(OutputPath(dir, target, before.next), target, out[0].key, out[|out| - 1].key,
        |EncodeTable(out)|, before.next + 1)
    requires merged == Snapshot(before.files, before.store[meta.path := out],
        before.disk[meta.path := EncodeTable(out)], before.next + 2)
    ensures merged.Keeps(before) && merged.Valid(dir, maxLevel) && merged.Wrote(dir, target, before.next, [meta])
  {
    hide WellFormed, Fits, Storable, EncodeTable, OutputPath;
    forall f | f in before.files ensures f.path != meta.path && before.OnDisk(f.path) {
      assert before.next >= before.next;
    }
    KeepsValid(before, merged, dir, maxLevel);
  }

  lemma OutputMakesJob(before: Snapshot, merged: Snapshot, dir: Str, maxLevel: int, j: Job, meta: Meta)
    requires before.Valid(dir, maxLevel) && merged.Keeps(before) && j.outs == [meta]
    requires Selection(before.files, j.level, j.source, j.target) && DistinctPaths(Inputs(j))
    requires 0 <= j.level && j.level + 1 < maxLevel && j.bottom == (j.level + 1 == maxLevel - 1)
    requires IsMerge(TablesOf(Inputs(j), before.store), Renumbered(|j.source|, |j.target|), j.bottom, j.out)
    requires merged.Wrote(dir, j.level + 1, before.next, j.outs) && meta.path in merged.store
        && merged.store[meta.path] == j.out
    ensures JobOk(before.files, before.store, maxLevel, j, merged.store)
    ensures OutputsNewer(before.files, j) && DistinctPaths(before.files + j.outs)
  {
    hide Snapshot.Valid, Snapshot.Keeps, Snapshot.Wrote, Selection, DistinctPaths, IsMerge, JobOk, OutputsNewer;
    var ranks := Renumbered(|j.source|, |j.target|);
    var inputs := seq(|Inputs(j)|, i requires 0 <= i < |Inputs(j)| => Inputs(j)[i].(seqno := ranks[i]));
    assert RanksOf(inputs) == ranks;
    JobTables(inputs, j, before.store);
    var ts := TablesOf([meta], merged.store);
    assert ts == [j.out] && ts[1..] == [] && Flatten(ts) == ts[0] + Flatten(ts[1..]) == j.out;
    MakesJob(before, merged, dir, maxLevel, j, inputs);
  }

  lemma MergeIsSorted(ts: seq<seq<Entry>>, ranks: seq<nat>, bottom: bool, out: seq<Entry>)
    requires |ts| == |ranks| && IsMerge(ts, ranks, bottom, out)
    ensures Sorted(out)
  {
  }

  const ROW: seq<Entry> := [Entry([97], [1], false), Entry([98], [1], false), Entry([99], [1], false),
                            Entry([100], [1], false)]

  const KEYS: seq<Byte> := [97, 98, 99, 100]

  lemma RowSorted()
    ensures Sorted(ROW) && forall i :: 0 <= i < 4 ==> ROW[i] == Entry([KEYS[i]], [1], false) && KEYS[i] != 101
  {
    assert Less([97], [98]) && Less([98], [99]) && Less([99], [100]);
    OrderFacts();
    hide Less;
  }

  ghost predicate InRow(f: Meta, store: Store, i: nat)
    requires i < 4
  {
    && f.level == 0 && f.smallest == f.largest == ROW[i].key && f.path == FlushPath([], i + 1)
    && f.path in store && store[f.path] == [ROW[i]]
  }

  /** The first `n` keys of the row, each in its own level-0 file. */
  ghost predicate Row(s: State, n: nat) {
    n <= 4 && Calm(s, n) && forall i :: 0 <= i < n ==> InRow(s.files[i], s.store, i)
  }

  lemma RowMore(s: State, n: nat)
    requires Row(s, n) && n < 4
    ensures Row(Flushed(Put1(s, KEYS[n], 1)), n + 1)
  {
    hide State.Live, State.Durable, State.Shown, Home, FlushPath, FitsCheckpoint, Flushed, Put1, State.Bounded,
        FlushMeta;
    FlushKeepsCalm(s, n, KEYS[n], 1);
    RowSorted();
    var t := Flushed(Put1(s, KEYS[n], 1));
    forall i | 0 <= i < n + 1 ensures InRow(t.files[i], t.store, i) {
      if i < n {
        assert InRow(s.files[i], s.store, i);
        if FlushPath([], i + 1) == FlushPath([], n + 1) {
          FlushPathsDiffer([], i + 1, n + 1);
        }
      }
    }
  }

  /** Tables of one entry each, in key order, merge to the row of their entries. */
  lemma SinglesMerge(ts: seq<seq<Entry>>, ranks: seq<nat>, es: seq<Entry>)
    requires |ts| == |ranks| == |es| && Sorted(es) && forall i :: 0 <= i < |es| ==> ts[i] == [es[i]] && es[i].key != []
    ensures IsMerge(ts, ranks, false, es)
  {
    hide Less, Lookup;
    forall k ensures Lookup(es, k) == Kept(ts, ranks, false, k) {
      forall i | 0 <= i < |es| ensures Lookup(ts[i], k) == if es[i].key == k then Some(es[i]) else None {
        Lookup1(es[i], k);
      }
      if i :| 0 <= i < |es| && es[i].key == k {
        LookupAt(es, i);
        OnlyOne(es, i);
        NewestIs(ts, ranks, k, i);
      } else {
        NewestNone(ts, ranks, k);
        LookupSound(es, k);
      }
    }
  }

  lemma OnlyOne(es: seq<Entry>, i: nat)
    requires Sorted(es) && i < |es|
    ensures forall j :: 0 <= j < |es| && es[j].key == es[i].key ==> j == i
  {
    OrderFacts();
    hide Less;
  }

  lemma {:induction false} AllLevel0(files: seq<Meta>)
    requires forall f :: f in files ==> f.level == 0
    ensures Weigh(files, CountAt(0)) == |files|
  {
    if files != [] {
      AllLevel0(files[1..]);
    }
  }

  /** Four level-0 files ask for a compaction, and it merges them into one. */
  lemma RowCompacts(s: State, k: Byte, v: Byte) returns (job: Job, ops: seq<DiskOp>, s': State)
    requires Row(s, 4) && k != 0
    ensures Compacts(Put1(s, k, v), job, ops, s') && job.level == 0 && job.source == s.files
    ensures job.outs == [Meta(OutputPath([], 1, 1), 1, [97], [100], |EncodeTable(ROW)|, 2)] && job.target == []
  {
    hide State.Live, State.Durable, State.Shown, Home, FlushPath, FitsCheckpoint, Put1, State.Bounded, Selection,
        IsMerge, Fits, Storable, Triggered, BySmallest, DistinctPaths, TablesOf, Renumbered, Compacts, InRow,
        OutputPath, EncodeTable;
    PutKeeps(s, 4, k, v);
    PutLeaves(s, k, v);
    var p := Put1(s, k, v);
    RowTriggers(s);
    RowSelects(s);
    RowMerges(s);
    RowFits();
    HomeDir();
    assert s.files + [] == s.files;
    job, ops, s' := OneOutput(p, 0, s.files, [], ROW);
  }

  lemma PutLeaves(s: State, k: Byte, v: Byte)
    ensures var p := Put1(s, k, v);
      p.files == s.files && p.store == s.store && p.maxLevel == s.maxLevel && p.l == s.l && p.nextFile == s.nextFile
  {
  }

  lemma RowFits()
    ensures Fits(ROW) && Storable(ROW)
  {
    hide Fits, TotalSize;
    var a, b := ROW[..2], ROW[2..];
    assert ROW == a + b;
    TotalSizeSplit(a, b);
    TotalSizeSplit([ROW[0]], [ROW[1]]);
    TotalSizeSplit([ROW[2]], [ROW[3]]);
    assert a == [ROW[0]] + [ROW[1]] && b == [ROW[2]] + [ROW[3]];
    forall i | 0 <= i < 4 ensures TotalSize([ROW[i]]) == 11 {
      SingleSize(ROW[i]);
    }
    ComfortableTableFits(ROW);
  }

  lemma RowTriggers(s: State)
    requires Row(s, 4)
    ensures Triggered(s.files, s.maxLevel, 0)
  {
    hide State.Live, State.Durable, State.Shown, Home, FlushPath, FitsCheckpoint;
    forall f | f in s.files ensures f.level == 0 {
      var i :| 0 <= i < |s.files| && s.files[i] == f;
      assert InRow(s.files[i], s.store, i);
    }
    AllLevel0(s.files);
  }

  lemma RowSelects(s: State)
    requires Row(s, 4)
    ensures Selection(s.files, 0, s.files, []) && BySmallest(s.files) && DistinctPaths(s.files)
  {
    hide State.Live, State.Durable, State.Shown, Home, FlushPath, FitsCheckpoint, DistinctPaths;
    LivePaths(s);
    RowSorted();
    OrderFacts();
    hide Less;
    var fs := s.files;
    assert forall i :: 0 <= i < 4 ==> InRow(fs[i], s.store, i);
    assert forall i, j :: 0 <= i < j < 4 ==> Less(ROW[i].key, ROW[j].key);
    forall f | f in fs ensures f.level == 0 && AtMost(ROW[0].key, f.smallest) && AtMost(f.largest, ROW[3].key) {
      var i :| 0 <= i < |fs| && fs[i] == f;
    }
    assert fs[0] in fs && fs[3] in fs;
    assert Covers(fs, ROW[0].key, ROW[3].key);
  }

  lemma LivePaths(s: State)
    requires s.Live()
    ensures DistinctPaths(s.files)
  {
    hide DistinctPaths, Describes, Compatible, State.Ahead, SoundLog, Fold, Separate;
  }

  lemma RowMerges(s: State)
    requires Row(s, 4)
    ensures IsMerge(TablesOf(s.files, s.store), Renumbered(4, 0), false, ROW)
  {
    hide State.Live, State.Durable, State.Shown, Home, FlushPath, FitsCheckpoint, Renumbered;
    RowSorted();
    var ts := TablesOf(s.files, s.store);
    forall i | 0 <= i < 4 ensures ts[i] == [ROW[i]] {
      assert InRow(s.files[i], s.store, i);
    }
    SinglesMerge(ts, Renumbered(4, 0), ROW);
  }

  ghost function Next1(s: State, k: Byte): State {
    Flushed(Put1(s, k, 1))
  }

  /** Put and flush "a", "b", "c" and "d". */
  ghost function Four(s: State): State {
    Next1(Next1(Next1(Next1(s, 97), 98), 99), 100)
  }

  lemma FourIsRow(s: State)
    requires Calm(s, 0)
    ensures Row(Four(s), 4)
  {
    hide Calm, Flushed, Put1, InRow;
    RowMore(s, 0);
    RowMore(Next1(s, 97), 1);
    RowMore(Next1(Next1(s, 97), 98), 2);
    RowMore(Next1(Next1(Next1(s, 97), 98), 99), 3);
  }

  /** The one output is all that is left. */
  lemma RowLeaves(s: State, job: Job, ops: seq<DiskOp>, s': State)
    requires Compacts(s, job, ops, s') && job.source == s.files && |job.outs| == 1
    ensures |s'.files| <= 1 && forall f :: f in s'.files ==> f == job.outs[0]
  {
    hide JobOk, OutputsNewer, RemovedAll, Triggered, BySmallest, CompactOps, Snapshot.Valid, RoundOps, NamedOutputs,
        DistinctPaths;
    RemovedMembers(s.files + job.outs, Inputs(job));
    assert forall f :: f in s.files ==> f in Inputs(job);
    OnlyEqual(s'.files, job.outs[0]);
  }

  lemma OnlyEqual(files: seq<Meta>, f: Meta)
    requires DistinctPaths(files) && forall g :: g in files ==> g == f
    ensures |files| <= 1
  {
    if |files| >= 2 {
      SamePaths(files, f);
    }
  }

  lemma SamePaths(files: seq<Meta>, f: Meta)
    requires |files| >= 2 && forall g :: g in files ==> g == f
    ensures !DistinctPaths(files)
  {
    assert files[0] in files && files[1] in files && files[0].path == files[1].path;
  }

  lemma RowCheckpointFits(s: State, job: Job, ops: seq<DiskOp>, s': State)
    requires Compacts(s, job, ops, s') && job.source == s.files
    requires job.outs == [Meta(OutputPath([], 1, 1), 1, [97], [100], |EncodeTable(ROW)|, 2)]
    ensures FitsCheckpoint(RoundCheckpoint(s, s'.files))
  {
    hide Compacts, EncodeTable, OutputPath, Fits;
    RowLeaves(s, job, ops, s');
    RowFits();
    FitsIsBounded(ROW);
    ShortOutput();
    forall i | 0 <= i < |s'.files| ensures FitsMeta(s'.files[i]) {
      assert s'.files[i] in s'.files;
    }
  }

  lemma ShortOutput()
    ensures |OutputPath([], 1, 1)| < U32_LIMIT
  {
  }

  lemma NotInRow(s: State)
    requires Row(s, 4)
    ensures FirstHolder(s.files, s.store, [101]).None? && Version(s.files, s.store, [101]).None?
  {
    hide State.Live, State.Durable, State.Shown, Home, FlushPath, FitsCheckpoint, Lookup;
    RowSorted();
    forall i | 0 <= i < 4 ensures !Holds(s.store, s.files[i], [101]) {
      assert InRow(s.files[i], s.store, i);
      Lookup1(ROW[i], [101]);
    }
    forall f | f in s.files ensures !Holds(s.store, f, [101]) {
      var i :| 0 <= i < |s.files| && s.files[i] == f;
    }
    BestNone(s.files, s.store, [101]);
  }

  /** The new SSTables do not show "e". */
  lemma RowShowsNothing(s: State, job: Job, ops: seq<DiskOp>, q: State)
    requires Row(s, 4) && Compacts(Put1(s, 101, 5), job, ops, q) && job.level == 0 && job.source == s.files
    ensures Visible(Version(q.files, q.store, [101])).None?
  {
    hide State.Live, State.Durable, Home, FlushPath, FitsCheckpoint, Put1, State.Bounded, Compacts, EncodeTable, Model,
        Version, InRow, Fits;
    PutKeeps(s, 4, 101, 5);
    PutLeaves(s, 101, 5);
    var p := Put1(s, 101, 5);
    CompactKeeps(p, job, ops, q);
    NotInRow(s);
    assert p.Shown([101]) && KeepsAnswer(p.files, p.store, job, [101]);
  }

  /** The checkpoint of the round names the last log entry, so a restart does not replay the put of "e". */
  lemma RowHides(s: State, job: Job, ops: seq<DiskOp>, q: State) returns (t: State)
    requires Row(s, 4) && Compacts(Put1(s, 101, 5), job, ops, q) && job.level == 0 && job.source == s.files
    requires job.outs == [Meta(OutputPath([], 1, 1), 1, [97], [100], |EncodeTable(ROW)|, 2)]
    ensures Reopened(q.disk, q.l, q.maxLevel, q.store) == Ok(t) && Answer(t, [101]) == Ok(None)
    ensures Answer(Put1(s, 101, 5), [101]) == Ok(Some([5])) && Visible(Version(q.files, q.store, [101])).None?
  {
    hide State.Live, State.Durable, State.Shown, Home, FlushPath, OutputPath, FitsCheckpoint, Put1, State.Bounded,
        Compacts, EncodeTable, Reopened, Model, Version, Lookup, InRow, Found, Searchable, Restarted, Logged, Fits;
    PutKeeps(s, 4, 101, 5);
    PutLeaves(s, 101, 5);
    var p := Put1(s, 101, 5);
    DurableLogged(p);
    RowCheckpointFits(p, job, ops, q);
    FinishedRoundAnswers(p, job, ops, q, [101]);
    RowShowsNothing(s, job, ops, q);
    t := Reopened(q.disk, q.l, q.maxLevel, q.store).value;
    Lookup1(Entry([101], [5], false), [101]);
  }

  /** The round left its checkpoint over all five puts. */
  lemma RowMarks(s: State, job: Job, ops: seq<DiskOp>, q: State)
    requires Row(s, 4) && Compacts(Put1(s, 101, 5), job, ops, q) && job.level == 0 && job.source == s.files
    requires job.outs == [Meta(OutputPath([], 1, 1), 1, [97], [100], |EncodeTable(ROW)|, 2)]
    ensures q.Live() && Marked(q, 5) && |q.log| == 5 && q.nextLsn == 6
  {
    hide State.Live, State.Durable, Home, FlushPath, OutputPath, FitsCheckpoint, Put1, State.Bounded, Compacts,
        EncodeTable, InRow, Marked, State.Shown, Fits, GoodLog, Records, Loaded;
    PutKeeps(s, 4, 101, 5);
    PutLeaves(s, 101, 5);
    var p := Put1(s, 101, 5);
    RowCheckpointFits(p, job, ops, q);
    DurableLogged(p);
    RoundMarks(p, job, ops, q);
    CompactLeaves(p, job, ops, q);
  }

  /** A later put is replayed, and does not bring the skipped one back. */
  lemma LaterPutOnly(q: State)
    requires q.Live() && Marked(q, 5) && |q.log| == 5 && q.nextLsn == 6
    requires Visible(Version(q.files, q.store, [101])).None?
    ensures var v := Put1(q, 102, 6); var r := Reopened(v.disk, v.l, v.maxLevel, v.store);
      r.Ok? && Answer(r.value, [102]) == Ok(Some([6])) && Answer(r.value, [101]) == Ok(None)
  {
    hide State.Live, Record, Apply, Reopened, Version, GoodEntry, SoundEntry, Searchable, Resembles, Marked, Recalls,
        State.Shown, Lookup;
    var e, v := PutOf(6, 102, 6), Put1(q, 102, 6);
    SmallIsGood(e);
    AppendKeeps(q, e);
    AppendMarks(q, e, 5);
    MarkedResembles(v, 5);
    RestartAnswersExactly(v.disk, v, 5, [101]);
    RestartAnswersExactly(v.disk, v, 5, [102]);
    NothingInTheWay(v.disk, v, [101]);
    OnlyReplayed(v.log, e);
    Lookup1(Entry([102], [6], false), [101]);
    Lookup1(Entry([102], [6], false), [102]);
  }

  lemma OnlyReplayed(log: seq<WalEntry>, e: WalEntry)
    requires |log| == 6 && log[5] == e && e.kind == PUT
    ensures Fold(log[5..]) == [Entry(e.key, e.value, false)]
  {
    assert log[5..] == [e] && [e][..0] == [];
    assert Fold([e][..0]) == [];
  }

  /** Four puts, each flushed, one more put, a compaction, a restart: the last put is gone. With another put before the
      restart, that one is found and the one before it is still gone. */
  lemma CompactionHidesWrite()
    ensures exists s0, job, ops, q, t, t' ::
      && Begun(s0, Home(), 7) && Compacts(Put1(Four(s0), 101, 5), job, ops, q)
      && Answer(Put1(Four(s0), 101, 5), [101]) == Ok(Some([5]))
      && Reopened(q.disk, q.l, q.maxLevel, q.store) == Ok(t) && Answer(t, [101]) == Ok(None)
      && Reopened(Put1(q, 102, 6).disk, q.l, q.maxLevel, q.store) == Ok(t')
      && Answer(t', [102]) == Ok(Some([6])) && Answer(t', [101]) == Ok(None)
  {
    hide Begun, Calm, Home, Compacts, Put1, Four, Answer, Reopened, Row, OutputPath, EncodeTable, State.Live, Marked,
        Version;
    var s0 := StartIsCalm();
    FourIsRow(s0);
    var job, ops, q := RowCompacts(Four(s0), 101, 5);
    var t := RowHides(Four(s0), job, ops, q);
    RowMarks(Four(s0), job, ops, q);
    LaterPutOnly(q);
    PutLeaves(q, 102, 6);
    var t' := Reopened(Put1(q, 102, 6).disk, q.l, q.maxLevel, q.store).value;
  }

  // ---- a torn record swallows a later write ----

  const LONG: nat := 100

  ghost function LongPut(): (e: WalEntry)
    ensures e.lsn == 1 && e.kind == PUT && e.key == [97] && |e.value| == LONG
  {
    WalEntry(1, PUT, [97], seq(LONG, _ => 0))
  }

  lemma LongIsGood()
    ensures GoodEntry(LongPut()) && |Record(LongPut())| == 26 + LONG
  {
    hide WriteUint32, WriteUint64;
  }

  lemma ShortRecord(lsn: U64)
    ensures |Record(PutOf(lsn, 98, 2))| == 27
  {
  }

  /** The disk after a crash eight bytes into the first put. */
  ghost function TornDisk(s: State): Files {
    s.disk[s.l.wal := Record(LongPut())[..8]]
  }

  lemma TornDiskIsLeft(s: State)
    requires Calm(s, 0)
    ensures CrashState(s.disk, [Append(s.l.wal, Record(LongPut()))], TornDisk(s)) && Resembles(TornDisk(s), s, 0)
    ensures Contents(TornDisk(s), s.l.wal) == Records([]) + Record(LongPut())[..8]
  {
    hide State.Live, State.Shown, Home, FitsCheckpoint, Record, GoodEntry, LogHolds, GoodLog, Loaded;
    LongIsGood();
    var e, op := LongPut(), Append(s.l.wal, Record(LongPut()));
    assert s.log == [];
    NoRecords();
    FirstOp(s.disk, op);
    assert Contents(s.disk, s.l.wal) + Record(e)[..8] == Record(e)[..8];
    LiveSeparate(s);
    LayoutApart(s.l);
    LoadedElsewhere(s.disk, s.l.wal, Record(e)[..8], s.l.checkpoint);
    TornLogHolds([], e, 8);
    assert Records([]) + Record(e)[..8] == Record(e)[..8];
  }

  /** A put behind the torn record is answered until the next restart, which does not find it. */
  lemma TornRecordSwallows(s: State)
    requires Calm(s, 0)
    ensures var d := TornDisk(s); var r := Reopened(d, s.l, s.maxLevel, s.store);
      && r.Ok? && r.value.log == [] && Answer(Put1(r.value, 98, 2), [98]) == Ok(Some([2]))
      && var r' := Reopened(Put1(r.value, 98, 2).disk, s.l, s.maxLevel, s.store);
         r'.Ok? && r'.value.log == [] && Answer(r'.value, [98]) == Ok(None)
  {
    hide State.Live, State.Durable, State.Shown, Home, FitsCheckpoint, Record, Records, GoodEntry, Resembles, Reopened,
        Recalls, Answer, Loaded, Searchable, Fold;
    var d := TornDisk(s);
    TornDiskIsLeft(s);
    RestartAnswersExactly(d, s, 0, [98]);
    var t := Restarted(d, s, 0);
    assert s.log[0..] == [];
    NothingFolds();
    PutMem(t, 98, 2);
    SwallowedLog(s, t);
    EmptyReopens(Put1(t, 98, 2).disk, s, [98]);
    PutAnswers(t);
  }

  lemma PutAnswers(t: State)
    requires t.mem == []
    ensures Answer(Put1(t, 98, 2), [98]) == Ok(Some([2]))
  {
    PutMem(t, 98, 2);
    Lookup1(Entry([98], [2], false), [98]);
    hide Lookup, Found, Put1;
  }

  lemma SwallowedLog(s: State, t: State)
    requires Calm(s, 0) && t.l == s.l && t.disk == TornDisk(s)[s.l.wal := Contents(TornDisk(s), s.l.wal)]
    ensures var d := Put1(t, 98, 2).disk;
      Entries(Contents(d, s.l.wal)) == [] && Loaded(d, s.l.checkpoint) == Ok(Checkpoint(0, []))
  {
    hide State.Live, State.Shown, Home, FitsCheckpoint, Record, Records, GoodEntry, Scan, DecodeCheckpoint, Upsert;
    LongIsGood();
    ShortRecord(t.nextLsn);
    TornTailSwallows([], LongPut(), 8, Record(PutOf(t.nextLsn, 98, 2)));
    NoRecords();
    assert Records([]) + Record(LongPut())[..8] == Record(LongPut())[..8];
    LiveSeparate(s);
    LayoutApart(s.l);
  }

  lemma EmptyReopens(d: Files, s: State, k: Str)
    requires Entries(Contents(d, s.l.wal)) == [] && Loaded(d, s.l.checkpoint) == Ok(Checkpoint(0, []))
    ensures var r := Reopened(d, s.l, s.maxLevel, s.store); r.Ok? && r.value.log == [] && Answer(r.value, k) == Ok(None)
  {
    hide Scan, Loaded, NextLsn;
  }

  /** A put is cut off by a crash, the store is reopened, another put is acknowledged, and the next restart has lost
      it. */
  lemma TornTailLosesWrite()
    ensures exists s0, t, t' ::
      && Begun(s0, Home(), 7) && CrashState(s0.disk, [Append(s0.l.wal, Record(LongPut()))], TornDisk(s0))
      && Reopened(TornDisk(s0), s0.l, 7, s0.store) == Ok(t) && Answer(Put1(t, 98, 2), [98]) == Ok(Some([2]))
      && Reopened(Put1(t, 98, 2).disk, s0.l, 7, s0.store) == Ok(t') && Answer(t', [98]) == Ok(None)
  {
    hide Begun, State.Live, State.Durable, State.Shown, State.Fitting, Home, Put1, Answer, Reopened, TornDisk, Record,
        CrashState, Resembles;
    var s0 := StartIsCalm();
    TornDiskIsLeft(s0);
    TornRecordSwallows(s0);
    var t := Reopened(TornDisk(s0), s0.l, 7, s0.store).value;
    var t' := Reopened(Put1(t, 98, 2).disk, s0.l, 7, s0.store).value;
  }
}
