/** The compaction manager (src/storage/compaction/compaction_manager.cpp). */
module Compactions {
  import opened Common
  import opened Bytes
  import opened Serializer
  import opened Tables
  import opened Blocks
  import opened SSTableFormat
  import opened SSTables
  import opened Disks
  import opened SkipLists
  import opened Paths
  import opened Merge
  import opened Catalogue
  import opened CompactionTheory

  const SPLIT_SIZE: nat := 64 * 1024 * 1024

  /** Tombstones carry no value: a skip list would not keep it. */
  ghost predicate Plain(es: seq<Entry>) {
    forall i :: 0 <= i < |es| && es[i].tombstone ==> es[i].value == []
  }

  // ---- sorting by smallest key ----

  ghost predicate BySmallest(fs: seq<Meta>) {
    forall i, j :: 0 <= i < j < |fs| ==> AtMost(fs[i].smallest, fs[j].smallest)
  }

  /** One step of the sort. Which of two files with equal smallest keys comes first is left open, as
      std::sort leaves it. */
  method InsertBySmallest(fs: seq<Meta>, f: Meta) returns (r: seq<Meta>)
    requires BySmallest(fs)
    ensures BySmallest(r) && forall x :: x in r <==> x in fs || x == f
    ensures DistinctPaths(fs) && (forall x :: x in fs ==> x.path != f.path) ==> DistinctPaths(r)
  {
    OrderFacts();
    hide Less;
    var p := 0;
    while p < |fs| && Less(fs[p].smallest, f.smallest)
      invariant 0 <= p <= |fs| && forall i :: 0 <= i < p ==> Less(fs[i].smallest, f.smallest)
    {
      p := p + 1;
    }
    r := fs[..p] + [f] + fs[p..];
    assert forall x :: x in fs <==> x in fs[..p] || x in fs[p..] by {
      assert fs == fs[..p] + fs[p..];
    }
  }

  /** `MaxBytesForLevel`, in 64-bit arithmetic. */
  function MaxBytes(level: int): nat {
    if level <= 0 then 0
    else if level == 1 then 10 * 1024 * 1024
    else (MaxBytes(level - 1) * 10) % U64_LIMIT
  }

  /** In closed form: 10 MiB times ten for every level below the first, cut to 64 bits. */
  lemma {:induction false} MaxBytesIs(level: int)
    ensures MaxBytes(level) == if level <= 0 then 0 else (10485760 * Pow(10, level - 1)) % U64_LIMIT
  {
    if level > 1 {
      MaxBytesIs(level - 1);
      TimesTen(10485760 * Pow(10, level - 2));
    }
  }

  lemma TimesTen(n: nat)
    ensures ((n % U64_LIMIT) * 10) % U64_LIMIT == (n * 10) % U64_LIMIT
  {
    assert n * 10 == (n % U64_LIMIT) * 10 + (n / U64_LIMIT * 10) * U64_LIMIT;
    CutsWhole((n % U64_LIMIT) * 10, n / U64_LIMIT * 10);
  }

  lemma CutsWhole(a: nat, times: nat)
    ensures (a + times * U64_LIMIT) % U64_LIMIT == a % U64_LIMIT
  {
  }

  method MaxBytesForLevel(level: int) returns (r: nat)
    ensures r == MaxBytes(level) == if level <= 0 then 0 else (10485760 * Pow(10, level - 1)) % U64_LIMIT
  {
    MaxBytesIs(level);
    if level <= 0 {
      return 0;
    }
    r := 10 * 1024 * 1024;
    var i := 1;
    while i < level
      invariant 1 <= i <= level && r == MaxBytes(i)
    {
      r := (r * 10) % U64_LIMIT;
      i := i + 1;
    }
  }

  /** A level asks for compaction: four files at level 0, too many bytes below. */
  ghost predicate Triggered(files: seq<Meta>, maxLevel: int, level: int) {
    if level == 0 then Weigh(files, CountAt(0)) >= 4
    else 1 <= level < maxLevel - 1 && Weigh(files, BytesAt(level)) % U64_LIMIT > MaxBytes(level)
  }

  /** Told by the files alone: four of them at level 0, or more bytes on disk than ten times as many for every level. */
  lemma TriggeredExactly(files: seq<Meta>, d: Files, maxLevel: int, level: int)
    requires Measured(files, d)
    ensures Triggered(files, maxLevel, level) <==>
      || (level == 0 && |PlacesAt(files, 0)| >= 4)
      || (1 <= level < maxLevel - 1 &&
          Weigh(files, LengthAt(d, level)) % U64_LIMIT > (10485760 * Pow(10, level - 1)) % U64_LIMIT)
  {
    hide Weigh, Pow;
    MeasuredBytes(files, d, level);
    MaxBytesIs(level);
    CountIs(files);
  }

  /** The places of the catalogue that hold files of a level. */
  ghost function PlacesAt(files: seq<Meta>, level: int): set<int> {
    set i | 0 <= i < |files| && files[i].level == level
  }

  lemma {:induction false} CountIs(files: seq<Meta>)
    ensures Weigh(files, CountAt(0)) == |PlacesAt(files, 0)|
  {
    hide Weigh, PlacesAt;
    PlacesMore(files);
    if files == [] {
      WeighMore([], Meta([], 0, [], [], 0, 0), CountAt(0));
    } else {
      var n := |files| - 1;
      CountIs(files[..n]);
      WeighMore(files[..n], files[n], CountAt(0));
      assert files == files[..n] + [files[n]];
    }
  }

  lemma PlacesMore(files: seq<Meta>)
    ensures files == [] ==> PlacesAt(files, 0) == {}
    ensures files != [] ==>
      var n := |files| - 1;
      |PlacesAt(files, 0)| == |PlacesAt(files[..n], 0)| + if files[n].level == 0 then 1 else 0
  {
    if files != [] {
      var n := |files| - 1;
      var front := PlacesAt(files[..n], 0);
      assert PlacesAt(files, 0) == if files[n].level == 0 then front + {n} else front;
    }
  }

  lemma TriggeredHasFiles(files: seq<Meta>, maxLevel: int, level: int)
    requires Triggered(files, maxLevel, level)
    ensures exists f :: f in files && f.level == level
  {
    var f := WeighPositive(files, if level == 0 then CountAt(0) else BytesAt(level));
  }

  /** `CompactionStats`, without the time: what a run sets, and what its merge counts. The byte counters wrap. */
  datatype Stats = Stats(sourceLevel: int, targetLevel: int, filesRead: nat, filesWritten: nat, counts: Counts)
  datatype Counts = Counts(keysMerged: nat, bytesRead: nat, bytesWritten: nat, tombstonesDropped: nat,
                           duplicatesDropped: nat)

  /** The length of a file on disk. */
  ghost function LengthIn(d: Files): Meta -> nat {
    (f: Meta) => if f.path in d then |d[f.path]| else 0
  }

  ghost function LengthAt(d: Files, level: int): Meta -> nat {
    (f: Meta) => if f.level == level && f.path in d then |d[f.path]| else 0
  }

  /** Every recorded size is the length of the file on disk. */
  ghost predicate Measured(files: seq<Meta>, d: Files) {
    forall f :: f in files ==> f.path in d && f.size == |d[f.path]|
  }

  /** So the recorded bytes of a level, or of any files, are those on disk. */
  lemma MeasuredBytes(files: seq<Meta>, d: Files, level: int)
    requires Measured(files, d)
    ensures Weigh(files, BytesAt(level)) == Weigh(files, LengthAt(d, level))
    ensures Weigh(files, SizeOf()) == Weigh(files, LengthIn(d))
  {
    WeighSame(files, BytesAt(level), LengthAt(d, level));
    WeighSame(files, SizeOf(), LengthIn(d));
  }

  /** Where an output is cut: its entries reach the split size, and would not without the last. */
  ghost predicate Cut(es: seq<Entry>) {
    es != [] && TotalSize(es) >= SPLIT_SIZE && TotalSize(es[..|es| - 1]) < SPLIT_SIZE
  }

  /** The state of a compaction manager: its catalogue, the tables in its files, the disk and the file counter. */
  datatype Snapshot = Snapshot(files: seq<Meta>, store: Store, disk: Files, next: nat) {
    ghost predicate OnDisk(path: Str) {
      path in store && path in disk && IsTable(disk[path], store[path]) && Storable(store[path])
    }

    /** The catalogue is well formed and every file is there: enough for lookups. */
    ghost predicate Readable(maxLevel: int) {
      WellFormed(files, store, maxLevel) && forall f :: f in files ==> OnDisk(f.path)
    }

    /** The file counter is ahead of every number in use. A restart resets the counter and can break this. */
    ghost predicate Numbered(dir: Str) {
      && (forall f :: f in files && f.level >= 1 ==> f.seqno <= next)
      && (forall f, level: nat, n: nat :: f in files && level >= 1 && n >= next ==> f.path != OutputPath(dir, level, n))
    }

    ghost predicate Valid(dir: Str, maxLevel: int) {
      Readable(maxLevel) && Numbered(dir) && Measured(files, disk)
    }

    /** Output files `n0`, `n0 + 1`, ... hold sorted, bounded, exactly described tables. */
    ghost predicate Wrote(dir: Str, target: nat, n0: nat, outs: seq<Meta>) {
      && next == n0 + |outs| + 1
      && forall i :: 0 <= i < |outs| ==>
           && outs[i].path == OutputPath(dir, target, n0 + i) && outs[i].level == target && outs[i].seqno == n0 + i + 1
           && OnDisk(outs[i].path) && Describes(outs[i], store[outs[i].path])
           && outs[i].size == |disk[outs[i].path]|
    }

    ghost predicate AllCut(outs: seq<Meta>) {
      forall i :: 0 <= i < |outs| ==> outs[i].path in store && Cut(store[outs[i].path])
    }

    /** Every output but the last is cut at the split size, and the last no later. */
    ghost predicate CutRight(outs: seq<Meta>) {
      outs != [] ==>
        && AllCut(outs[..|outs| - 1]) && outs[|outs| - 1].path in store
        && var last := store[outs[|outs| - 1].path]; last != [] && TotalSize(last[..|last| - 1]) < SPLIT_SIZE
    }

    /** The catalogue of `before` and its files are as they were. */
    ghost predicate Keeps(before: Snapshot) {
      && files == before.files
      && forall f :: f in files ==>
        && f.path in store && f.path in before.store && store[f.path] == before.store[f.path]
        && f.path in disk && f.path in before.disk && disk[f.path] == before.disk[f.path]
    }
  }

  lemma KeepsValid(before: Snapshot, after: Snapshot, dir: Str, maxLevel: int)
    requires before.Valid(dir, maxLevel) && after.Keeps(before) && after.next >= before.next
    ensures after.Valid(dir, maxLevel)
  {
    hide WellFormed, IsTable, Storable, OutputPath;
    assert Measured(after.files, after.disk) by {
      hide Snapshot.Readable, Snapshot.Numbered;
    }
    WellFormedKept(before.files, before.store, after.store, maxLevel);
    forall f | f in after.files ensures after.OnDisk(f.path) {
      assert before.OnDisk(f.path);
    }
  }

  lemma KeepsItself(s: Snapshot, dir: Str, maxLevel: int, next: nat)
    requires s.Valid(dir, maxLevel)
    ensures s.(next := next).Keeps(s)
  {
    hide WellFormed, IsTable, Storable, OutputPath;
    assert forall f :: f in s.files ==> s.OnDisk(f.path);
  }

  /** The disk operations of a merge: one write an output. */
  ghost function WriteOps(outs: seq<Meta>, store: Store): seq<DiskOp> {
    seq(|outs|, i requires 0 <= i < |outs| =>
      Write(outs[i].path, EncodeTable(if outs[i].path in store then store[outs[i].path] else [])))
  }

  /** Those of the swap: one removal an input. */
  ghost function RemoveOps(ms: seq<Meta>): seq<DiskOp> {
    seq(|ms|, i requires 0 <= i < |ms| => Remove(ms[i].path))
  }

  /** Those of a whole run. */
  ghost function CompactOps(j: Job, after: Store): seq<DiskOp> {
    WriteOps(j.outs, after) + RemoveOps(Inputs(j))
  }

  /** The disk while the catalogue is at step `i` of the swap: an input leaves the catalogue before its file goes. */
  ghost function DiskAt(d: Files, j: Job, i: nat): Files
    requires i <= |j.outs| + |Inputs(j)|
  {
    if i <= |j.outs| then d else ApplyAll(d, RemoveOps(Inputs(j)[..i - |j.outs|]))
  }

  /** Every file the catalogue lists is there, at every step. */
  ghost predicate StepThere(files: seq<Meta>, j: Job, d: Files, i: nat)
    requires i <= |j.outs| + |Inputs(j)|
  {
    forall f :: f in StepAt(files, j, i) ==> f.path in DiskAt(d, j, i)
  }

  lemma ListedIsThere(files: seq<Meta>, j: Job, d: Files, i: nat)
    requires i <= |j.outs| + |Inputs(j)| && forall f :: f in files + j.outs ==> f.path in d
    ensures StepThere(files, j, d, i)
  {
    hide RemoveOps, ApplyAll, RemovedAll, Inputs;
    if i > |j.outs| {
      var gone := Inputs(j)[..i - |j.outs|];
      RemovedMembers(files + j.outs, gone);
      RemovalsLeave(gone, d);
    } else {
      assert forall f :: f in files + j.outs[..i] ==> f in files + j.outs;
    }
  }

  lemma NothingRemoved(d: Files)
    ensures RemoveOps([]) == [] && ApplyAll(d, []) == d
  {
  }

  lemma NothingWritten(store: Store, d: Files)
    ensures WriteOps([], store) == [] && ApplyAll(d, []) == d
  {
  }

  /** One more output. */
  lemma WritesMore(outs: seq<Meta>, store: Store, meta: Meta, es: seq<Entry>, d: Files)
    requires forall i :: 0 <= i < |outs| ==> outs[i].path != meta.path
    ensures var write := Write(meta.path, EncodeTable(es));
      && WriteOps(outs + [meta], store[meta.path := es]) == WriteOps(outs, store) + [write]
      && ApplyAll(d, WriteOps(outs, store) + [write])
         == ApplyAll(d, WriteOps(outs, store))[meta.path := EncodeTable(es)]
  {
    hide EncodeTable;
    OneMoreOp(d, WriteOps(outs, store), Write(meta.path, EncodeTable(es)));
  }

  /** One more removal. */
  lemma RemovesMore(ms: seq<Meta>, i: nat, d: Files)
    requires i < |ms|
    ensures RemoveOps(ms[..i + 1]) == RemoveOps(ms[..i]) + [Remove(ms[i].path)]
    ensures ApplyAll(d, RemoveOps(ms[..i + 1])) == ApplyAll(d, RemoveOps(ms[..i])) - {ms[i].path}
  {
    assert RemoveOps(ms[..i + 1]) == RemoveOps(ms[..i]) + [Remove(ms[i].path)];
    OneMoreOp(d, RemoveOps(ms[..i]), Remove(ms[i].path));
  }

  /** What is left after some removals. */
  lemma {:induction false} RemovalsLeave(ms: seq<Meta>, d: Files)
    ensures forall p :: p in ApplyAll(d, RemoveOps(ms)) <==> p in d && forall m :: m in ms ==> m.path != p
    ensures forall p :: p in ApplyAll(d, RemoveOps(ms)) ==> ApplyAll(d, RemoveOps(ms))[p] == d[p]
  {
    if ms == [] {
      assert RemoveOps(ms) == [];
    } else {
      var n := |ms| - 1;
      RemovalsLeave(ms[..n], d);
      assert ms[..n + 1] == ms && ms == ms[..n] + [ms[n]];
      RemovesMore(ms, n, d);
    }
  }

  /** Writes of outputs change nothing but the outputs. */
  lemma {:induction false} WritesLeave(outs: seq<Meta>, store: Store, d: Files)
    ensures forall p :: (forall o :: o in outs ==> o.path != p) ==>
      && (p in ApplyAll(d, WriteOps(outs, store)) <==> p in d)
      && (p in d ==> ApplyAll(d, WriteOps(outs, store))[p] == d[p])
  {
    hide EncodeTable;
    if outs == [] {
      assert WriteOps(outs, store) == [];
    } else {
      var n := |outs| - 1;
      WritesLeave(outs[..n], store, d);
      var write := WriteOps(outs, store)[n];
      assert WriteOps(outs, store) == WriteOps(outs[..n], store) + [write];
      OneMoreOp(d, WriteOps(outs[..n], store), write);
      assert outs == outs[..n] + [outs[n]];
    }
  }

  lemma AddWraps(a: nat, b: nat, rest: nat)
    ensures ((a + b) % U64_LIMIT + rest) % U64_LIMIT == (a + (b + rest)) % U64_LIMIT
  {
  }

  /** Outputs are named after their numbers. */
  ghost predicate NamedOutputs(dir: Str, target: nat, first: nat, outs: seq<Meta>) {
    forall o :: o in outs ==> o.level == target && o.seqno > first && o.path == OutputPath(dir, target, o.seqno - 1)
  }

  /** The next output has a path of its own. */
  lemma NewPath(s: Snapshot, dir: Str, target: nat, n0: nat, outs: seq<Meta>)
    requires s.Wrote(dir, target, n0, outs)
    ensures forall i :: 0 <= i < |outs| ==> outs[i].path != OutputPath(dir, target, n0 + |outs|)
  {
    hide OutputPath, Snapshot.OnDisk, Describes;
    forall i | 0 <= i < |outs| ensures outs[i].path != OutputPath(dir, target, n0 + |outs|) {
      OutputNumbersDiffer(dir, target, n0 + i, n0 + |outs|);
    }
  }

  /** Only the paths of the outputs matter to the writes. */
  lemma SameWrites(a: seq<Meta>, b: seq<Meta>, store: Store)
    requires |a| == |b| && forall i :: 0 <= i < |a| ==> a[i].path == b[i].path
    ensures WriteOps(a, store) == WriteOps(b, store)
  {
    hide EncodeTable;
  }

  lemma PlainEntries(es: seq<Entry>)
    requires Storable(es)
    ensures Plain(es)
  {
  }

  lemma WroteNamed(s: Snapshot, dir: Str, target: nat, n0: nat, outs: seq<Meta>)
    requires s.Wrote(dir, target, n0, outs)
    ensures NamedOutputs(dir, target, n0, outs)
  {
    hide OutputPath, Snapshot.OnDisk, Describes;
    forall o | o in outs ensures o.level == target && o.seqno > n0 && o.path == OutputPath(dir, target, o.seqno - 1) {
      var i :| 0 <= i < |outs| && outs[i] == o;
    }
  }

  /** The `n`-th input is the first that is not there. */
  ghost predicate FirstMissing(s: Snapshot, inputs: seq<Meta>, n: nat) {
    n < |inputs| && inputs[n].path !in s.disk && forall i :: 0 <= i < n ==> s.OnDisk(inputs[i].path)
  }

  /** No file of the level starts before `f`. */
  ghost predicate LeastAt(files: seq<Meta>, level: int, f: Meta) {
    forall g :: g in files && g.level == level ==> AtMost(f.smallest, g.smallest)
  }

  lemma FirstIsLeast(files: seq<Meta>, level: int, all: seq<Meta>)
    requires all != [] && BySmallest(all) && forall f :: f in all <==> f in files && f.level == level
    ensures LeastAt(files, level, all[0])
  {
    OrderFacts();
    hide Less;
    forall g | g in files && g.level == level ensures AtMost(all[0].smallest, g.smallest) {
      var i :| 0 <= i < |all| && all[i] == g;
    }
  }

  /** With newer level-0 files first by smallest key, every order std::sort may give has them first. */
  lemma OrderedIsNewerFirst(files: seq<Meta>, store: Store, maxLevel: int, source: seq<Meta>)
    requires WellFormed(files, store, maxLevel) && Level0Ordered(files, store) && BySmallest(source)
    requires DistinctPaths(source) && forall f :: f in source ==> f in files && f.level == 0
    ensures NewerFirst(source, store)
  {
    OrderFacts();
    hide Less, Holds, Describes, Apart;
    forall i, l, k | 0 <= i < l < |source| && Holds(store, source[i], k) && Holds(store, source[l], k)
      ensures source[i].seqno > source[l].seqno
    {
      assert source[i] in source && source[l] in source && Compatible(source[i], source[l]);
    }
  }

  class CompactionManager {
    const dir: Str
    const maxLevel: int
    const sizes: Sizes
    const disk: Disk
    var files: seq<Meta>
    var nextFileNumber: nat
    ghost var store: Store  // the table in each file

    ghost function Now(): Snapshot
      reads this, disk
    {
      Snapshot(files, store, disk.files, nextFileNumber)
    }

    ghost predicate Valid()
      reads this, disk
    {
      Now().Valid(dir, maxLevel)
    }

    constructor (dir: Str, maxLevel: int, sizes: Sizes, disk: Disk)
      ensures this.dir == dir && this.maxLevel == maxLevel && this.disk == disk && this.sizes == sizes
      ensures files == [] && nextFileNumber == 1 && Valid()
    {
      this.dir, this.maxLevel, this.sizes, this.disk := dir, maxLevel, sizes, disk;
      files, nextFileNumber, store := [], 1, map[];
    }

    lemma Fields()
      ensures Now() == Snapshot(files, store, disk.files, nextFileNumber) && (Valid() <==> Now().Valid(dir, maxLevel))
    {
    }

    // ---- catalogue management ----

    method AddFile(meta: Meta, ghost es: seq<Entry>) returns (r: Result<()>)
      modifies this`files, this`store
      ensures r == if 0 <= meta.level < maxLevel then Ok(()) else Err(InvalidArgument)
      ensures files == if r.Ok? then old(files) + [meta] else old(files)
      ensures store == if r.Ok? then old(store)[meta.path := es] else old(store)
    {
      if meta.level < 0 || meta.level >= maxLevel {
        return Err(InvalidArgument);
      }
      files := files + [meta];
      store := store[meta.path := es];
      r := Ok(());
    }

    method RemoveFile(path: Str)
      modifies this`files
      ensures files == Without(old(files), path)
    {
      hide *;
      var kept: seq<Meta> := [];
      var i := 0;
      WithoutStep(files, path, 0);
      while i < |files|
        invariant 0 <= i <= |files| && files == old(files)
        invariant kept + Without(files[i..], path) == Without(files, path)
      {
        WithoutStep(files, path, i);
        if files[i].path != path {
          kept := kept + [files[i]];
        }
        i := i + 1;
      }
      WithoutStep(files, path, i);
      files := kept;
    }

    method GetFilesAtLevel(level: int) returns (r: seq<Meta>)
      ensures forall f :: f in r <==> f in files && f.level == level
      ensures BySmallest(r) && (DistinctPaths(files) ==> DistinctPaths(r))
    {
      hide Less, AtMost;
      r := [];
      var i := 0;
      while i < |files|
        invariant 0 <= i <= |files| && BySmallest(r)
        invariant forall f :: f in r <==> f in files[..i] && f.level == level
        invariant DistinctPaths(files) ==> DistinctPaths(r)
      {
        assert files[..i + 1] == files[..i] + [files[i]];
        if files[i].level == level {
          r := InsertBySmallest(r, files[i]);
        }
        i := i + 1;
      }
      assert files[..i] == files;
    }

    method TotalBytesAtLevel(level: int) returns (total: nat)
      ensures total == Weigh(files, BytesAt(level)) % U64_LIMIT
      ensures Measured(files, disk.files) ==> total == Weigh(files, LengthAt(disk.files, level)) % U64_LIMIT
    {
      total := 0;
      var i := 0;
      while i < |files|
        invariant 0 <= i <= |files| && total < U64_LIMIT
        invariant (total + Weigh(files[i..], BytesAt(level))) % U64_LIMIT == Weigh(files, BytesAt(level)) % U64_LIMIT
      {
        assert files[i..][1..] == files[i + 1..];
        if files[i].level == level {
          AddWraps(total, files[i].size, Weigh(files[i + 1..], BytesAt(level)));
          total := (total + files[i].size) % U64_LIMIT;
        }
        i := i + 1;
      }
      if Measured(files, disk.files) {
        MeasuredBytes(files, disk.files, level);
      }
    }

    method Level0FileCount() returns (n: nat)
      ensures n == Weigh(files, CountAt(0))
    {
      n := 0;
      var i := 0;
      while i < |files|
        invariant 0 <= i <= |files| && n + Weigh(files[i..], CountAt(0)) == Weigh(files, CountAt(0))
      {
        assert files[i..][1..] == files[i + 1..];
        if files[i].level == 0 {
          n := n + 1;
        }
        i := i + 1;
      }
    }

    // ---- when to compact ----

    /** The first level whose trigger fires, or -1. */
    method PickCompactionLevel() returns (level: int)
      ensures level == -1 || Triggered(files, maxLevel, level)
      ensures forall l :: 0 <= l && (level == -1 || l < level) ==> !Triggered(files, maxLevel, l)
    {
      var count := Level0FileCount();
      if count >= 4 {
        return 0;
      }
      level := 1;
      while level < maxLevel - 1
        invariant 1 <= level && forall l :: 0 <= l < level ==> !Triggered(files, maxLevel, l)
      {
        var total := TotalBytesAtLevel(level);
        var limit := MaxBytesForLevel(level);
        if total > limit {
          return level;
        }
        level := level + 1;
      }
      level := -1;
    }

    method NeedsCompaction() returns (needed: bool)
      ensures needed <==> exists l :: 0 <= l && Triggered(files, maxLevel, l)
    {
      var level := PickCompactionLevel();
      needed := level != -1;
    }

    // ---- what to compact ----

    /** All of level 0 or the first file of a deeper level, and the next level's files that overlap it. */
    method SelectCompactionFiles(level: int) returns (source: seq<Meta>, target: seq<Meta>)
      requires Now().Readable(maxLevel) && level >= 0
      ensures source == [] ==> target == [] && forall f :: f in files ==> f.level != level
      ensures source != [] ==> Selection(files, level, source, target) && DistinctPaths(source + target)
      ensures source != [] ==> forall f :: f in files && f.level == level + 1 ==> (f in target <==> Meets(source, f))
      ensures BySmallest(source) && (source != [] ==> LeastAt(files, level, source[0]))
    {
      hide Less, AtMost, IsTable, Storable, Overlaps, Covers, LeastAt, Meets;
      var all := GetFilesAtLevel(level);
      if all == [] {
        return [], [];
      }
      FirstIsLeast(files, level, all);
      source := if level == 0 then all else [all[0]];
      assert forall f :: f in source ==> f in all;
      var lo, hi := RangeOf(source);
      var next := GetFilesAtLevel(level + 1);
      target := OverlappingFiles(next, lo, hi);
      SelectedApart(files, source, target, level);
      forall f | f in files && f.level == level + 1 ensures f in target <==> Meets(source, f) {
        SelectedExactly(files, store, maxLevel, level, source, target, f);
      }
    }

    static method OverlappingFiles(next: seq<Meta>, lo: Str, hi: Str) returns (target: seq<Meta>)
      ensures forall f :: f in target <==> f in next && Overlaps(f, lo, hi)
      ensures DistinctPaths(next) ==> DistinctPaths(target)
    {
      hide Less, Overlaps;
      target := [];
      var i := 0;
      while i < |next|
        invariant 0 <= i <= |next| && (DistinctPaths(next) ==> DistinctPaths(target))
        invariant forall f :: f in target <==> f in next[..i] && Overlaps(f, lo, hi)
      {
        assert next[..i + 1] == next[..i] + [next[i]];
        if Overlaps(next[i], lo, hi) {
          forall n | DistinctPaths(next) && 0 <= n < |target| ensures target[n].path != next[i].path {
            assert target[n] in next[..i];
          }
          target := target + [next[i]];
        }
        i := i + 1;
      }
      assert next[..i] == next;
    }

    static method RangeOf(source: seq<Meta>) returns (lo: Str, hi: Str)
      requires source != []
      ensures Covers(source, lo, hi)
    {
      lo, hi := source[0].smallest, source[0].largest;
      assert source[0] in source;
      var i := 0;
      OrderFacts();
      hide Less;
      while i < |source|
        invariant 0 <= i <= |source|
        invariant forall n :: 0 <= n < i ==> AtMost(lo, source[n].smallest) && AtMost(source[n].largest, hi)
        invariant (exists f :: f in source && f.smallest == lo) && (exists f :: f in source && f.largest == hi)
      {
        assert source[i] in source;
        if Less(source[i].smallest, lo) {
          lo := source[i].smallest;
        }
        if Less(hi, source[i].largest) {
          hi := source[i].largest;
        }
        i := i + 1;
      }
    }

    // ---- merging ----

    method GenerateOutputPath(level: nat) returns (path: Str)
      modifies this`nextFileNumber
      ensures path == OutputPath(dir, level, old(nextFileNumber)) && nextFileNumber == old(nextFileNumber) + 1
    {
      path := OutputPath(dir, level, nextFileNumber);
      nextFileNumber := nextFileNumber + 1;
    }

    /** Writes sorted entries through a skip list, as the flush path does. */
    method WriteVectorToSSTable(path: Str, entries: seq<Entry>) returns (r: Result<()>)
      requires Sorted(entries) && Plain(entries)
      modifies disk
      ensures entries == [] ==>
        r == Err(InvalidArgument) && disk.files == old(disk.files) && disk.trace == old(disk.trace)
      ensures entries != [] ==>
        && r.Ok? && path in disk.files && disk.files == old(disk.files)[path := disk.files[path]]
        && disk.trace == old(disk.trace) + [Write(path, disk.files[path])]
      ensures entries != [] && Fits(entries) ==> disk.files[path] == EncodeTable(entries)
    {
      hide Less, Fits, EncodeTable;
      if entries == [] {
        return Err(InvalidArgument);
      }
      var list := BuildList(entries);
      var it := list.Begin();
      r := WriteTable(disk, path, it);
    }

    method BuildList(entries: seq<Entry>) returns (list: SkipList)
      requires Sorted(entries) && Plain(entries)
      ensures fresh(list) && list.Valid() && list.Entries() == entries
    {
      hide Less, Upsert, Linked, Shape, Clean, CellsOf, Usage, EntriesOf;
      list := new SkipList(sizes);
      var i := 0;
      while i < |entries|
        invariant 0 <= i <= |entries| && list.Valid() && list.Entries() == entries[..i]
        invariant fresh(list.Repr()) && list in list.Repr() && list.head in list.Repr()
        invariant forall n :: 0 <= n < |list.nodes| ==> fresh(list.nodes[n])
      {
        NextInOrder(entries, i);
        if entries[i].tombstone {
          list.Delete(entries[i].key);
        } else {
          list.Put(entries[i].key, entries[i].value);
        }
        assert forall n :: 0 <= n < |list.nodes| ==> list.nodes[n] in list.Repr();
        i := i + 1;
      }
      assert entries[..i] == entries;
    }

    /** The lambda `flush_output`. */
    method FlushOutput(target: nat, ghost n0: nat, entries: seq<Entry>, path: Str, outs: seq<Meta>, written: nat)
      returns (outs': seq<Meta>, path': Str, written': nat)
      requires Now().Wrote(dir, target, n0, outs) && path == OutputPath(dir, target, n0 + |outs|)
      requires Sorted(entries) && Storable(entries) && TotalSize(entries) <= COMFORTABLE_SIZE
      modifies this`nextFileNumber, this`store, disk
      ensures entries == [] ==>
        && outs' == outs && path' == path && store == old(store) && written' == written
        && disk.files == old(disk.files) && disk.trace == old(disk.trace)
      ensures entries != [] ==>
        && |outs'| == |outs| + 1 && outs'[..|outs|] == outs
        && store == old(store)[path := entries] && outs'[|outs|].path == path
        && disk.files == old(disk.files)[path := EncodeTable(entries)]
        && outs'[|outs|].size == |disk.files[path]| && written' == (written + |disk.files[path]|) % U64_LIMIT
        && disk.trace == old(disk.trace) + [Write(path, EncodeTable(entries))]
      ensures Now().Wrote(dir, target, n0, outs') && path' == OutputPath(dir, target, n0 + |outs'|)
      ensures Flatten(TablesOf(outs', store)) == Flatten(TablesOf(outs, old(store))) + entries
    {
      hide Less, EncodeTable, Sorted, Storable, TotalSize, OutputPath, IsTable, Fits, Describes, Flatten,
          Snapshot.Wrote;
      outs', path', written' := outs, path, written;
      assert Flatten(TablesOf(outs, store)) + [] == Flatten(TablesOf(outs, store));
      if entries != [] {
        ghost var before := Now();
        ComfortableTableFits(entries);
        PlainEntries(entries);
        WroteAhead(before, dir, target, n0, outs);
        var status := WriteVectorToSSTable(path, entries);
        var meta := Meta(path, target, entries[0].key, entries[|entries| - 1].key, |disk.files[path]|, nextFileNumber);
        store := store[path := entries];
        outs' := outs + [meta];
        written' := (written + meta.size) % U64_LIMIT;
        path' := GenerateOutputPath(target);
        TableWritten(disk.files[path], entries, meta);
        WroteMore(before, Now(), dir, target, n0, outs, meta, entries);
      }
    }

    /** Reads every input in full. */
    method ReadInputs(inputs: seq<Meta>) returns (r: Result<seq<seq<Entry>>>, keys: nat, bytes: nat)
      ensures (forall i :: 0 <= i < |inputs| ==> Now().OnDisk(inputs[i].path)) ==>
        r == Ok(TablesOf(inputs, store)) && keys == Total(TablesOf(inputs, store))
      ensures r.Ok? ==> bytes == Weigh(inputs, SizeOf()) % U64_LIMIT
      ensures forall n :: FirstMissing(Now(), inputs, n) ==> r == Err(IoError)
    {
      hide IsTable, DecodeFile, Storable, Total, Weigh, SizeOf, TablesOf, EncodeTable;
      NoTables();
      NoBytes();
      ghost var all := TablesOf(inputs, store);
      ghost var there := forall i :: 0 <= i < |inputs| ==> Now().OnDisk(inputs[i].path);
      var ts: seq<seq<Entry>> := [];
      keys, bytes := 0, 0;
      var i := 0;
      while i < |inputs|
        invariant 0 <= i <= |inputs| && |ts| == i && keys == Total(ts)
        invariant bytes == Weigh(inputs[..i], SizeOf()) % U64_LIMIT
        invariant there ==> ts == all[..i]
        invariant forall n :: 0 <= n < i ==> inputs[n].path in disk.files
      {
        ghost var es := all[i];
        if Now().OnDisk(inputs[i].path) {
          TableOpens(disk.files[inputs[i].path], es);
        }
        var reader := SSTableReader.Open(disk, inputs[i].path);
        if reader.Err? {
          return Err(reader.error), keys, bytes;
        }
        var read := reader.value.ReadAll(disk, es);
        if read.Err? {
          return Err(read.error), keys, bytes;
        }
        OneMoreTable(ts, read.value);
        ts := ts + [read.value];
        keys := keys + |read.value|;
        CountMore(inputs[..i], inputs[i], bytes);
        assert inputs[..i + 1] == inputs[..i] + [inputs[i]];
        bytes := (bytes + inputs[i].size) % U64_LIMIT;
        i := i + 1;
      }
      assert inputs[..i] == inputs;
      assert there ==> all[..i] == all;
      r := Ok(ts);
    }

    /** The output side of the merge loop: what is written so far, with the catalogued files of `before` as they
        were. */
    ghost predicate Writing(before: Snapshot, trace: seq<DiskOp>, target: nat, current: seq<Entry>, estimate: nat,
        path: Str, outs: seq<Meta>, written: nat)
      reads this, disk
    {
      && Now().Wrote(dir, target, before.next, outs) && path == OutputPath(dir, target, before.next + |outs|)
      && Storable(current) && estimate == TotalSize(current) < SPLIT_SIZE
      && Now().Keeps(before) && Did(before, trace, outs)
      && Now().AllCut(outs) && written == Weigh(outs, SizeOf()) % U64_LIMIT
    }

    /** The outputs written are all that was done to the disk. */
    ghost predicate Did(before: Snapshot, trace: seq<DiskOp>, outs: seq<Meta>)
      reads this, disk
    {
      disk.trace == trace + WriteOps(outs, store) && disk.files == ApplyAll(before.disk, WriteOps(outs, store))
    }

    /** Adds an entry to the open output and closes it when it reaches the split size. */
    method Emit(ghost before: Snapshot, ghost trace: seq<DiskOp>, target: nat, e: Entry, current: seq<Entry>,
        estimate: nat, path: Str, outs: seq<Meta>, written: nat)
      returns (current': seq<Entry>, estimate': nat, outs': seq<Meta>, path': Str, written': nat)
      requires Writing(before, trace, target, current, estimate, path, outs, written) && before.Numbered(dir)
          && target >= 1
      requires Sorted(current + [e]) && Storable(current + [e]) && EncodedSize(e) <= ENTRY_LIMIT
      modifies this`nextFileNumber, this`store, disk
      ensures Writing(before, trace, target, current', estimate', path', outs', written')
      ensures Flatten(TablesOf(outs', store)) + current' == Flatten(TablesOf(outs, old(store))) + (current + [e])
    {
      hide Less, Snapshot.Wrote, OutputPath, Flatten, Sorted, Storable, TotalSize, CompactionManager.Did,
          Snapshot.Keeps, Snapshot.Numbered, Snapshot.AllCut, Weigh;
      current' := current + [e];
      estimate' := estimate + 4 + |e.key| + 4 + |e.value| + 1;
      OneMore(current, e);
      outs', path', written' := outs, path, written;
      if estimate' >= SPLIT_SIZE {
        assert current'[..|current|] == current;
        outs', path', written' := CloseOutput(before, trace, target, current', path, outs, written);
        current', estimate' := [], 0;
        NothingStored();
        assert Flatten(TablesOf(outs', store)) + [] == Flatten(TablesOf(outs', store));
      }
    }

    /** Writes the open output, if it holds anything; nothing else on disk changes. */
    method CloseOutput(ghost before: Snapshot, ghost trace: seq<DiskOp>, target: nat, current: seq<Entry>, path: Str,
        outs: seq<Meta>, written: nat)
      returns (outs': seq<Meta>, path': Str, written': nat)
      requires Now().Wrote(dir, target, before.next, outs) && path == OutputPath(dir, target, before.next + |outs|)
      requires Sorted(current) && Storable(current) && TotalSize(current) <= COMFORTABLE_SIZE
      requires Now().Keeps(before) && before.Numbered(dir) && target >= 1
          && Did(before, trace, outs)
      requires Now().AllCut(outs) && written == Weigh(outs, SizeOf()) % U64_LIMIT
      modifies this`nextFileNumber, this`store, disk
      ensures Now().Wrote(dir, target, before.next, outs') && path' == OutputPath(dir, target, before.next + |outs'|)
      ensures Flatten(TablesOf(outs', store)) == Flatten(TablesOf(outs, old(store))) + current
      ensures Now().Keeps(before) && Did(before, trace, outs')
      ensures written' == Weigh(outs', SizeOf()) % U64_LIMIT
      ensures Cut(current) ==> Now().AllCut(outs')
      ensures TotalSize(current) < SPLIT_SIZE ==> Now().CutRight(outs')
    {
      hide Less, OutputPath, Flatten, Sorted, Storable, TotalSize, WriteOps, ApplyAll, EncodeTable, TablesOf,
          Snapshot.Wrote, Snapshot.AllCut, Snapshot.CutRight, Weigh, Cut;
      ghost var was := Now();
      if current != [] {
        NewPath(Now(), dir, target, before.next, outs);
        WritesMore(outs, store, Meta(path, target, [], [], 0, 0), current, before.disk);
      }
      outs', path', written' := FlushOutput(target, before.next, current, path, outs, written);
      if current != [] {
        SameWrites(outs', outs + [Meta(path, target, [], [], 0, 0)], store);
        CountMore(outs, outs'[|outs|], written);
        assert outs' == outs + [outs'[|outs|]];
      }
      CutMore(was, Now(), dir, target, before.next, outs, outs', current);
    }

    lemma InputsSorted(inputs: seq<Meta>)
      requires forall i :: 0 <= i < |inputs| ==> Now().OnDisk(inputs[i].path)
      ensures AllSorted(TablesOf(inputs, store))
      ensures forall i :: 0 <= i < |inputs| ==> Storable(TablesOf(inputs, store)[i])
    {
      forall i | 0 <= i < |inputs| ensures Sorted(TablesOf(inputs, store)[i]) && Storable(TablesOf(inputs, store)[i]) {
        assert Now().OnDisk(inputs[i].path);
      }
    }

    /** The N-way merge. The outputs are the merge of the inputs, cut at 64 MiB, and every merged key is
        accounted for as written, dropped as a duplicate or dropped as a tombstone. */
    method MergeFiles(inputs: seq<Meta>, target: nat)
      returns (r: Result<seq<Meta>>, counts: Counts, ghost out: seq<Entry>)
      requires Valid() && target >= 1 && Distinct(RanksOf(inputs))
      requires forall i :: 0 <= i < |inputs| ==> Now().OnDisk(inputs[i].path)
      modifies this`nextFileNumber, this`store, disk
      ensures Valid() && Now().Keeps(old(Now()))
      ensures r.Ok? && Now().Wrote(dir, target, old(nextFileNumber), r.value)
          && Flatten(TablesOf(r.value, store)) == out
      ensures IsMerge(TablesOf(inputs, old(store)), RanksOf(inputs), target == maxLevel - 1, out)
      ensures Accounts(TablesOf(inputs, old(store)), RanksOf(inputs), target == maxLevel - 1, inputs, r.value, out,
          counts)
      ensures Now().CutRight(r.value)
      ensures disk.trace == old(disk.trace) + WriteOps(r.value, store)
      ensures disk.files == ApplyAll(old(disk.files), WriteOps(r.value, store))
    {
      hide *;
      Fields();
      var read, keysMerged, bytesRead := ReadInputs(inputs);
      var ts := read.value;
      InputsSorted(inputs);
      var numbers := seq(|inputs|, i requires 0 <= i < |inputs| => inputs[i].seqno);
      RanksAre(inputs, numbers);
      var heap, cursor := SeedHeap(ts, numbers);
      ghost var pos := seq(|ts|, _ => 0);
      var bottom := target == maxLevel - 1;
      var outs, current, last, estimate: nat, written: nat := [], [], [], 0, 0;
      var duplicates, tombstones := 0, 0;
      ghost var erased: set<Str> := {};
      ghost var before, trace := Now(), disk.trace;
      var path := GenerateOutputPath(target);
      Fields();
      StartWriting(before, trace, target, path);
      out := [];
      ghost var ranks := RanksOf(inputs);
      MergeStart(ts, ranks, bottom);
      ErasingStarts(ts, ranks, bottom);
      while heap != []
        invariant |pos| == |ts| && HeapOk(ts, ranks, pos, cursor, heap) && Merging(ts, ranks, bottom, pos, last, out)
        invariant out == Flatten(TablesOf(outs, store)) + current
            && Writing(before, trace, target, current, estimate, path, outs, written)
        invariant Erasing(ts, ranks, bottom, last, erased) && tombstones == |erased|
        invariant Sum(pos) == |out| + duplicates + tombstones <= Total(ts)
        decreases Total(ts) - Sum(pos)
      {
        var item;
        item, cursor, heap := Advance(ts, numbers, pos, cursor, heap);
        ghost var f := item.file;
        ghost var next := pos[f := pos[f] + 1];
        PopCounts(ts, ranks, pos, cursor, heap, f);
        if item.entry.key == last {
          MergingDuplicate(ts, ranks, bottom, pos, last, out, f);
          duplicates := duplicates + 1;
        } else {
          ErasingStep(ts, ranks, bottom, pos, last, out, f, erased);
          MergingEmits(ts, ranks, bottom, pos, last, out, f);
          last := item.entry.key;
          if item.entry.tombstone && bottom {
            tombstones := tombstones + 1;
            erased := erased + {last};
          } else {
            StillWriting(before, trace, target, current, estimate, path, outs, written);
            EntryStorable(ts, f, pos[f], current);
            out := out + [item.entry];
            assert out == Flatten(TablesOf(outs, store)) + (current + [item.entry]);
            EmittedSorted(ts, ranks, bottom, next, last, Flatten(TablesOf(outs, store)), current + [item.entry]);
            current, estimate, outs, path, written :=
              Emit(before, trace, target, item.entry, current, estimate, path, outs, written);
          }
        }
        pos := next;
      }
      EmittedSorted(ts, ranks, bottom, pos, last, Flatten(TablesOf(outs, store)), current);
      StillWriting(before, trace, target, current, estimate, path, outs, written);
      outs, path, written := CloseOutput(before, trace, target, current, path, outs, written);
      HeapDrained(ts, ranks, pos, cursor);
      ErasingEnds(ts, ranks, bottom, pos, last, out, erased);
      MergeDone(ts, ranks, bottom, pos, last, out);
      DoneWriting(before, trace, target, outs);
      counts := Counts(keysMerged, bytesRead, written, tombstones, duplicates);
      AccountsAre(ts, ranks, bottom, inputs, outs, out, counts);
      r := Ok(outs);
    }

    lemma StartWriting(before: Snapshot, trace: seq<DiskOp>, target: nat, path: Str)
      requires before.Valid(dir, maxLevel) && Now() == before.(next := before.next + 1)
          && path == OutputPath(dir, target, before.next) && trace == disk.trace
      ensures Writing(before, trace, target, [], 0, path, [], 0) && Flatten(TablesOf([], store)) == []
          && before.Numbered(dir)
    {
      hide OutputPath, Flatten, Storable, WriteOps, Snapshot.OnDisk, Snapshot.Wrote, Snapshot.Numbered, WellFormed,
          TotalSize;
      NothingStored();
      KeepsItself(before, dir, maxLevel, nextFileNumber);
      WroteAhead(Now(), dir, target, before.next, []);
      NothingWritten(store, disk.files);
    }

    lemma StillWriting(before: Snapshot, trace: seq<DiskOp>, target: nat, current: seq<Entry>, estimate: nat, path: Str,
        outs: seq<Meta>, written: nat)
      requires Writing(before, trace, target, current, estimate, path, outs, written)
      ensures Now().Wrote(dir, target, before.next, outs) && path == OutputPath(dir, target, before.next + |outs|)
      ensures Storable(current) && TotalSize(current) <= COMFORTABLE_SIZE && Now().Keeps(before)
          && Did(before, trace, outs)
      ensures TotalSize(current) < SPLIT_SIZE && Now().AllCut(outs) && written == Weigh(outs, SizeOf()) % U64_LIMIT
    {
      hide OutputPath, Storable, CompactionManager.Did, Snapshot.OnDisk, Snapshot.Wrote, Snapshot.Keeps, TotalSize,
          Snapshot.AllCut, Weigh;
    }

    lemma DoneWriting(before: Snapshot, trace: seq<DiskOp>, target: nat, outs: seq<Meta>)
      requires before.Valid(dir, maxLevel) && Now().Wrote(dir, target, before.next, outs) && Now().Keeps(before)
      requires Did(before, trace, outs)
      ensures Valid() && disk.trace == trace + WriteOps(outs, store)
      ensures disk.files == ApplyAll(before.disk, WriteOps(outs, store))
    {
      hide Snapshot.Valid, Snapshot.Keeps, Snapshot.Wrote;
      WroteAhead(Now(), dir, target, before.next, outs);
      KeepsValid(before, Now(), dir, maxLevel);
    }

    // ---- one run ----

    /** Sources get the highest numbers, in their order; targets the lowest. */
    static method Renumber(source: seq<Meta>, target: seq<Meta>) returns (inputs: seq<Meta>)
      ensures |inputs| == |source| + |target| && RanksOf(inputs) == Renumbered(|source|, |target|)
      ensures forall i :: 0 <= i < |source| ==> inputs[i] == source[i].(seqno := |source| + |target| - i)
      ensures forall i :: 0 <= i < |target| ==> inputs[|source| + i] == target[i].(seqno := i)
    {
      var total := |source| + |target|;
      inputs := [];
      var i := 0;
      while i < |source|
        invariant 0 <= i <= |source| && |inputs| == i
        invariant forall n :: 0 <= n < i ==> inputs[n] == source[n].(seqno := total - n)
      {
        inputs := inputs + [source[i].(seqno := total - i)];
        i := i + 1;
      }
      i := 0;
      while i < |target|
        invariant 0 <= i <= |target| && |inputs| == |source| + i
        invariant forall n :: 0 <= n < |source| ==> inputs[n] == source[n].(seqno := total - n)
        invariant forall n :: 0 <= n < i ==> inputs[|source| + n] == target[n].(seqno := n)
      {
        inputs := inputs + [target[i].(seqno := i)];
        i := i + 1;
      }
      forall n | 0 <= n < |inputs| ensures inputs[n].seqno == Renumbered(|source|, |target|)[n] {
        assert n >= |source| ==> inputs[|source| + (n - |source|)] == target[n - |source|].(seqno := n - |source|);
      }
    }

    /** Adds the outputs, then removes the inputs and their files, one at a time. `steps` are the
        catalogues a reader can see on the way. */
    method SwapFiles(outs: seq<Meta>, inputs: seq<Meta>, ghost j: Job)
        returns (r: Result<()>, ghost steps: seq<seq<Meta>>)
      requires j.outs == outs && |inputs| == |Inputs(j)|
      requires forall i :: 0 <= i < |inputs| ==> inputs[i].path == Inputs(j)[i].path
      requires forall i :: 0 <= i < |outs| ==> outs[i].path in store
      modifies this`files, this`store, disk
      ensures r.Ok? <==> forall i :: 0 <= i < |outs| ==> 0 <= outs[i].level < maxLevel
      ensures r.Ok? ==>
        && store == old(store) && files == RemovedAll(old(files) + outs, Inputs(j))
        && |steps| == |outs| + |inputs| + 1
        && forall i :: 0 <= i < |steps| ==> steps[i] == StepAt(old(files), j, i)
      ensures r.Ok? ==>
        && disk.trace == old(disk.trace) + RemoveOps(Inputs(j))
        && disk.files == ApplyAll(old(disk.files), RemoveOps(Inputs(j)))
      ensures (forall f :: f in old(files) + outs ==> f.path in old(disk.files)) ==>
        forall i :: 0 <= i <= |outs| + |Inputs(j)| ==> StepThere(old(files), j, old(disk.files), i)
    {
      hide RemoveOps, ApplyAll, RemovedAll, StepThere;
      if forall f :: f in files + outs ==> f.path in disk.files {
        forall i | 0 <= i <= |outs| + |Inputs(j)| ensures StepThere(files, j, disk.files, i) {
          ListedIsThere(files, j, disk.files, i);
        }
      }
      r, steps := AddOutputs(outs, j);
      if r.Err? {
        return;
      }
      ghost var more := RemoveInputs(inputs, j, old(files));
      steps := steps + more;
    }

    method AddOutputs(outs: seq<Meta>, ghost j: Job) returns (r: Result<()>, ghost steps: seq<seq<Meta>>)
      requires j.outs == outs && forall i :: 0 <= i < |outs| ==> outs[i].path in store
      modifies this`files, this`store
      ensures r.Ok? <==> forall i :: 0 <= i < |outs| ==> 0 <= outs[i].level < maxLevel
      ensures r.Ok? ==> store == old(store) && files == old(files) + outs && |steps| == |outs| + 1
      ensures r.Ok? ==> forall i :: 0 <= i < |steps| ==> steps[i] == StepAt(old(files), j, i)
    {
      steps := [files];
      var i := 0;
      while i < |outs|
        invariant 0 <= i <= |outs| && files == old(files) + outs[..i] && store == old(store)
        invariant forall n :: 0 <= n < i ==> 0 <= outs[n].level < maxLevel
        invariant |steps| == i + 1 && forall n :: 0 <= n < |steps| ==> steps[n] == StepAt(old(files), j, n)
      {
        var added := AddFile(outs[i], store[outs[i].path]);
        if added.Err? {
          return Err(added.error), steps;
        }
        assert store == old(store);
        assert files == old(files) + outs[..i + 1];
        steps := steps + [files];
        i := i + 1;
      }
      assert outs[..i] == outs;
      r := Ok(());
    }

    method RemoveInputs(inputs: seq<Meta>, ghost j: Job, ghost before: seq<Meta>) returns (ghost steps: seq<seq<Meta>>)
      requires |inputs| == |Inputs(j)| && forall i :: 0 <= i < |inputs| ==> inputs[i].path == Inputs(j)[i].path
      requires files == before + j.outs
      modifies this`files, disk
      ensures files == RemovedAll(before + j.outs, Inputs(j)) && |steps| == |inputs|
      ensures forall i :: 0 <= i < |steps| ==> steps[i] == StepAt(before, j, |j.outs| + 1 + i)
      ensures disk.trace == old(disk.trace) + RemoveOps(Inputs(j))
      ensures disk.files == ApplyAll(old(disk.files), RemoveOps(Inputs(j)))
    {
      hide Without, RemoveOps, ApplyAll;
      steps := [];
      NothingRemoved(disk.files);
      var i := 0;
      while i < |inputs|
        invariant 0 <= i <= |inputs| && files == RemovedAll(before + j.outs, Inputs(j)[..i]) && |steps| == i
        invariant forall n :: 0 <= n < |steps| ==> steps[n] == StepAt(before, j, |j.outs| + 1 + n)
        invariant disk.trace == old(disk.trace) + RemoveOps(Inputs(j)[..i])
        invariant disk.files == ApplyAll(old(disk.files), RemoveOps(Inputs(j)[..i]))
      {
        RemoveFile(inputs[i].path);
        RemovesMore(Inputs(j), i, old(disk.files));
        disk.Perform(Remove(inputs[i].path));
        assert Inputs(j)[..i + 1][..i] == Inputs(j)[..i];
        steps := steps + [files];
        i := i + 1;
      }
      assert Inputs(j)[..i] == Inputs(j);
    }

    /** Selects, merges and swaps. */
    method RunCompaction() returns (r: Result<Stats>, ghost job: Job, ghost steps: seq<seq<Meta>>)
      requires Valid() && maxLevel >= 2
      modifies this`files, this`store, this`nextFileNumber, disk
      ensures Valid()
      ensures r.Err? ==>
        r.error == NotFound && unchanged(this) && unchanged(disk)
      ensures r.Ok? <==> exists level :: 0 <= level && Triggered(old(files), maxLevel, level)
      ensures r.Ok? ==> Triggered(old(files), maxLevel, job.level) && forall level ::
        0 <= level < job.level ==> !Triggered(old(files), maxLevel, level)
      ensures r.Ok? ==>
        && JobOk(old(files), old(store), maxLevel, job, store) && BySmallest(job.source)
            && OutputsNewer(old(files), job)
        && files == RemovedAll(old(files) + job.outs, Inputs(job)) && DistinctPaths(old(files) + job.outs)
        && |steps| == |job.outs| + |Inputs(job)| + 1
        && forall i :: 0 <= i < |steps| ==> steps[i] == StepAt(old(files), job, i)
      ensures r.Ok? ==>
        && r.value.sourceLevel == job.level && r.value.targetLevel == job.level + 1
        && r.value.filesWritten == |job.outs| && r.value.filesRead == |Inputs(job)|
        && Accounts(TablesOf(Inputs(job), old(store)), Renumbered(|job.source|, |job.target|), job.bottom, Inputs(job),
             job.outs, job.out, r.value.counts)
        && r.value.counts.bytesRead == Weigh(Inputs(job), LengthIn(old(disk.files))) % U64_LIMIT
        && r.value.counts.bytesWritten == Weigh(job.outs, LengthIn(disk.files)) % U64_LIMIT
      ensures r.Ok? ==> Now().CutRight(job.outs)
      ensures r.Ok? ==> forall k ::
        Visible(Version(files, store, k)) == Visible(Version(old(files), old(store), k))
        <==> KeepsAnswer(old(files), old(store), job, k)
      ensures r.Ok? ==> Weigh(files, Potential(store, maxLevel)) < old(Weigh(files, Potential(store, maxLevel)))
      ensures r.Ok? ==>
        && job.level >= 0 && NamedOutputs(dir, job.level + 1, old(nextFileNumber), job.outs)
        && nextFileNumber > old(nextFileNumber)
        && disk.trace == old(disk.trace) + CompactOps(job, store)
        && disk.files == ApplyAll(old(disk.files), CompactOps(job, store))
      ensures r.Ok? ==> forall i :: 0 <= i < |steps| ==>
        StepThere(old(files), job, ApplyAll(old(disk.files), WriteOps(job.outs, store)), i)
    {
      hide Less, OutputPath, IsTable, Flatten, IsMerge, Total, Describes, WellFormed, Storable, Potential, Version,
          KeepsAnswer, JobOk, StepAt, TablesOf, Snapshot.OnDisk, Selection, Renumbered, RemovedAll, Snapshot.Wrote,
          Weigh, Snapshot.Valid, Snapshot.Keeps, BySmallest, WriteOps, RemoveOps, ApplyAll, NamedOutputs, StepThere,
          Accounts, Snapshot.CutRight, Meets;
      job, steps := Job(0, [], [], [], [], false), [];
      var level := PickCompactionLevel();
      if level == -1 {
        return Err(NotFound), job, steps;
      }
      ValidReads(Now(), dir, maxLevel);
      var source, target := SelectCompactionFiles(level);
      TriggeredHasFiles(files, maxLevel, level);
      var inputs := Renumber(source, target);
      SameFiles(source, target, inputs);
      job := Job(level, source, target, [], [], level + 1 == maxLevel - 1);
      InputsOnDisk(Now(), dir, maxLevel, job, inputs);
      ghost var selected := Now();
      var outs, counts;
      ghost var out;
      outs, counts, out := MergeFiles(inputs, level + 1);
      job := Job(level, source, target, outs.value, out, level + 1 == maxLevel - 1);
      ghost var merged := Now();
      JobTables(inputs, job, selected.store);
      MakesJob(selected, merged, dir, maxLevel, job, inputs);
      AfterMerge(selected, merged, dir, maxLevel, job);
      var swapped;
      swapped, steps := SwapFiles(outs.value, inputs, job);
      AfterSwap(selected, merged, Now(), dir, maxLevel, job);
      RunCounts(selected, merged, Now(), dir, maxLevel, job, inputs, counts);
      PotentialDrops(selected.files, selected.store, maxLevel, job, store);
      r := Ok(Stats(level, level + 1, |inputs|, |outs.value|, counts));
    }

    /** Runs until no level asks for compaction. With no new files this always ends: every run lowers the
        potential, which bounds the number of runs. */
    method CompactUntilQuiet() returns (runs: nat)
      requires Valid() && maxLevel >= 2
      modifies this`files, this`store, this`nextFileNumber, disk
      ensures Valid() && forall l :: 0 <= l ==> !Triggered(files, maxLevel, l)
      ensures runs + Weigh(files, Potential(store, maxLevel)) <= old(Weigh(files, Potential(store, maxLevel)))
    {
      hide Triggered, Potential, Weigh, Snapshot.Valid, JobOk, Version, StepAt, RemovedAll, Selection, KeepsAnswer,
          TablesOf, Total;
      runs := 0;
      var needed := NeedsCompaction();
      while needed
        invariant Valid() && (needed <==> exists l :: 0 <= l && Triggered(files, maxLevel, l))
        invariant runs + Weigh(files, Potential(store, maxLevel)) <= old(Weigh(files, Potential(store, maxLevel)))
        decreases Weigh(files, Potential(store, maxLevel))
      {
        var r, _, _ := RunCompaction();
        runs := runs + 1;
        needed := NeedsCompaction();
      }
    }
  }

  /** What the counters of a merge say: every merged key was written, was older than another version of its key, or
      was the newest version of a key whose newest version is a tombstone at the bottom. */
  ghost predicate Accounts(ts: seq<seq<Entry>>, ranks: seq<nat>, bottom: bool, inputs: seq<Meta>, outs: seq<Meta>,
      out: seq<Entry>, c: Counts)
    requires |ts| == |ranks|
  {
    && c.keysMerged == Total(ts) == |out| + c.duplicatesDropped + c.tombstonesDropped
    && c.tombstonesDropped == |ErasedKeys(ts, ranks, bottom)|
    && c.bytesRead == Weigh(inputs, SizeOf()) % U64_LIMIT && c.bytesWritten == Weigh(outs, SizeOf()) % U64_LIMIT
  }

  lemma AccountsAre(ts: seq<seq<Entry>>, ranks: seq<nat>, bottom: bool, inputs: seq<Meta>, outs: seq<Meta>,
      out: seq<Entry>, c: Counts)
    requires |ts| == |ranks| && c.tombstonesDropped == |ErasedKeys(ts, ranks, bottom)|
    requires c.keysMerged == Total(ts) == |out| + c.duplicatesDropped + c.tombstonesDropped
    requires c.bytesRead == Weigh(inputs, SizeOf()) % U64_LIMIT && c.bytesWritten == Weigh(outs, SizeOf()) % U64_LIMIT
    ensures Accounts(ts, ranks, bottom, inputs, outs, out, c)
  {
  }

  lemma CountMore(ms: seq<Meta>, m: Meta, bytes: nat)
    requires bytes == Weigh(ms, SizeOf()) % U64_LIMIT
    ensures (bytes + m.size) % U64_LIMIT == Weigh(ms + [m], SizeOf()) % U64_LIMIT
  {
    WeighMore(ms, m, SizeOf());
    AddWraps(0, Weigh(ms, SizeOf()), m.size);
  }

  lemma NoBytes()
    ensures Weigh([], SizeOf()) == 0
  {
  }

  /** Renumbering changes neither path nor size. */
  lemma SameFiles(source: seq<Meta>, target: seq<Meta>, inputs: seq<Meta>)
    requires |inputs| == |source| + |target|
    requires forall i :: 0 <= i < |source| ==> inputs[i] == source[i].(seqno := |source| + |target| - i)
    requires forall i :: 0 <= i < |target| ==> inputs[|source| + i] == target[i].(seqno := i)
    ensures forall i :: 0 <= i < |inputs| ==>
      inputs[i].path == (source + target)[i].path && inputs[i].size == (source + target)[i].size
  {
    forall i | 0 <= i < |inputs|
      ensures inputs[i].path == (source + target)[i].path && inputs[i].size == (source + target)[i].size
    {
      if i >= |source| {
        assert inputs[|source| + (i - |source|)] == target[i - |source|].(seqno := i - |source|);
      }
    }
  }

  lemma {:induction false} SameSizes(a: seq<Meta>, b: seq<Meta>)
    requires |a| == |b| && forall i :: 0 <= i < |a| ==> a[i].size == b[i].size
    ensures Weigh(a, SizeOf()) == Weigh(b, SizeOf())
  {
    if a != [] {
      SameSizes(a[1..], b[1..]);
    }
  }

  /** The counters of a run, told by the catalogue and by the disk. */
  lemma RunCounts(before: Snapshot, merged: Snapshot, after: Snapshot, dir: Str, maxLevel: int, j: Job,
      inputs: seq<Meta>, c: Counts)
    requires before.Valid(dir, maxLevel) && after.Valid(dir, maxLevel) && |inputs| == |Inputs(j)| && j.level >= 0
    requires Selection(before.files, j.level, j.source, j.target)
    requires after.files == RemovedAll(before.files + j.outs, Inputs(j)) && DistinctPaths(before.files + j.outs)
    requires forall i :: 0 <= i < |inputs| ==>
      inputs[i].path == Inputs(j)[i].path && inputs[i].size == Inputs(j)[i].size
    requires RanksOf(inputs) == Renumbered(|j.source|, |j.target|)
    requires Accounts(TablesOf(inputs, before.store), RanksOf(inputs), j.bottom, inputs, j.outs, j.out, c)
    requires merged.CutRight(j.outs) && merged.store == after.store
    ensures Accounts(TablesOf(Inputs(j), before.store), Renumbered(|j.source|, |j.target|), j.bottom, Inputs(j), j.outs,
        j.out, c)
    ensures c.bytesRead == Weigh(Inputs(j), LengthIn(before.disk)) % U64_LIMIT
    ensures c.bytesWritten == Weigh(j.outs, LengthIn(after.disk)) % U64_LIMIT
    ensures after.CutRight(j.outs) && |j.out| <= Total(TablesOf(Inputs(j), before.store))
  {
    hide Weigh, Total, ErasedKeys, Snapshot.Readable, Snapshot.Numbered, RemovedAll, Selection, TablesOf, Cut;
    JobTables(inputs, j, before.store);
    SameSizes(inputs, Inputs(j));
    InputsListed(before.files, j);
    MeasuredBytes(Inputs(j), before.disk, 0);
    OutsStay(before.files, j);
    MeasuredBytes(j.outs, after.disk, 0);
  }

  /** The outputs are in the catalogue after the swap. */
  lemma OutsStay(files: seq<Meta>, j: Job)
    requires Selection(files, j.level, j.source, j.target) && DistinctPaths(files + j.outs)
    ensures forall o :: o in j.outs ==> o in RemovedAll(files + j.outs, Inputs(j))
  {
    hide RemovedAll, Selection;
    InputsListed(files, j);
    RemovedMembers(files + j.outs, Inputs(j));
    forall o, m | o in j.outs && m in Inputs(j) ensures o.path != m.path {
      var x :| 0 <= x < |files| && files[x] == m;
      var y :| 0 <= y < |j.outs| && j.outs[y] == o;
      assert (files + j.outs)[x] == m && (files + j.outs)[|files| + y] == o;
    }
  }

  /** One more output keeps the cuts, if it is one. */
  lemma CutMore(before: Snapshot, after: Snapshot, dir: Str, target: nat, n0: nat, outs: seq<Meta>, outs': seq<Meta>,
      current: seq<Entry>)
    requires before.Wrote(dir, target, n0, outs) && before.AllCut(outs)
    requires current == [] ==> outs' == outs && after.store == before.store
    requires current != [] ==>
      && |outs'| == |outs| + 1 && outs'[..|outs|] == outs && outs'[|outs|].path == OutputPath(dir, target, n0 + |outs|)
      && after.store == before.store[outs'[|outs|].path := current]
    ensures Cut(current) ==> after.AllCut(outs')
    ensures TotalSize(current) < SPLIT_SIZE ==> after.CutRight(outs')
  {
    hide OutputPath, TotalSize, Snapshot.Wrote;
    NewPath(before, dir, target, n0, outs);
    assert after.AllCut(outs);
    if current == [] {
    } else {
      assert outs'[..|outs'| - 1] == outs;
      if TotalSize(current) < SPLIT_SIZE {
        FrontSmaller(current);
      }
    }
  }

  lemma FrontSmaller(es: seq<Entry>)
    requires es != []
    ensures TotalSize(es[..|es| - 1]) <= TotalSize(es)
  {
  }

  lemma WithoutStep(files: seq<Meta>, path: Str, i: nat)
    requires i <= |files|
    ensures files[0..] == files && (i == |files| ==> Without(files[i..], path) == [])
    ensures i < |files| ==>
      Without(files[i..], path) == (if files[i].path != path then [files[i]] else []) + Without(files[i + 1..], path)
  {
    assert i < |files| ==> files[i..][1..] == files[i + 1..];
  }

  lemma SelectedApart(files: seq<Meta>, source: seq<Meta>, target: seq<Meta>, level: int)
    requires DistinctPaths(files) && DistinctPaths(source) && DistinctPaths(target)
    requires forall f :: f in source ==> f in files && f.level == level
    requires forall f :: f in target ==> f in files && f.level == level + 1
    ensures DistinctPaths(source + target)
  {
    forall i, j | 0 <= i < j < |source + target| ensures (source + target)[i].path != (source + target)[j].path {
      if i < |source| <= j {
        var f, g := source[i], target[j - |source|];
        assert f in source && g in target;
        var x :| 0 <= x < |files| && files[x] == f;
        var y :| 0 <= y < |files| && files[y] == g;
        assert x != y;
      }
    }
  }

  /** Entries put in order extend the list at its end. */
  lemma NextInOrder(entries: seq<Entry>, i: nat)
    requires Sorted(entries) && Plain(entries) && i < |entries|
    ensures Upsert(entries[..i], entries[i]) == entries[..i + 1]
    ensures entries[i].tombstone ==> entries[i] == Entry(entries[i].key, [], true)
    ensures !entries[i].tombstone ==> entries[i] == Entry(entries[i].key, entries[i].value, false)
  {
    hide Less;
    UpsertAt(entries[..i], entries[i], i);
    assert entries[..i][i..] == [] && entries[..i][..i] == entries[..i];
    assert entries[..i + 1] == entries[..i] + [entries[i]] + [];
  }

  lemma OutputNumbersDiffer(dir: Str, target: nat, n: nat, n': nat)
    requires n != n'
    ensures OutputPath(dir, target, n) != OutputPath(dir, target, n')
  {
    if OutputPath(dir, target, n) == OutputPath(dir, target, n') {
      OutputPathsDiffer(dir, target, n, target, n');
    }
  }

  lemma TableWritten(file: seq<Byte>, entries: seq<Entry>, meta: Meta)
    requires entries != [] && Sorted(entries) && Fits(entries) && file == EncodeTable(entries)
    requires meta.smallest == entries[0].key && meta.largest == entries[|entries| - 1].key
    ensures IsTable(file, entries) && Describes(meta, entries)
  {
  }

  lemma TableOpens(file: seq<Byte>, es: seq<Entry>)
    requires IsTable(file, es)
    ensures DecodeFile(file).Ok?
  {
    OpensTable(es);
  }

  ghost function RanksOf(inputs: seq<Meta>): (ranks: seq<nat>)
    ensures |ranks| == |inputs|
  {
    seq(|inputs|, i requires 0 <= i < |inputs| => inputs[i].seqno)
  }

  lemma RanksAre(inputs: seq<Meta>, numbers: seq<nat>)
    requires |numbers| == |inputs| && forall i :: 0 <= i < |inputs| ==> numbers[i] == inputs[i].seqno
    ensures numbers == RanksOf(inputs)
  {
  }

  lemma NothingStored()
    ensures Storable([]) && TotalSize([]) == 0 && Flatten([]) == []
  {
  }

  lemma MergeStart(ts: seq<seq<Entry>>, ranks: seq<nat>, bottom: bool)
    requires |ts| == |ranks| && AllSorted(ts)
    ensures Merging(ts, ranks, bottom, seq(|ts|, _ => 0), [], []) && Sum(seq(|ts|, _ => 0)) == 0
  {
    MergingStarts(ts, ranks, bottom);
    SumZeros(|ts|);
  }

  /** A pop moves one entry from the unread to the read. */
  lemma PopCounts(ts: seq<seq<Entry>>, ranks: seq<nat>, pos: seq<nat>, cursor: seq<nat>, heap: seq<HeapItem>, f: nat)
    requires |ts| == |ranks| == |pos| && Least(ts, ranks, pos, f)
    requires HeapOk(ts, ranks, pos[f := pos[f] + 1], cursor, heap)
    ensures Sum(pos[f := pos[f] + 1]) == Sum(pos) + 1 <= Total(ts)
  {
    SumStep(pos, f);
    SumBounded(ts, pos[f := pos[f] + 1]);
  }

  lemma EntryStorable(ts: seq<seq<Entry>>, f: nat, n: nat, current: seq<Entry>)
    requires f < |ts| && n < |ts[f]| && Storable(ts[f]) && Storable(current)
    ensures Storable(current + [ts[f][n]]) && EncodedSize(ts[f][n]) <= ENTRY_LIMIT
  {
  }

  lemma OneMore(current: seq<Entry>, e: Entry)
    ensures TotalSize(current + [e]) == TotalSize(current) + EncodedSize(e)
  {
    assert (current + [e])[..|current|] == current;
  }

  lemma EmittedSorted(ts: seq<seq<Entry>>, ranks: seq<nat>, bottom: bool, pos: seq<nat>, last: Str, flushed: seq<Entry>,
      current: seq<Entry>)
    requires Merging(ts, ranks, bottom, pos, last, flushed + current)
    ensures Sorted(current)
  {
    hide Less;
    forall i, j | 0 <= i < j < |current| ensures Less(current[i].key, current[j].key) {
      assert (flushed + current)[|flushed| + i] == current[i] && (flushed + current)[|flushed| + j] == current[j];
    }
  }

  lemma MergeDone(ts: seq<seq<Entry>>, ranks: seq<nat>, bottom: bool, pos: seq<nat>, last: Str, out: seq<Entry>)
    requires Merging(ts, ranks, bottom, pos, last, out) && forall i :: 0 <= i < |ts| ==> pos[i] == |ts[i]|
    ensures IsMerge(ts, ranks, bottom, out) && Sum(pos) == Total(ts)
  {
    MergeComplete(ts, ranks, bottom, pos, last, out);
    SumBounded(ts, pos);
  }

  lemma WellFormedKept(files: seq<Meta>, store: Store, store': Store, maxLevel: int)
    requires WellFormed(files, store, maxLevel)
    requires forall f :: f in files ==> f.path in store && f.path in store' && store'[f.path] == store[f.path]
    ensures WellFormed(files, store', maxLevel)
  {
    hide Describes, Compatible;
    forall f | f in files ensures Placed(f, store', maxLevel) {
      assert Placed(f, store, maxLevel);
    }
  }

  lemma CatalogueDistinct(files: seq<Meta>, store: Store, maxLevel: int)
    requires WellFormed(files, store, maxLevel)
    ensures DistinctPaths(files)
  {
  }

  lemma WroteAhead(s: Snapshot, dir: Str, target: nat, n0: nat, outs: seq<Meta>)
    ensures s.Wrote(dir, target, n0, outs) ==> s.next == n0 + |outs| + 1
    ensures s.next == n0 + 1 ==> s.Wrote(dir, target, n0, [])
  {
  }

  lemma WroteMore(before: Snapshot, after: Snapshot, dir: Str, target: nat, n0: nat, outs: seq<Meta>, meta: Meta,
      entries: seq<Entry>)
    requires before.Wrote(dir, target, n0, outs) && meta.path == OutputPath(dir, target, n0 + |outs|)
    requires meta.level == target && meta.seqno == before.next && after.next == before.next + 1
    requires meta.path in after.disk && after.disk == before.disk[meta.path := after.disk[meta.path]]
    requires after.store == before.store[meta.path := entries]
    requires IsTable(after.disk[meta.path], entries) && Storable(entries) && Describes(meta, entries)
        && meta.size == |after.disk[meta.path]|
    ensures after.Wrote(dir, target, n0, outs + [meta])
    ensures Flatten(TablesOf(outs + [meta], after.store)) == Flatten(TablesOf(outs, before.store)) + entries
  {
    hide OutputPath, IsTable, Storable, Describes, Flatten;
    forall i | 0 <= i < |outs| ensures outs[i].path != meta.path && after.OnDisk(outs[i].path) {
      OutputNumbersDiffer(dir, target, n0 + i, n0 + |outs|);
      assert before.OnDisk(outs[i].path);
    }
    var ts := TablesOf(outs + [meta], after.store);
    assert ts[..|outs|] == TablesOf(outs, before.store) && ts[..|outs| + 1] == ts;
    FlattenSnoc(ts, |outs|);
  }

  lemma ValidReads(s: Snapshot, dir: Str, maxLevel: int)
    requires s.Valid(dir, maxLevel)
    ensures s.Readable(maxLevel)
  {
    hide Snapshot.Readable, Snapshot.Numbered;
  }

  lemma InputsOnDisk(s: Snapshot, dir: Str, maxLevel: int, j: Job, inputs: seq<Meta>)
    requires s.Valid(dir, maxLevel) && Selection(s.files, j.level, j.source, j.target) && |inputs| == |Inputs(j)|
    requires forall i :: 0 <= i < |inputs| ==> inputs[i].path == Inputs(j)[i].path
    ensures forall i :: 0 <= i < |inputs| ==> s.OnDisk(inputs[i].path)
  {
    hide WellFormed, IsTable, Storable, Snapshot.Numbered;
    InputsListed(s.files, j);
    forall i | 0 <= i < |inputs| ensures s.OnDisk(inputs[i].path) {
      assert Inputs(j)[i] in s.files;
    }
  }

  lemma JobTables(inputs: seq<Meta>, j: Job, store: Store)
    requires |inputs| == |Inputs(j)| && forall i :: 0 <= i < |inputs| ==> inputs[i].path == Inputs(j)[i].path
    ensures TablesOf(inputs, store) == TablesOf(Inputs(j), store)
  {
  }

  /** Outputs have names and numbers of their own. */
  lemma OutputsFresh(before: Snapshot, after: Snapshot, dir: Str, j: Job)
    requires before.Numbered(dir) && j.level >= 0 && after.Wrote(dir, j.level + 1, before.next, j.outs)
    ensures forall f, o :: f in before.files && o in j.outs ==> f.path != o.path && (f.level >= 1 ==> o.seqno > f.seqno)
    ensures DistinctPaths(before.files) ==> DistinctPaths(before.files + j.outs)
  {
    hide OutputPath, IsTable, Storable, Describes;
    forall f, o | f in before.files && o in j.outs ensures f.path != o.path && (f.level >= 1 ==> o.seqno > f.seqno) {
      var i :| 0 <= i < |j.outs| && j.outs[i] == o;
      assert o.path == OutputPath(dir, j.level + 1, before.next + i);
    }
    forall a, b | 0 <= a < b < |j.outs| ensures j.outs[a].path != j.outs[b].path {
      OutputNumbersDiffer(dir, j.level + 1, before.next + a, before.next + b);
    }
    assert forall i :: 0 <= i < |before.files| ==> before.files[i] in before.files;
    assert forall i :: 0 <= i < |j.outs| ==> j.outs[i] in j.outs;
  }

  lemma WroteDescribed(s: Snapshot, dir: Str, target: nat, n0: nat, outs: seq<Meta>)
    requires s.Wrote(dir, target, n0, outs)
    ensures forall i :: 0 <= i < |outs| ==>
      outs[i].level == target && outs[i].path in s.store && Describes(outs[i], s.store[outs[i].path])
  {
    hide OutputPath, IsTable, Storable, Describes;
    forall i | 0 <= i < |outs| ensures outs[i].level == target && outs[i].path in s.store
        && Describes(outs[i], s.store[outs[i].path]) {
      assert s.OnDisk(outs[i].path);
    }
  }

  /** What the merge wrote are the outputs of a job. */
  lemma MakesJob(before: Snapshot, after: Snapshot, dir: Str, maxLevel: int, j: Job, inputs: seq<Meta>)
    requires before.Valid(dir, maxLevel) && after.Keeps(before)
    requires Selection(before.files, j.level, j.source, j.target) && DistinctPaths(Inputs(j))
    requires 0 <= j.level && j.level + 1 < maxLevel && j.bottom == (j.level + 1 == maxLevel - 1)
    requires |inputs| == |Inputs(j)| && forall i :: 0 <= i < |inputs| ==> inputs[i].path == Inputs(j)[i].path
    requires RanksOf(inputs) == Renumbered(|j.source|, |j.target|)
    requires IsMerge(TablesOf(inputs, before.store), RanksOf(inputs), j.bottom, j.out)
    requires after.Wrote(dir, j.level + 1, before.next, j.outs) && Flatten(TablesOf(j.outs, after.store)) == j.out
    ensures JobOk(before.files, before.store, maxLevel, j, after.store)
    ensures OutputsNewer(before.files, j) && DistinctPaths(before.files + j.outs)
    ensures forall i :: 0 <= i < |j.outs| ==> j.outs[i].level == j.level + 1 && j.outs[i].path in after.store
  {
    hide Less, OutputPath, IsTable, Flatten, WellFormed, Storable, Selection, Renumbered, Kept, Lookup, Describes;
    hide Snapshot.Wrote, Snapshot.Numbered, Snapshot.OnDisk;
    JobTables(inputs, j, before.store);
    WroteDescribed(after, dir, j.level + 1, before.next, j.outs);
    OutputsFresh(before, after, dir, j);
    CatalogueDistinct(before.files, before.store, maxLevel);
  }

  lemma SwappedNumbered(merged: Snapshot, after: Snapshot, dir: Str, n0: nat, j: Job)
    requires merged.Numbered(dir) && merged.next == after.next && j.level >= 0
        && merged.Wrote(dir, j.level + 1, n0, j.outs)
    requires forall f :: f in after.files ==> f in merged.files || f in j.outs
    ensures after.Numbered(dir)
  {
    hide OutputPath, IsTable, Storable, Describes;
    forall f | f in after.files && f in j.outs
      ensures f.seqno <= after.next
      ensures forall level: nat, n: nat :: level >= 1 && n >= after.next ==> f.path != OutputPath(dir, level, n)
    {
      var i :| 0 <= i < |j.outs| && j.outs[i] == f;
      forall level: nat, n: nat | level >= 1 && n >= after.next ensures f.path != OutputPath(dir, level, n) {
        if f.path == OutputPath(dir, level, n) {
          OutputPathsDiffer(dir, j.level + 1, n0 + i, level, n);
        }
      }
    }
  }

  lemma SwappedOnDisk(merged: Snapshot, after: Snapshot, dir: Str, maxLevel: int, n0: nat, j: Job)
    requires merged.Readable(maxLevel) && j.level >= 0 && merged.Wrote(dir, j.level + 1, n0, j.outs)
        && after.store == merged.store
    requires after.files == RemovedAll(merged.files + j.outs, Inputs(j))
    requires forall p :: p in merged.disk && (forall m :: m in Inputs(j) ==> m.path != p) ==>
      p in after.disk && after.disk[p] == merged.disk[p]
    ensures forall f :: f in after.files ==> after.OnDisk(f.path)
  {
    hide OutputPath, IsTable, Storable, Describes, WellFormed, RemovedAll;
    RemovedMembers(merged.files + j.outs, Inputs(j));
    forall f | f in after.files ensures after.OnDisk(f.path) {
      assert merged.OnDisk(f.path);
    }
  }

  lemma SwappedMeasured(merged: Snapshot, after: Snapshot, dir: Str, n0: nat, j: Job)
    requires Measured(merged.files, merged.disk) && j.level >= 0 && merged.Wrote(dir, j.level + 1, n0, j.outs)
    requires after.files == RemovedAll(merged.files + j.outs, Inputs(j))
    requires forall p :: p in merged.disk && (forall m :: m in Inputs(j) ==> m.path != p) ==>
      p in after.disk && after.disk[p] == merged.disk[p]
    ensures Measured(after.files, after.disk)
  {
    hide OutputPath, IsTable, Storable, Describes, RemovedAll;
    RemovedMembers(merged.files + j.outs, Inputs(j));
    forall f | f in j.outs ensures f.path in merged.disk && f.size == |merged.disk[f.path]| {
      var i :| 0 <= i < |j.outs| && j.outs[i] == f;
    }
  }

  /** After the swap the catalogue is valid again. */
  lemma SwappedValid(before: Snapshot, merged: Snapshot, after: Snapshot, dir: Str, maxLevel: int, j: Job)
    requires merged.Valid(dir, maxLevel) && merged.files == before.files && merged.next == after.next
        && after.store == merged.store
    requires JobOk(before.files, before.store, maxLevel, j, merged.store) && DistinctPaths(before.files + j.outs)
        && j.level >= 0
    requires merged.Wrote(dir, j.level + 1, before.next, j.outs)
        && after.files == RemovedAll(before.files + j.outs, Inputs(j))
    requires forall p :: p in merged.disk && (forall m :: m in Inputs(j) ==> m.path != p) ==>
      p in after.disk && after.disk[p] == merged.disk[p]
    ensures after.Valid(dir, maxLevel)
  {
    hide WellFormed, RemovedAll, JobOk, Snapshot.OnDisk, Snapshot.Wrote, Snapshot.Numbered;
    RemovedMembers(before.files + j.outs, Inputs(j));
    LastStep(before.files, before.store, maxLevel, j, merged.store);
    CompactionKeepsLevels(before.files, before.store, maxLevel, j, merged.store, after.files);
    SwappedOnDisk(merged, after, dir, maxLevel, before.next, j);
    SwappedMeasured(merged, after, dir, before.next, j);
    SwappedNumbered(merged, after, dir, before.next, j);
  }

  /** The answers after a run. */
  lemma RunAnswers(before: Snapshot, after: Snapshot, maxLevel: int, j: Job)
    requires JobOk(before.files, before.store, maxLevel, j, after.store)
    requires after.files == RemovedAll(before.files + j.outs, Inputs(j))
    ensures forall k ::
      Visible(Version(after.files, after.store, k)) == Visible(Version(before.files, before.store, k))
      <==> KeepsAnswer(before.files, before.store, j, k)
  {
    hide JobOk, RemovedAll, Version, KeepsAnswer, Visible;
    LastStep(before.files, before.store, maxLevel, j, after.store);
    forall k ensures Visible(Version(after.files, after.store, k)) == Visible(Version(before.files, before.store, k))
        <==> KeepsAnswer(before.files, before.store, j, k) {
      AnswerExact(before.files, before.store, maxLevel, j, after.store, after.files, k);
    }
  }

  lemma OneMoreTable(ts: seq<seq<Entry>>, t: seq<Entry>)
    ensures Total(ts + [t]) == Total(ts) + |t|
  {
    assert (ts + [t])[..|ts|] == ts;
  }

  lemma NoTables()
    ensures Total([]) == 0
  {
  }

  /** What holds between the merge and the swap. */
  lemma AfterMerge(before: Snapshot, merged: Snapshot, dir: Str, maxLevel: int, j: Job)
    requires before.Valid(dir, maxLevel) && merged.Keeps(before) && j.level >= 0
    requires merged.Wrote(dir, j.level + 1, before.next, j.outs)
    ensures forall f :: f in before.files + j.outs ==> f.path in merged.disk
    ensures NamedOutputs(dir, j.level + 1, before.next, j.outs) && merged.next > before.next
  {
    hide WellFormed, IsTable, Storable, Snapshot.Numbered, OutputPath, Describes, NamedOutputs;
    WroteNamed(merged, dir, j.level + 1, before.next, j.outs);
  }

  /** And after it. */
  lemma AfterSwap(before: Snapshot, merged: Snapshot, after: Snapshot, dir: Str, maxLevel: int, j: Job)
    requires merged.Valid(dir, maxLevel) && merged.files == before.files && merged.next == after.next
        && after.store == merged.store
    requires JobOk(before.files, before.store, maxLevel, j, merged.store) && DistinctPaths(before.files + j.outs)
        && j.level >= 0
    requires merged.Wrote(dir, j.level + 1, before.next, j.outs)
        && after.files == RemovedAll(before.files + j.outs, Inputs(j))
    requires merged.disk == ApplyAll(before.disk, WriteOps(j.outs, merged.store))
        && after.disk == ApplyAll(merged.disk, RemoveOps(Inputs(j)))
    ensures after.Valid(dir, maxLevel) && after.disk == ApplyAll(before.disk, CompactOps(j, after.store))
    ensures forall k ::
      Visible(Version(after.files, after.store, k)) == Visible(Version(before.files, before.store, k))
      <==> KeepsAnswer(before.files, before.store, j, k)
  {
    hide JobOk, RemovedAll, Version, KeepsAnswer, Visible, WriteOps, RemoveOps, ApplyAll, Snapshot.Wrote,
        Snapshot.Valid, DistinctPaths, Inputs;
    RemovalsLeave(Inputs(j), merged.disk);
    SwappedValid(before, merged, after, dir, maxLevel, j);
    RunAnswers(before, after, maxLevel, j);
    CrashSplit(before.disk, WriteOps(j.outs, merged.store), RemoveOps(Inputs(j)), after.disk);
  }
}
