/** Where compaction does change an answer: level-0 files whose age disagrees with the order of their
    smallest keys, and the empty key. */
module CompactionLimits {
  import opened Common
  import opened Bytes
  import opened Serializer
  import opened Tables
  import opened Blocks
  import opened SSTableFormat
  import opened Merge
  import opened Catalogue
  import opened CompactionTheory
  import opened Compactions

  lemma Lookup2(a: Entry, b: Entry, k: Str)
    ensures Lookup([a, b], k) == if a.key == k then Some(a) else if b.key == k then Some(b) else None
  {
    hide Lookup;
    LookupFirst(a, [b], k);
    Lookup1(b, k);
    assert [a] + [b] == [a, b];
  }

  /** Two level-0 files share the key "k". The older one starts at "a", the newer one at "b", so a run ranks
      the older one first. Two more files make it four, enough for a run. */
  const OLD_A: Entry := Entry([97], [], false)
  const OLD_K: Entry := Entry([107], [1], false)
  const NEW_B: Entry := Entry([98], [], false)
  const NEW_K: Entry := Entry([107], [2], false)
  const OTHER_P: Entry := Entry([112], [], false)
  const OTHER_Q: Entry := Entry([113], [], false)
  const OLDER: Meta := Meta([1], 0, [97], [107], 0, 1)
  const NEWER: Meta := Meta([2], 0, [98], [107], 0, 2)
  const THIRD: Meta := Meta([3], 0, [112], [112], 0, 3)
  const FOURTH: Meta := Meta([4], 0, [113], [113], 0, 4)
  const MERGED: Meta := Meta([5], 1, [97], [113], 0, 9)
  const FILES: seq<Meta> := [OLDER, NEWER, THIRD, FOURTH]
  const OUT: seq<Entry> := [OLD_A, NEW_B, OLD_K, OTHER_P, OTHER_Q]

  ghost function Before(): Store {
    map[[1] := [OLD_A, OLD_K], [2] := [NEW_B, NEW_K], [3] := [OTHER_P], [4] := [OTHER_Q]]
  }

  ghost function After(): Store {
    Before()[[5] := OUT]
  }

  ghost function Run(): Job {
    Job(0, FILES, [], [MERGED], OUT, false)
  }

  ghost function RunTables(): seq<seq<Entry>> {
    [[OLD_A, OLD_K], [NEW_B, NEW_K], [OTHER_P], [OTHER_Q]]
  }

  lemma OutLookup(k: Str)
    ensures Lookup(OUT, k) ==
      if k == [97] then Some(OLD_A) else if k == [98] then Some(NEW_B) else if k == [107] then Some(OLD_K)
      else if k == [112] then Some(OTHER_P) else if k == [113] then Some(OTHER_Q) else None
  {
    hide Lookup;
    var t := [OLD_K, OTHER_P, OTHER_Q];
    LookupFirst(OLD_A, [NEW_B] + t, k);
    LookupFirst(NEW_B, t, k);
    LookupFirst(OLD_K, [OTHER_P, OTHER_Q], k);
    Lookup2(OTHER_P, OTHER_Q, k);
    assert [OLD_A] + ([NEW_B] + t) == OUT && [OLD_K] + [OTHER_P, OTHER_Q] == t;
  }

  lemma RunKept(k: Str)
    ensures Lookup(OUT, k) == Kept(RunTables(), Renumbered(4, 0), false, k)
  {
    hide Lookup;
    var ts, ranks := RunTables(), Renumbered(4, 0);
    Lookup2(OLD_A, OLD_K, k);
    Lookup2(NEW_B, NEW_K, k);
    Lookup1(OTHER_P, k);
    Lookup1(OTHER_Q, k);
    OutLookup(k);
    if k == [97] || k == [107] {
      NewestIs(ts, ranks, k, 0);
    } else if k == [98] {
      NewestIs(ts, ranks, k, 1);
    } else if k == [112] {
      NewestIs(ts, ranks, k, 2);
    } else if k == [113] {
      NewestIs(ts, ranks, k, 3);
    } else {
      NewestNone(ts, ranks, k);
    }
  }

  lemma RunMerges()
    ensures IsMerge(TablesOf(FILES, Before()), Renumbered(4, 0), false, OUT)
  {
    hide Lookup, Kept, Sorted, Renumbered;
    assert TablesOf(FILES, Before()) == RunTables();
    OutSorted();
    forall k ensures Lookup(OUT, k) == Kept(RunTables(), Renumbered(4, 0), false, k) {
      RunKept(k);
    }
  }

  lemma OutSorted()
    ensures Sorted(OUT) && BySmallest(FILES)
  {
    assert Less([97], [98]) && Less([98], [107]) && Less([107], [112]) && Less([112], [113]);
    OrderFacts();
    hide Less;
  }

  lemma TablesDescribed()
    ensures Describes(OLDER, [OLD_A, OLD_K]) && Describes(NEWER, [NEW_B, NEW_K]) && Describes(THIRD, [OTHER_P])
        && Describes(FOURTH, [OTHER_Q]) && Describes(MERGED, OUT)
  {
    OutSorted();
    assert Less([97], [107]) && Less([98], [107]);
  }

  lemma RunSelects()
    ensures Selection(FILES, 0, FILES, [])
  {
    assert Less([97], [98]) && Less([98], [107]) && Less([107], [112]) && Less([112], [113]);
    OrderFacts();
    hide Less;
    assert Covers(FILES, [97], [113]) by {
      assert OLDER in FILES && FOURTH in FILES;
    }
  }

  lemma RunProduces()
    ensures Produced([MERGED], After(), 1, OUT)
  {
    TablesDescribed();
    hide Less;
    var ts := TablesOf([MERGED], After());
    assert ts == [OUT];
    assert ts[1..] == [] && Flatten(ts) == ts[0] + Flatten(ts[1..]) == OUT;
  }

  lemma FilesAreSound()
    ensures WellFormed(FILES, Before(), 7)
  {
    TablesDescribed();
    hide Less, Describes;
  }

  lemma RunSwaps()
    ensures Swapped(FILES, FILES, [MERGED], [MERGED])
  {
  }

  lemma RunIsJob()
    ensures JobOk(FILES, Before(), 7, Run(), After()) && Swapped(FILES, Inputs(Run()), Run().outs, [MERGED])
  {
    hide Selection, IsMerge, Produced, Renumbered, TablesOf, WellFormed, Swapped;
    RunMerges();
    RunSelects();
    RunProduces();
    FilesAreSound();
    RunSwaps();
    assert Inputs(Run()) == FILES;
  }

  lemma RunTriggered()
    ensures Triggered(FILES, 7, 0)
  {
    var one := CountAt(0);
    WeighOne(OLDER, one);
    WeighOne(NEWER, one);
    WeighOne(THIRD, one);
    WeighOne(FOURTH, one);
    WeighSplit([OLDER], [NEWER], one);
    WeighSplit([THIRD], [FOURTH], one);
    WeighSplit([OLDER, NEWER], [THIRD, FOURTH], one);
    assert [OLDER] + [NEWER] == [OLDER, NEWER] && [THIRD] + [FOURTH] == [THIRD, FOURTH];
    assert [OLDER, NEWER] + [THIRD, FOURTH] == FILES;
  }

  /** A level-0 compaction the engine asks for, with its files in the order it sorts them, can bring back an overwritten
      value: here "k" goes from 2 back to 1. */
  lemma Level0CanRevert()
    ensures exists files, store, j, after, files', k ::
      && JobOk(files, store, 7, j, after) && Swapped(files, Inputs(j), j.outs, files') && j.level == 0 && k != []
      && Triggered(files, 7, 0) && BySmallest(j.source)
      && Visible(Version(files, store, k)) == Some([2]) && Visible(Version(files', after, k)) == Some([1])
  {
    var k := [107];
    VersionsDiffer();
    RunIsJob();
    RunTriggered();
    OutSorted();
    hide JobOk, Swapped, Version, Visible, Triggered, BySmallest;
    assert Run().level == 0 && Run().source == FILES;
  }

  lemma VersionsDiffer()
    ensures Visible(Version(FILES, Before(), [107])) == Some([2])
    ensures Visible(Version([MERGED], After(), [107])) == Some([1])
  {
    Lookup2(OLD_A, OLD_K, [107]);
    Lookup2(NEW_B, NEW_K, [107]);
    Lookup1(OTHER_P, [107]);
    Lookup1(OTHER_Q, [107]);
    OutLookup([107]);
    hide Lookup;
    assert Top(FILES, Before(), [107], NEWER);
    TopIsBest(FILES, Before(), [107], NEWER);
    assert Top([MERGED], After(), [107], MERGED);
    TopIsBest([MERGED], After(), [107], MERGED);
  }

  /** The merge drops the empty key as if it had been emitted before. If no file above or beside the
      selection holds it, whatever version the selection held is gone from the two levels. */
  lemma EmptyKeyDropped(files: seq<Meta>, store: Store, maxLevel: int, j: Job, after: Store, files': seq<Meta>)
    requires JobOk(files, store, maxLevel, j, after) && Swapped(files, Inputs(j), j.outs, files')
    requires !Shadowed(files, store, j, []) && FirstHolder(Inputs(j), store, []).Some?
    ensures forall f :: f in files' && Holds(after, f, []) ==> f.level > j.level + 1
    ensures j.bottom ==> Version(files', after, []).None?
  {
    hide Less, Lookup, WellFormed, Produced;
    var w := Inputs(j)[FirstHolder(Inputs(j), store, []).value];
    assert Lookup(j.out, []) == Kept(TablesOf(Inputs(j), store), Renumbered(|j.source|, |j.target|), j.bottom, []);
    forall f | f in files' && Holds(after, f, []) ensures f.level > j.level + 1 && f.level < maxLevel {
      if f in j.outs {
        OutputsHoldOnly(j.outs, after, j.level + 1, j.out, f, []);
      } else {
        LevelBound(files, store, maxLevel, f);
        if f.level == j.level + 1 {
          TargetHolderSelected(files, store, maxLevel, j.level, j.source, j.target, w, f, []);
        }
      }
    }
    if j.bottom {
      BestNone(files', after, []);
    }
  }

  // ---- a deleted key comes back between two removals ----

  const PADDING: nat := 11 * 1024 * 1024

  ghost function Big(): (e: Entry)
    ensures e.key == [122] && !e.tombstone && |e.value| == PADDING
  {
    Entry([122], seq(PADDING, _ => 0), false)
  }

  const GONE_K: Entry := Entry([107], [], true)
  const LIVE_K: Entry := Entry([107], [1], false)
  const LOWER: Meta := Meta([1], 2, [107], [107], 0, 2)
  const LAST: Meta := Meta([3], 2, [122], [122], 0, 9)

  /** A level-1 file over its limit, with a tombstone for "k". */
  ghost function Upper(): Meta {
    Meta([2], 1, [107], [122], |EncodeTable([GONE_K, Big()])|, 3)
  }

  ghost function Stacked(): seq<Meta> {
    [LOWER, Upper()]
  }

  ghost function StackedStore(): Store {
    map[[1] := [LIVE_K], [2] := [GONE_K, Big()]]
  }

  ghost function PushDown(): Job {
    Job(1, [Upper()], [LOWER], [LAST], [Big()], true)
  }

  ghost function PushedStore(): Store {
    StackedStore()[[3] := [Big()]]
  }

  /** An SSTable is at least as long as its entries. */
  lemma TableSize(es: seq<Entry>)
    ensures |EncodeTable(es)| >= TotalSize(es)
  {
    hide EncodeBlocks, EncodeIndex, EncodeFooter, EncodeBloom, BloomBits, Pack, IndexOf, TotalSize, Flatten;
    PackIsFaithful([], es);
    PiecesSize(Pack([], es));
    assert [] + es == es;
  }

  lemma UpperSize()
    ensures 10 * 1024 * 1024 < Upper().size < U64_LIMIT
  {
    hide EncodeTable, TotalSize, Fits;
    var es := [GONE_K, Big()];
    TableSize(es);
    SingleSizes(GONE_K, Big());
    ComfortableTableFits(es);
    FitsIsBounded(es);
  }

  lemma StackTriggers()
    ensures Triggered(Stacked(), 3, 1)
  {
    hide Upper;
    UpperSize();
    var u := Upper();
    UpperPlace();
    WeighOne(LOWER, BytesAt(1));
    WeighOne(u, BytesAt(1));
    WeighSplit([LOWER], [u], BytesAt(1));
    assert [LOWER] + [u] == Stacked();
    Unwrapped(u.size);
  }

  lemma UpperPlace()
    ensures Upper().level == 1 && Upper().path == [2]
  {
  }

  lemma Unwrapped(n: nat)
    requires n < U64_LIMIT
    ensures n % U64_LIMIT == n
  {
  }

  lemma SingleSizes(a: Entry, b: Entry)
    ensures TotalSize([a, b]) == EncodedSize(a) + EncodedSize(b)
  {
    assert [a, b][..1] == [a] && [a][..0] == [];
    assert TotalSize([a]) == TotalSize([a][..0]) + EncodedSize(a);
  }

  lemma StackSound()
    ensures WellFormed(Stacked(), StackedStore(), 3) && Describes(LAST, [Big()]) && Less([107], [122])
  {
    hide EncodeTable;
    assert Less([107], [122]);
  }

  lemma PushMerges()
    ensures IsMerge(TablesOf([Upper(), LOWER], StackedStore()), Renumbered(1, 1), true, [Big()])
  {
    hide EncodeTable, Lookup;
    var ts, ranks := [[GONE_K, Big()], [LIVE_K]], Renumbered(1, 1);
    assert TablesOf([Upper(), LOWER], StackedStore()) == ts;
    forall k ensures Lookup([Big()], k) == Kept(ts, ranks, true, k) {
      Lookup2(GONE_K, Big(), k);
      Lookup1(LIVE_K, k);
      Lookup1(Big(), k);
      if k == [107] || k == [122] {
        NewestIs(ts, ranks, k, 0);
      } else {
        NewestNone(ts, ranks, k);
      }
    }
  }

  lemma PushSelects()
    ensures Selection(Stacked(), 1, [Upper()], [LOWER])
  {
    hide EncodeTable;
    OrderFacts();
    assert Less([107], [122]);
    hide Less;
    assert Covers([Upper()], [107], [122]) by {
      assert Upper() in [Upper()];
    }
  }

  lemma PushProduces()
    ensures Produced([LAST], PushedStore(), 2, [Big()])
  {
    StackSound();
    hide Less, EncodeTable;
    var ts := TablesOf([LAST], PushedStore());
    assert ts == [[Big()]];
    assert ts[1..] == [] && Flatten(ts) == ts[0] + Flatten(ts[1..]) == [Big()];
  }

  lemma PushIsJob()
    ensures JobOk(Stacked(), StackedStore(), 3, PushDown(), PushedStore()) && OutputsNewer(Stacked(), PushDown())
  {
    hide Selection, IsMerge, Produced, Renumbered, TablesOf, WellFormed, EncodeTable, Less;
    PushMerges();
    PushSelects();
    PushProduces();
    StackSound();
    assert Inputs(PushDown()) == [Upper(), LOWER];
  }

  /** The key is deleted before the run, comes back when the first input is gone, and is deleted again at the end. */
  ghost predicate ComesBack(files: seq<Meta>, store: Store, j: Job, after: Store, k: Str)
    requires |j.outs| == 1 && |Inputs(j)| == 2
  {
    && Resurrects(files, store, j, Inputs(j)[..1], k)
    && Visible(Version(files, store, k)) == None && Visible(Version(StepAt(files, j, 2), after, k)) == Some([1])
    && Visible(Version(StepAt(files, j, 3), after, k)) == None
  }

  /** A compaction the engine asks for into the last level removes the file with the tombstone first: until the next
      removal a lookup finds the deleted value again. */
  lemma DeletedKeyReturns()
    ensures exists files, store, j, after, k ::
      && JobOk(files, store, 3, j, after) && Triggered(files, 3, j.level) && OutputsNewer(files, j)
      && |j.outs| == 1 && |Inputs(j)| == 2 && ComesBack(files, store, j, after, k)
  {
    PushIsJob();
    StackTriggers();
    PushComesBack();
    hide JobOk, Triggered, OutputsNewer, ComesBack, Stacked, StackedStore, PushedStore;
    assert PushDown().level == 1;
  }

  lemma PushComesBack()
    ensures |PushDown().outs| == 1 && |Inputs(PushDown())| == 2
    ensures ComesBack(Stacked(), StackedStore(), PushDown(), PushedStore(), [107])
  {
    hide Resurrects, Version, Visible, StepAt, EncodeTable;
    PushResurrects();
  }

  lemma WithoutFirst(f: Meta, rest: seq<Meta>, path: Str)
    ensures Without([f] + rest, path) == if f.path == path then Without(rest, path) else [f] + Without(rest, path)
  {
    assert ([f] + rest)[1..] == rest && [] + Without(rest, path) == Without(rest, path);
  }

  lemma WithoutOnly(f: Meta, path: Str)
    requires f.path != path
    ensures Without([f], path) == [f]
  {
    WithoutFirst(f, [], path);
    assert [f] + [] == [f];
  }

  lemma PushSteps()
    ensures StepAt(Stacked(), PushDown(), 2) == [LOWER, LAST] && StepAt(Stacked(), PushDown(), 3) == [LAST]
  {
    hide Without, Upper;
    var u, j := Upper(), PushDown();
    UpperPlace();
    WithoutOnly(LAST, [2]);
    WithoutFirst(u, [LAST], [2]);
    WithoutFirst(LOWER, [u, LAST], [2]);
    WithoutOnly(LAST, [1]);
    WithoutFirst(LOWER, [LAST], [1]);
    assert [u] + [LAST] == [u, LAST] && [LOWER] + [u, LAST] == Stacked() + j.outs && [LOWER] + [LAST] == [LOWER, LAST];
    assert Inputs(j) == [u, LOWER];
    assert Inputs(j)[..1] == [u] && Inputs(j)[..2] == [u, LOWER] && [u, LOWER][..1] == [u] && [u][..0] == [];
    assert RemovedAll(Stacked() + j.outs, [u]) == [LOWER, LAST];
  }

  lemma PushResurrects()
    ensures Resurrects(Stacked(), StackedStore(), PushDown(), Inputs(PushDown())[..1], [107])
    ensures Visible(Version(Stacked(), StackedStore(), [107])) == None
    ensures Visible(Version(StepAt(Stacked(), PushDown(), 2), PushedStore(), [107])) == Some([1])
    ensures Visible(Version(StepAt(Stacked(), PushDown(), 3), PushedStore(), [107])) == None
  {
    hide EncodeTable, Lookup, StepAt;
    var u := Upper();
    PushSteps();
    Lookup2(GONE_K, Big(), [107]);
    Lookup1(LIVE_K, [107]);
    Lookup1(Big(), [107]);
    assert Inputs(PushDown()) == [u, LOWER];
    assert [u, LOWER][..1] == [u];
    assert u in PushDown().source && u in [u] && LOWER in PushDown().target && LOWER !in [u];
    assert Top(Stacked(), StackedStore(), [107], u);
    TopIsBest(Stacked(), StackedStore(), [107], u);
    assert Top([LOWER, LAST], PushedStore(), [107], LOWER);
    TopIsBest([LOWER, LAST], PushedStore(), [107], LOWER);
    BestNone([LAST], PushedStore(), [107]);
  }
}
