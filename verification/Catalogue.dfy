/** The SSTable catalogue as a value: which file answers a lookup, what a compaction may select and
    produce, and what it must keep (src/storage/compaction/leveled_compaction.h,
    compaction_manager.cpp, and GetFromSSTables in src/storage/engine/storage_engine.cpp). */
module Catalogue {
  import opened Common
  import opened Bytes
  import opened Tables

  /** `SSTableMeta`. */
  datatype Meta = Meta(path: Str, level: int, smallest: Str, largest: Str, size: nat, seqno: nat)

  /** The tables in the files, by path. */
  type Store = map<Str, seq<Entry>>

  /** `SSTableMeta::OverlapsWith`. */
  predicate Overlaps(f: Meta, lo: Str, hi: Str) {
    !(Less(f.largest, lo) || Less(hi, f.smallest))
  }

  /** Lookup order: lower level first, then higher sequence number. */
  predicate Outranks(f: Meta, g: Meta) {
    f.level < g.level || (f.level == g.level && f.seqno > g.seqno)
  }

  ghost predicate Holds(store: Store, f: Meta, k: Str) {
    f.path in store && Lookup(store[f.path], k).Some?
  }

  /** The file that answers for `k`. */
  ghost function Best(files: seq<Meta>, store: Store, k: Str): (b: Option<Meta>)
    ensures b.Some? ==> b.value in files && Holds(store, b.value, k)
  {
    if files == [] then None else
    var rest := Best(files[1..], store, k);
    if !Holds(store, files[0], k) then rest
    else if rest.Some? && Outranks(rest.value, files[0]) then rest
    else Some(files[0])
  }

  /** The version of `k` the SSTables hold on top: a value, a tombstone, or none. */
  ghost function Version(files: seq<Meta>, store: Store, k: Str): Option<Entry> {
    var b := Best(files, store, k);
    if b.None? then None else Lookup(store[b.value.path], k)
  }

  /** `f` holds `k` and outranks every other file that does. */
  ghost predicate Top(files: seq<Meta>, store: Store, k: Str, f: Meta) {
    f in files && Holds(store, f, k)
    && forall g :: g in files && g != f && Holds(store, g, k) ==> Outranks(f, g)
  }

  lemma {:induction false} TopIsBest(files: seq<Meta>, store: Store, k: Str, f: Meta)
    requires Top(files, store, k, f)
    ensures Best(files, store, k) == Some(f) && Version(files, store, k) == Lookup(store[f.path], k)
  {
    hide Holds;
    var rest := Best(files[1..], store, k);
    if f in files[1..] {
      TopIsBest(files[1..], store, k, f);
    }
    assert files[0] in files;
  }

  lemma {:induction false} BestNone(files: seq<Meta>, store: Store, k: Str)
    ensures Best(files, store, k).None? <==> forall f :: f in files ==> !Holds(store, f, k)
  {
    hide Holds;
    if files != [] {
      BestNone(files[1..], store, k);
      assert files == [files[0]] + files[1..];
    }
  }

  // ---- a well-formed catalogue ----

  /** The range recorded for a file is exact. */
  ghost predicate Describes(f: Meta, es: seq<Entry>) {
    es != [] && Sorted(es) && f.smallest == es[0].key && f.largest == es[|es| - 1].key
  }

  ghost predicate Apart(f: Meta, g: Meta) {
    Less(f.largest, g.smallest) || Less(g.largest, f.smallest)
  }

  ghost predicate DistinctPaths(files: seq<Meta>) {
    forall i, j :: 0 <= i < j < |files| ==> files[i].path != files[j].path
  }

  /** Every range is exact, levels 1 and up do not overlap, level-0 ages differ. */
  ghost predicate WellFormed(files: seq<Meta>, store: Store, maxLevel: int) {
    && DistinctPaths(files)
    && (forall f :: f in files ==> Placed(f, store, maxLevel))
    && (forall f, g :: f in files && g in files && f != g ==> Compatible(f, g))
  }

  ghost predicate Placed(f: Meta, store: Store, maxLevel: int) {
    0 <= f.level < maxLevel && f.path in store && Describes(f, store[f.path])
  }

  ghost predicate Compatible(f: Meta, g: Meta) {
    f.level == g.level ==> if f.level == 0 then f.seqno != g.seqno else Apart(f, g)
  }

  /** A held key lies in the recorded range. */
  lemma HeldInRange(store: Store, f: Meta, k: Str)
    requires Holds(store, f, k) && Describes(f, store[f.path])
    ensures AtMost(f.smallest, k) && AtMost(k, f.largest)
  {
    var es := store[f.path];
    var i := LookupIndex(es, k);
    OrderFacts();
    hide Less;
    assert i > 0 ==> Less(es[0].key, es[i].key);
    assert i < |es| - 1 ==> Less(es[i].key, es[|es| - 1].key);
  }

  lemma RangeIsExact(store: Store, f: Meta)
    requires f.path in store && Describes(f, store[f.path])
    ensures Holds(store, f, f.smallest) && Holds(store, f, f.largest) && AtMost(f.smallest, f.largest)
  {
    var es := store[f.path];
    LookupAt(es, 0);
    LookupAt(es, |es| - 1);
    HeldInRange(store, f, f.largest);
  }

  /** Files of one level from 1 up share no key. */
  lemma LevelHolderUnique(files: seq<Meta>, store: Store, maxLevel: int, f: Meta, g: Meta, k: Str)
    requires WellFormed(files, store, maxLevel) && f in files && g in files && f.level == g.level >= 1
    requires Holds(store, f, k) && Holds(store, g, k)
    ensures f == g
  {
    assert Placed(f, store, maxLevel) && Placed(g, store, maxLevel);
    HeldInRange(store, f, k);
    HeldInRange(store, g, k);
    assert f != g ==> Compatible(f, g);
    OrderFacts();
    hide Less;
  }

  /** In a well-formed catalogue the answering file is on top. */
  lemma BestIsTop(files: seq<Meta>, store: Store, maxLevel: int, k: Str)
    requires WellFormed(files, store, maxLevel) && Best(files, store, k).Some?
    ensures Top(files, store, k, Best(files, store, k).value)
  {
    var f := Best(files, store, k).value;
    forall g | g in files && g != f && Holds(store, g, k) ensures Outranks(f, g) {
      BestNotOutranked(files, store, k, g);
      assert Placed(f, store, maxLevel) && Compatible(f, g);
      if f.level == g.level && f.level >= 1 {
        LevelHolderUnique(files, store, maxLevel, f, g, k);
      }
    }
  }

  lemma {:induction false} BestNotOutranked(files: seq<Meta>, store: Store, k: Str, g: Meta)
    requires g in files && Holds(store, g, k)
    ensures Best(files, store, k).Some? && !Outranks(g, Best(files, store, k).value)
  {
    hide Holds;
    if g in files[1..] {
      BestNotOutranked(files[1..], store, k, g);
    } else {
      assert g == files[0];
    }
  }

  // ---- what a compaction selects ----

  /** All of level 0, or one file of a level from 1 up, with every file of the next level that
      overlaps the range of the selection. */
  ghost predicate Selection(files: seq<Meta>, level: int, source: seq<Meta>, target: seq<Meta>) {
    && source != [] && level >= 0
    && (forall f :: f in source ==> f in files && f.level == level)
    && (forall f :: f in target ==> f in files && f.level == level + 1)
    && (if level == 0 then forall f :: f in files && f.level == 0 ==> f in source else |source| == 1)
    && (exists lo, hi :: Covers(source, lo, hi)
          && forall f :: f in files && f.level == level + 1 ==> (f in target <==> Overlaps(f, lo, hi)))
  }

  /** `[lo, hi]` is the least interval around the ranges of `source`. */
  ghost predicate Covers(source: seq<Meta>, lo: Str, hi: Str) {
    && (forall f :: f in source ==> AtMost(lo, f.smallest) && AtMost(f.largest, hi))
    && (exists f :: f in source && f.smallest == lo)
    && (exists f :: f in source && f.largest == hi)
  }

  /** `[lo, hi]` and the range of `f` have a key in common. */
  ghost predicate SharesKey(f: Meta, lo: Str, hi: Str) {
    exists k :: AtMost(lo, k) && AtMost(k, hi) && AtMost(f.smallest, k) && AtMost(k, f.largest)
  }

  /** Two ranges overlap exactly if some key is in both. */
  lemma OverlapsExactly(f: Meta, lo: Str, hi: Str)
    requires AtMost(lo, hi) && AtMost(f.smallest, f.largest)
    ensures Overlaps(f, lo, hi) <==> SharesKey(f, lo, hi)
  {
    OrderFacts();
    hide Less;
    if Overlaps(f, lo, hi) {
      var k := if Less(lo, f.smallest) then f.smallest else lo;
      assert AtMost(lo, k) && AtMost(k, hi) && AtMost(f.smallest, k) && AtMost(k, f.largest);
    }
  }

  /** `k` is no smaller than the smallest key of some file and no larger than the largest of some file. */
  ghost predicate Spans(source: seq<Meta>, k: Str) {
    (exists f :: f in source && AtMost(f.smallest, k)) && exists f :: f in source && AtMost(k, f.largest)
  }

  /** Some key in the range of `f` is in the span of the sources. */
  ghost predicate Meets(source: seq<Meta>, f: Meta) {
    exists k :: Spans(source, k) && AtMost(f.smallest, k) && AtMost(k, f.largest)
  }

  lemma SpanIsCover(source: seq<Meta>, lo: Str, hi: Str, k: Str)
    requires Covers(source, lo, hi)
    ensures Spans(source, k) <==> AtMost(lo, k) && AtMost(k, hi)
  {
    OrderFacts();
    hide Less;
  }

  /** A file of the next level is selected exactly if its range shares a key with the span of the sources. */
  lemma SelectedExactly(files: seq<Meta>, store: Store, maxLevel: int, level: int, source: seq<Meta>,
      target: seq<Meta>, f: Meta)
    requires WellFormed(files, store, maxLevel) && Selection(files, level, source, target)
    requires f in files && f.level == level + 1
    ensures f in target <==> Meets(source, f)
  {
    var lo, hi :| Covers(source, lo, hi) && forall g :: g in files && g.level == level + 1 ==>
      (g in target <==> Overlaps(g, lo, hi));
    assert Placed(f, store, maxLevel) && source[0] in source && Placed(source[0], store, maxLevel);
    RangeIsExact(store, f);
    RangeIsExact(store, source[0]);
    CoverIsRange(source, lo, hi);
    OverlapsExactly(f, lo, hi);
    hide Less, AtMost, Overlaps, Covers, Spans, Describes;
    forall k ensures Spans(source, k) <==> AtMost(lo, k) && AtMost(k, hi) {
      SpanIsCover(source, lo, hi, k);
    }
  }

  lemma CoverIsRange(source: seq<Meta>, lo: Str, hi: Str)
    requires Covers(source, lo, hi) && source != [] && AtMost(source[0].smallest, source[0].largest)
    ensures AtMost(lo, hi)
  {
    OrderFacts();
    hide Less;
    assert source[0] in source;
  }

  /** A target-level file holding a key of the selection is selected. */
  lemma TargetHolderSelected(files: seq<Meta>, store: Store, maxLevel: int, level: int, source: seq<Meta>,
      target: seq<Meta>, f: Meta, g: Meta, k: Str)
    requires WellFormed(files, store, maxLevel) && Selection(files, level, source, target)
    requires f in source + target && Holds(store, f, k)
    requires g in files && g.level == level + 1 && Holds(store, g, k)
    ensures g in target
  {
    assert Placed(f, store, maxLevel) && Placed(g, store, maxLevel);
    HeldInRange(store, f, k);
    HeldInRange(store, g, k);
    OrderFacts();
    hide Less;
    if f in target {
      LevelHolderUnique(files, store, maxLevel, f, g, k);
    }
  }

  /** No unselected target-level file meets the span of the selection: it lies wholly below every
      selected file or wholly above every one. */
  lemma UnselectedApart(files: seq<Meta>, store: Store, maxLevel: int, level: int, source: seq<Meta>, target: seq<Meta>,
      g: Meta)
    requires WellFormed(files, store, maxLevel) && Selection(files, level, source, target)
    requires g in files && g.level == level + 1 && g !in target
    ensures (forall f :: f in source + target ==> Less(g.largest, f.smallest))
         || (forall f :: f in source + target ==> Less(f.largest, g.smallest))
  {
    var lo, hi :| Covers(source, lo, hi) && forall f ::
      f in files && f.level == level + 1 ==> (f in target <==> Overlaps(f, lo, hi));
    assert Placed(g, store, maxLevel);
    RangeIsExact(store, g);
    OrderFacts();
    hide Less;
    assert forall f :: f in target ==> Compatible(f, g);
    if Less(g.largest, lo) {
      forall f | f in source + target ensures Less(g.largest, f.smallest) {
        if f in target {
          assert Overlaps(f, lo, hi) && Apart(f, g);
        }
      }
    } else {
      forall f | f in source + target ensures Less(f.largest, g.smallest) {
        if f in target {
          assert Overlaps(f, lo, hi) && Apart(f, g);
        }
      }
    }
  }

  // ---- sums over the catalogue, and removal by path ----

  /** The sum of a weight over the catalogue: file counts, byte totals, potentials. */
  ghost function Weigh(fs: seq<Meta>, w: Meta -> nat): nat {
    if fs == [] then 0 else w(fs[0]) + Weigh(fs[1..], w)
  }

  ghost function CountAt(level: int): Meta -> nat {
    (f: Meta) => if f.level == level then 1 else 0
  }

  ghost function BytesAt(level: int): Meta -> nat {
    (f: Meta) => if f.level == level then f.size else 0
  }

  ghost function SizeOf(): Meta -> nat {
    (f: Meta) => f.size
  }

  lemma WeighMore(fs: seq<Meta>, f: Meta, w: Meta -> nat)
    ensures Weigh(fs + [f], w) == Weigh(fs, w) + w(f) && Weigh([], w) == 0
  {
    WeighSplit(fs, [f], w);
    WeighOne(f, w);
  }

  lemma {:induction false} WeighSplit(a: seq<Meta>, b: seq<Meta>, w: Meta -> nat)
    ensures Weigh(a + b, w) == Weigh(a, w) + Weigh(b, w)
  {
    if a == [] {
      assert a + b == b;
    } else {
      WeighSplit(a[1..], b, w);
      assert (a + b)[1..] == a[1..] + b;
    }
  }

  /** `remove_if` with the given path. */
  function Without(fs: seq<Meta>, path: Str): seq<Meta> {
    if fs == [] then []
    else (if fs[0].path == path then [] else [fs[0]]) + Without(fs[1..], path)
  }

  lemma {:induction false} WithoutMembers(fs: seq<Meta>, path: Str)
    ensures forall x :: x in Without(fs, path) <==> x in fs && x.path != path
    ensures DistinctPaths(fs) ==> DistinctPaths(Without(fs, path))
  {
    if fs != [] {
      WithoutMembers(fs[1..], path);
      assert fs == [fs[0]] + fs[1..];
      forall x | x in fs[1..] && DistinctPaths(fs) ensures x.path != fs[0].path {
        var i :| 0 <= i < |fs[1..]| && fs[1..][i] == x;
        assert fs[i + 1] == x;
      }
    }
  }

  lemma {:induction false} WithoutAbsent(fs: seq<Meta>, path: Str)
    requires forall x :: x in fs ==> x.path != path
    ensures Without(fs, path) == fs
  {
    if fs != [] {
      assert fs[0] in fs;
      WithoutAbsent(fs[1..], path);
      assert fs == [fs[0]] + fs[1..];
    }
  }

  lemma {:induction false} WithoutWeighs(fs: seq<Meta>, f: Meta, w: Meta -> nat)
    requires DistinctPaths(fs) && f in fs
    ensures Weigh(Without(fs, f.path), w) + w(f) == Weigh(fs, w)
  {
    if fs[0] == f {
      forall x | x in fs[1..] ensures x.path != f.path {
        var i :| 0 <= i < |fs[1..]| && fs[1..][i] == x;
        assert fs[i + 1] == x;
      }
      WithoutAbsent(fs[1..], f.path);
      assert [] + fs[1..] == fs[1..];
    } else {
      assert f in fs[1..];
      var i :| 0 <= i < |fs[1..]| && fs[1..][i] == f;
      assert fs[i + 1] == f;
      WithoutWeighs(fs[1..], f, w);
      assert ([fs[0]] + Without(fs[1..], f.path))[1..] == Without(fs[1..], f.path);
    }
  }

  /** Removing files one after another. */
  ghost function RemovedAll(fs: seq<Meta>, ms: seq<Meta>): seq<Meta> {
    if ms == [] then fs else Without(RemovedAll(fs, ms[..|ms| - 1]), ms[|ms| - 1].path)
  }

  lemma {:induction false} RemovedMembers(fs: seq<Meta>, ms: seq<Meta>)
    ensures forall x :: x in RemovedAll(fs, ms) <==> x in fs && forall m :: m in ms ==> m.path != x.path
    ensures DistinctPaths(fs) ==> DistinctPaths(RemovedAll(fs, ms))
  {
    if ms != [] {
      var n := |ms| - 1;
      RemovedMembers(fs, ms[..n]);
      WithoutMembers(RemovedAll(fs, ms[..n]), ms[n].path);
      assert ms == ms[..n] + [ms[n]];
    }
  }

  lemma {:induction false} RemovedWeighs(fs: seq<Meta>, ms: seq<Meta>, w: Meta -> nat)
    requires DistinctPaths(fs) && DistinctPaths(ms) && forall m :: m in ms ==> m in fs
    ensures Weigh(RemovedAll(fs, ms), w) + Weigh(ms, w) == Weigh(fs, w)
  {
    if ms != [] {
      hide Without, Weigh;
      var n := |ms| - 1;
      var front, last := ms[..n], ms[n];
      assert ms == front + [last];
      RemovedWeighs(fs, front, w);
      RemovedMembers(fs, front);
      forall m | m in front ensures m.path != last.path {
        var i :| 0 <= i < n && front[i] == m;
        assert ms[i] == m;
      }
      WithoutWeighs(RemovedAll(fs, front), last, w);
      WeighSplit(front, [last], w);
      WeighOne(last, w);
    } else {
      assert Weigh(ms, w) == 0;
    }
  }

  lemma WeighOne(f: Meta, w: Meta -> nat)
    ensures Weigh([f], w) == w(f)
  {
    assert [f][1..] == [];
  }

  lemma {:induction false} WeighPositive(fs: seq<Meta>, w: Meta -> nat) returns (f: Meta)
    requires Weigh(fs, w) > 0
    ensures f in fs && w(f) > 0
  {
    if w(fs[0]) > 0 {
      f := fs[0];
    } else {
      f := WeighPositive(fs[1..], w);
    }
  }

  lemma {:induction false} WeighZero(fs: seq<Meta>, w: Meta -> nat)
    requires forall f :: f in fs ==> w(f) == 0
    ensures Weigh(fs, w) == 0
  {
    if fs != [] {
      assert fs[0] in fs;
      WeighZero(fs[1..], w);
    }
  }
}
