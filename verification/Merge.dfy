/** The heap-driven N-way merge of MergeFiles (src/storage/compaction/compaction_manager.cpp),
    without its file handling: what it must produce, and the steps that produce it. */
module Merge {
  import opened Common
  import opened Bytes
  import opened Tables

  // ---- what a merge must produce ----

  /** The input holding the highest-ranked version of `k`. */
  function Newest(ts: seq<seq<Entry>>, ranks: seq<nat>, k: Str): (r: Option<nat>)
    requires |ts| == |ranks|
    ensures r.Some? ==> r.value < |ts| && Lookup(ts[r.value], k).Some?
  {
    if ts == [] then None else
    var n := |ts| - 1;
    var r := Newest(ts[..n], ranks[..n], k);
    if Lookup(ts[n], k).None? then r
    else if r.None? || ranks[r.value] < ranks[n] then Some(n)
    else r
  }

  /** The version of `k` a merge keeps: the newest one, except that a tombstone is dropped at the
      bottom level and an empty key is always dropped (it equals the initial last emitted key). */
  function Kept(ts: seq<seq<Entry>>, ranks: seq<nat>, bottom: bool, k: Str): Option<Entry>
    requires |ts| == |ranks|
  {
    var n := Newest(ts, ranks, k);
    if k == [] || n.None? then None
    else if Lookup(ts[n.value], k).value.tombstone && bottom then None
    else Lookup(ts[n.value], k)
  }

  /** The newest version of `k` is a tombstone that the merge drops. */
  ghost predicate Erased(ts: seq<seq<Entry>>, ranks: seq<nat>, bottom: bool, k: Str)
    requires |ts| == |ranks|
  {
    var n := Newest(ts, ranks, k);
    bottom && k != [] && n.Some? && Lookup(ts[n.value], k).value.tombstone
  }

  ghost function KeysOf(ts: seq<seq<Entry>>): set<Str> {
    set t, e | t in ts && e in t :: e.key
  }

  ghost function ErasedKeys(ts: seq<seq<Entry>>, ranks: seq<nat>, bottom: bool): set<Str>
    requires |ts| == |ranks|
  {
    set k | k in KeysOf(ts) && Erased(ts, ranks, bottom, k)
  }

  /** `out` is the merge of `ts`: sorted, and with exactly the kept version of every key. */
  ghost predicate IsMerge(ts: seq<seq<Entry>>, ranks: seq<nat>, bottom: bool, out: seq<Entry>)
    requires |ts| == |ranks|
  {
    Sorted(out) && forall k :: Lookup(out, k) == Kept(ts, ranks, bottom, k)
  }

  ghost predicate AllSorted(ts: seq<seq<Entry>>) {
    forall i :: 0 <= i < |ts| ==> Sorted(ts[i])
  }

  ghost predicate Distinct(ranks: seq<nat>) {
    forall i, j :: 0 <= i < j < |ranks| ==> ranks[i] != ranks[j]
  }

  lemma {:induction false} NewestIs(ts: seq<seq<Entry>>, ranks: seq<nat>, k: Str, f: nat)
    requires |ts| == |ranks| && f < |ts| && Lookup(ts[f], k).Some?
    requires forall i :: 0 <= i < |ts| && i != f && Lookup(ts[i], k).Some? ==> ranks[i] < ranks[f]
    ensures Newest(ts, ranks, k) == Some(f)
  {
    var n := |ts| - 1;
    if f < n {
      NewestIs(ts[..n], ranks[..n], k, f);
    } else {
      var r := Newest(ts[..n], ranks[..n], k);
      assert r.Some? ==> ts[..n][r.value] == ts[r.value] && ranks[..n][r.value] == ranks[r.value];
    }
  }

  lemma {:induction false} NewestNone(ts: seq<seq<Entry>>, ranks: seq<nat>, k: Str)
    requires |ts| == |ranks|
    ensures Newest(ts, ranks, k).None? <==> forall i :: 0 <= i < |ts| ==> Lookup(ts[i], k).None?
  {
    if ts != [] {
      var n := |ts| - 1;
      NewestNone(ts[..n], ranks[..n], k);
      forall i | 0 <= i < n ensures ts[..n][i] == ts[i] {}
    }
  }

  // ---- the heap ----

  /** A queued entry with its file's sequence number and the file it came from. */
  datatype HeapItem = HeapItem(entry: Entry, rank: nat, file: nat)

  /** `MergeItem::operator>`. */
  predicate After(a: HeapItem, b: HeapItem) {
    if a.entry.key != b.entry.key then Less(b.entry.key, a.entry.key) else a.rank < b.rank
  }

  /** `top` and `pop` of the priority queue: some item that comes after no other. */
  method PopLeast(heap: seq<HeapItem>) returns (item: HeapItem, rest: seq<HeapItem>, at: nat)
    requires heap != []
    ensures at < |heap| && item == heap[at] && rest == heap[..at] + heap[at + 1..]
    ensures forall n :: 0 <= n < |heap| ==> !After(item, heap[n])
  {
    at := 0;
    var n := 1;
    OrderFacts();
    while n < |heap|
      invariant 1 <= n <= |heap| && at < n
      invariant forall m :: 0 <= m < n ==> !After(heap[at], heap[m])
    {
      if After(heap[at], heap[n]) {
        hide Less;
        at := n;
      }
      n := n + 1;
    }
    item, rest := heap[at], heap[..at] + heap[at + 1..];
  }

  ghost function FilesIn(heap: seq<HeapItem>): set<nat> {
    set h | h in heap :: h.file
  }

  /** The heap holds, of every file with unpopped entries, exactly the first of them.
      `pos[i]` entries of file `i` have been popped and `cursor[i]` have been pushed. */
  ghost predicate HeapOk(ts: seq<seq<Entry>>, ranks: seq<nat>, pos: seq<nat>, cursor: seq<nat>, heap: seq<HeapItem>) {
    && |ts| == |ranks| == |pos| == |cursor|
    && (forall i :: 0 <= i < |ts| ==> pos[i] <= |ts[i]|)
    && (forall i :: 0 <= i < |ts| ==> cursor[i] == if pos[i] < |ts[i]| then pos[i] + 1 else pos[i])
    && (forall n :: 0 <= n < |heap| ==> Head(ts, ranks, pos, heap[n]))
    && (forall n, m :: 0 <= n < m < |heap| ==> heap[n].file != heap[m].file)
    && (forall i :: 0 <= i < |ts| && pos[i] < |ts[i]| ==> i in FilesIn(heap))
  }

  ghost predicate Head(ts: seq<seq<Entry>>, ranks: seq<nat>, pos: seq<nat>, h: HeapItem)
    requires |ts| == |ranks| == |pos|
  {
    h.file < |ts| && pos[h.file] < |ts[h.file]| && h == HeapItem(ts[h.file][pos[h.file]], ranks[h.file], h.file)
  }

  /** Popped keys are at most `last`, unpopped keys at least `last`. */
  ghost predicate Frontier(ts: seq<seq<Entry>>, pos: seq<nat>, last: Str)
    requires |ts| == |pos|
  {
    forall i, j :: 0 <= i < |ts| && 0 <= j < |ts[i]| ==>
      if j < pos[i] then AtMost(ts[i][j].key, last) else AtMost(last, ts[i][j].key)
  }

  /** `out` is the merge as far as `last`. */
  ghost predicate MergedTo(ts: seq<seq<Entry>>, ranks: seq<nat>, bottom: bool, out: seq<Entry>, last: Str)
    requires |ts| == |ranks|
  {
    Sorted(out) && forall k :: Lookup(out, k) == if Less(last, k) then None else Kept(ts, ranks, bottom, k)
  }

  /** `f` is the file whose head is popped: no other head precedes it, and it wins ties. */
  ghost predicate Least(ts: seq<seq<Entry>>, ranks: seq<nat>, pos: seq<nat>, f: nat)
    requires |ts| == |ranks| == |pos|
  {
    && f < |ts| && pos[f] < |ts[f]|
    && forall i :: 0 <= i < |ts| && pos[i] < |ts[i]| && i != f ==>
         || Less(ts[f][pos[f]].key, ts[i][pos[i]].key)
         || (ts[f][pos[f]].key == ts[i][pos[i]].key && ranks[i] < ranks[f])
  }

  lemma PoppedIsLeast(ts: seq<seq<Entry>>, ranks: seq<nat>, pos: seq<nat>, cursor: seq<nat>, heap: seq<HeapItem>,
      at: nat)
    requires HeapOk(ts, ranks, pos, cursor, heap) && Distinct(ranks) && at < |heap|
    requires forall n :: 0 <= n < |heap| ==> !After(heap[at], heap[n])
    ensures Least(ts, ranks, pos, heap[at].file)
  {
    OrderFacts();
    hide Less;
    var f := heap[at].file;
    assert Head(ts, ranks, pos, heap[at]);
    forall i | 0 <= i < |ts| && pos[i] < |ts[i]| && i != f
      ensures || Less(ts[f][pos[f]].key, ts[i][pos[i]].key)
              || (ts[f][pos[f]].key == ts[i][pos[i]].key && ranks[i] < ranks[f])
    {
      assert i in FilesIn(heap);
      var h :| h in heap && h.file == i;
      var n :| 0 <= n < |heap| && heap[n] == h;
      assert Head(ts, ranks, pos, heap[n]);
      assert !After(heap[at], heap[n]);
    }
  }

  lemma FrontierStep(ts: seq<seq<Entry>>, ranks: seq<nat>, pos: seq<nat>, last: Str, f: nat)
    requires |ts| == |ranks| == |pos| && AllSorted(ts) && Frontier(ts, pos, last) && Least(ts, ranks, pos, f)
    ensures Frontier(ts, pos[f := pos[f] + 1], ts[f][pos[f]].key)
    ensures AtMost(last, ts[f][pos[f]].key)
  {
    OrderFacts();
    hide Less;
    var key := ts[f][pos[f]].key;
    var next := pos[f := pos[f] + 1];
    forall i, j | 0 <= i < |ts| && 0 <= j < |ts[i]|
      ensures if j < next[i] then AtMost(ts[i][j].key, key) else AtMost(key, ts[i][j].key)
    {
      if j < pos[i] {
      } else if j > pos[i] {
        assert Sorted(ts[i]);
        assert Less(ts[i][pos[i]].key, ts[i][j].key);
      }
    }
  }

  /** A popped key beyond the last emitted one is its key's newest version. */
  lemma PoppedIsNewest(ts: seq<seq<Entry>>, ranks: seq<nat>, pos: seq<nat>, last: Str, f: nat)
    requires |ts| == |ranks| == |pos| && AllSorted(ts) && Frontier(ts, pos, last) && Least(ts, ranks, pos, f)
    requires Less(last, ts[f][pos[f]].key)
    ensures Newest(ts, ranks, ts[f][pos[f]].key) == Some(f)
    ensures Lookup(ts[f], ts[f][pos[f]].key) == Some(ts[f][pos[f]])
  {
    OrderFacts();
    hide Less;
    var key := ts[f][pos[f]].key;
    LookupAt(ts[f], pos[f]);
    forall i | 0 <= i < |ts| && i != f && Lookup(ts[i], key).Some?
      ensures ranks[i] < ranks[f]
    {
      var j := LookupIndex(ts[i], key);
      assert Sorted(ts[i]);
      if pos[i] < j {
        assert Less(ts[i][pos[i]].key, ts[i][j].key);
      }
    }
    NewestIs(ts, ranks, key, f);
  }

  /** No input holds a key strictly between the last emitted key and the one popped next. */
  lemma NothingBetween(ts: seq<seq<Entry>>, ranks: seq<nat>, pos: seq<nat>, last: Str, f: nat, k: Str)
    requires |ts| == |ranks| == |pos| && AllSorted(ts) && Frontier(ts, pos, last) && Least(ts, ranks, pos, f)
    requires Less(last, k) && Less(k, ts[f][pos[f]].key)
    ensures Newest(ts, ranks, k).None?
  {
    FrontierStep(ts, ranks, pos, last, f);
    OrderFacts();
    hide Less;
    forall i | 0 <= i < |ts| ensures Lookup(ts[i], k).None? {
      if Lookup(ts[i], k).Some? {
        var j := LookupIndex(ts[i], k);
      }
    }
    NewestNone(ts, ranks, k);
  }

  /** Emitting or dropping a popped entry extends the merge to its key. */
  lemma EmitStep(ts: seq<seq<Entry>>, ranks: seq<nat>, bottom: bool, pos: seq<nat>, last: Str, f: nat, out: seq<Entry>)
    requires |ts| == |ranks| == |pos| && AllSorted(ts) && Frontier(ts, pos, last) && Least(ts, ranks, pos, f)
    requires MergedTo(ts, ranks, bottom, out, last) && ts[f][pos[f]].key != last
    ensures var e := ts[f][pos[f]];
            MergedTo(ts, ranks, bottom, if e.tombstone && bottom then out else out + [e], e.key)
  {
    OrderFacts();
    FrontierStep(ts, ranks, pos, last, f);
    hide Less;
    var e := ts[f][pos[f]];
    PoppedIsNewest(ts, ranks, pos, last, f);
    assert e.key != [];
    var out' := if e.tombstone && bottom then out else out + [e];
    forall i | 0 <= i < |out| ensures Less(out[i].key, e.key) {
      LookupAt(out, i);
      assert Lookup(out, out[i].key).Some?;
    }
    forall k ensures Lookup(out', k) == if Less(e.key, k) then None else Kept(ts, ranks, bottom, k) {
      LookupAppend(out, [e], k);
      assert Lookup(out, k) == if Less(last, k) then None else Kept(ts, ranks, bottom, k);
      if Less(last, k) && Less(k, e.key) {
        NothingBetween(ts, ranks, pos, last, f, k);
      }
    }
  }

  /** With every entry popped, the merge is complete. */
  lemma MergeComplete(ts: seq<seq<Entry>>, ranks: seq<nat>, bottom: bool, pos: seq<nat>, last: Str, out: seq<Entry>)
    requires |ts| == |ranks| == |pos| && Frontier(ts, pos, last) && MergedTo(ts, ranks, bottom, out, last)
    requires forall i :: 0 <= i < |ts| ==> pos[i] == |ts[i]|
    ensures IsMerge(ts, ranks, bottom, out)
  {
    OrderFacts();
    hide Less;
    forall k ensures Lookup(out, k) == Kept(ts, ranks, bottom, k) {
      assert Lookup(out, k) == if Less(last, k) then None else Kept(ts, ranks, bottom, k);
      if Less(last, k) {
        forall i | 0 <= i < |ts| ensures Lookup(ts[i], k).None? {
          if Lookup(ts[i], k).Some? {
            var j := LookupIndex(ts[i], k);
          }
        }
        NewestNone(ts, ranks, k);
      }
    }
  }

  // ---- the loop ----

  /** The invariant of the merge loop: `out` is everything emitted so far. */
  ghost predicate Merging(ts: seq<seq<Entry>>, ranks: seq<nat>, bottom: bool, pos: seq<nat>, last: Str,
      out: seq<Entry>) {
    && |ts| == |ranks| == |pos| && AllSorted(ts)
    && Frontier(ts, pos, last) && MergedTo(ts, ranks, bottom, out, last)
  }

  function Sum(ns: seq<nat>): nat {
    if ns == [] then 0 else Sum(ns[..|ns| - 1]) + ns[|ns| - 1]
  }

  function Total(ts: seq<seq<Entry>>): nat {
    if ts == [] then 0 else Total(ts[..|ts| - 1]) + |ts[|ts| - 1]|
  }

  lemma {:induction false} SumStep(ns: seq<nat>, i: nat)
    requires i < |ns|
    ensures Sum(ns[i := ns[i] + 1]) == Sum(ns) + 1
  {
    var n := |ns| - 1;
    if i < n {
      SumStep(ns[..n], i);
      assert ns[i := ns[i] + 1][..n] == ns[..n][i := ns[i] + 1];
    } else {
      assert ns[i := ns[i] + 1][..n] == ns[..n];
    }
  }

  lemma {:induction false} SumBounded(ts: seq<seq<Entry>>, pos: seq<nat>)
    requires |ts| == |pos| && forall i :: 0 <= i < |ts| ==> pos[i] <= |ts[i]|
    ensures Sum(pos) <= Total(ts)
    ensures (forall i :: 0 <= i < |ts| ==> pos[i] == |ts[i]|) ==> Sum(pos) == Total(ts)
  {
    if ts != [] {
      SumBounded(ts[..|ts| - 1], pos[..|ts| - 1]);
    }
  }

  lemma {:induction false} SumZeros(n: nat)
    ensures Sum(seq(n, _ => 0)) == 0
  {
    if n > 0 {
      SumZeros(n - 1);
      assert seq(n, _ => 0)[..n - 1] == seq(n - 1, _ => 0);
    }
  }

  /** Puts the first entry of every file on the heap. */
  method SeedHeap(ts: seq<seq<Entry>>, ranks: seq<nat>) returns (heap: seq<HeapItem>, cursor: seq<nat>)
    requires |ts| == |ranks|
    ensures HeapOk(ts, ranks, seq(|ts|, _ => 0), cursor, heap)
  {
    heap := [];
    cursor := seq(|ts|, _ => 0);
    ghost var pos := seq(|ts|, _ => 0);
    var i := 0;
    while i < |ts|
      invariant 0 <= i <= |ts| == |cursor|
      invariant forall l :: 0 <= l < |ts| ==> cursor[l] == if l < i && ts[l] != [] then 1 else 0
      invariant forall n :: 0 <= n < |heap| ==> Head(ts, ranks, pos, heap[n]) && heap[n].file < i
      invariant forall n, m :: 0 <= n < m < |heap| ==> heap[n].file != heap[m].file
      invariant forall l :: 0 <= l < i && ts[l] != [] ==> l in FilesIn(heap)
    {
      if ts[i] != [] {
        ghost var before := heap;
        heap := heap + [HeapItem(ts[i][0], ranks[i], i)];
        cursor := cursor[i := 1];
        FilesInGrow(before, heap[|before|]);
      }
      i := i + 1;
    }
  }

  lemma FilesInGrow(heap: seq<HeapItem>, h: HeapItem)
    ensures FilesIn(heap + [h]) == FilesIn(heap) + {h.file}
  {
    assert h in heap + [h];
    forall f | f in FilesIn(heap) ensures f in FilesIn(heap + [h]) {
      var x :| x in heap && x.file == f;
      assert x in heap + [h];
    }
  }

  lemma FilesInShrink(heap: seq<HeapItem>, at: nat)
    requires at < |heap|
    ensures FilesIn(heap[..at] + heap[at + 1..]) + {heap[at].file} == FilesIn(heap)
  {
    var rest := heap[..at] + heap[at + 1..];
    assert heap == heap[..at] + [heap[at]] + heap[at + 1..];
    assert forall x :: x in heap <==> x in rest || x == heap[at];
    forall f | f in FilesIn(heap) ensures f in FilesIn(rest) + {heap[at].file} {
      var x :| x in heap && x.file == f;
    }
    forall f | f in FilesIn(rest) ensures f in FilesIn(heap) {
      var x :| x in rest && x.file == f;
      assert x in heap;
    }
    assert heap[at] in heap;
  }

  /** What is left on the heap after taking out the item at `at`. */
  lemma PoppedRest(ts: seq<seq<Entry>>, ranks: seq<nat>, pos: seq<nat>, cursor: seq<nat>, heap: seq<HeapItem>, at: nat,
      rest: seq<HeapItem>)
    requires HeapOk(ts, ranks, pos, cursor, heap) && at < |heap| && rest == heap[..at] + heap[at + 1..]
    ensures var f := heap[at].file;
            && f < |ts| && pos[f] < |ts[f]| && heap[at] == HeapItem(ts[f][pos[f]], ranks[f], f)
            && (forall n :: 0 <= n < |rest| ==> Head(ts, ranks, pos[f := pos[f] + 1], rest[n]) && rest[n].file != f)
            && (forall n, m :: 0 <= n < m < |rest| ==> rest[n].file != rest[m].file)
            && (forall i :: 0 <= i < |ts| && pos[i] < |ts[i]| && i != f ==> i in FilesIn(rest))
  {
    hide FilesIn;
    var f := heap[at].file;
    assert Head(ts, ranks, pos, heap[at]);
    forall n | 0 <= n < |rest| ensures Head(ts, ranks, pos[f := pos[f] + 1], rest[n]) && rest[n].file != f {
      var m := if n < at then n else n + 1;
      assert rest[n] == heap[m] && Head(ts, ranks, pos, heap[m]);
    }
    forall i | 0 <= i < |ts| && pos[i] < |ts[i]| && i != f ensures i in FilesIn(rest) {
      FilesInShrink(heap, at);
    }
  }

  /** Pops the least item and queues the next entry of its file. */
  method Advance(ts: seq<seq<Entry>>, ranks: seq<nat>, ghost pos: seq<nat>, cursor: seq<nat>, heap: seq<HeapItem>)
    returns (item: HeapItem, cursor': seq<nat>, heap': seq<HeapItem>)
    requires HeapOk(ts, ranks, pos, cursor, heap) && Distinct(ranks) && heap != []
    ensures item.file < |ts| == |pos| && pos[item.file] < |ts[item.file]| && item.entry == ts[item.file][pos[item.file]]
    ensures Least(ts, ranks, pos, item.file)
    ensures HeapOk(ts, ranks, pos[item.file := pos[item.file] + 1], cursor', heap')
  {
    hide Less, FilesIn;
    var rest, at;
    item, rest, at := PopLeast(heap);
    assert Least(ts, ranks, pos, item.file) by {
      PoppedIsLeast(ts, ranks, pos, cursor, heap, at);
    }
    PoppedRest(ts, ranks, pos, cursor, heap, at, rest);
    var f := item.file;
    if cursor[f] < |ts[f]| {
      var next := HeapItem(ts[f][cursor[f]], ranks[f], f);
      heap' := rest + [next];
      cursor' := cursor[f := cursor[f] + 1];
      FilesInGrow(rest, next);
    } else {
      heap' := rest;
      cursor' := cursor;
    }
  }

  /** An empty heap means every entry has been popped. */
  lemma HeapDrained(ts: seq<seq<Entry>>, ranks: seq<nat>, pos: seq<nat>, cursor: seq<nat>)
    requires HeapOk(ts, ranks, pos, cursor, [])
    ensures forall i :: 0 <= i < |ts| ==> pos[i] == |ts[i]|
  {
    assert FilesIn([]) == {};
  }

  lemma MergingStarts(ts: seq<seq<Entry>>, ranks: seq<nat>, bottom: bool)
    requires |ts| == |ranks| && AllSorted(ts)
    ensures Merging(ts, ranks, bottom, seq(|ts|, _ => 0), [], [])
  {
    OrderFacts();
    hide Less;
  }

  /** A popped entry whose key was the last one handled is a duplicate: nothing is emitted. */
  lemma MergingDuplicate(ts: seq<seq<Entry>>, ranks: seq<nat>, bottom: bool, pos: seq<nat>, last: Str, out: seq<Entry>,
      f: nat)
    requires Merging(ts, ranks, bottom, pos, last, out) && Least(ts, ranks, pos, f) && ts[f][pos[f]].key == last
    ensures Merging(ts, ranks, bottom, pos[f := pos[f] + 1], last, out)
  {
    FrontierStep(ts, ranks, pos, last, f);
  }

  lemma MergingEmits(ts: seq<seq<Entry>>, ranks: seq<nat>, bottom: bool, pos: seq<nat>, last: Str, out: seq<Entry>,
      f: nat)
    requires Merging(ts, ranks, bottom, pos, last, out) && Least(ts, ranks, pos, f) && ts[f][pos[f]].key != last
    ensures var e := ts[f][pos[f]];
            Merging(ts, ranks, bottom, pos[f := pos[f] + 1], e.key, if e.tombstone && bottom then out else out + [e])
  {
    hide MergedTo;
    FrontierStep(ts, ranks, pos, last, f);
    EmitStep(ts, ranks, bottom, pos, last, f, out);
  }

  // ---- counting the tombstones dropped ----

  /** `erased` are the dropped keys up to `last`. */
  ghost predicate Erasing(ts: seq<seq<Entry>>, ranks: seq<nat>, bottom: bool, last: Str, erased: set<Str>)
    requires |ts| == |ranks|
  {
    forall k :: k in erased <==> Erased(ts, ranks, bottom, k) && AtMost(k, last)
  }

  lemma ErasingStarts(ts: seq<seq<Entry>>, ranks: seq<nat>, bottom: bool)
    requires |ts| == |ranks|
    ensures Erasing(ts, ranks, bottom, [], {})
  {
    OrderFacts();
    hide Less, Newest;
  }

  /** A new key is dropped exactly if its newest version, the one popped, is a tombstone at the bottom. */
  lemma ErasingStep(ts: seq<seq<Entry>>, ranks: seq<nat>, bottom: bool, pos: seq<nat>, last: Str, out: seq<Entry>,
      f: nat, erased: set<Str>)
    requires Merging(ts, ranks, bottom, pos, last, out) && Least(ts, ranks, pos, f) && ts[f][pos[f]].key != last
    requires Erasing(ts, ranks, bottom, last, erased)
    ensures var e := ts[f][pos[f]];
      Erasing(ts, ranks, bottom, e.key, if e.tombstone && bottom then erased + {e.key} else erased)
    ensures ts[f][pos[f]].key !in erased
  {
    OrderFacts();
    FrontierStep(ts, ranks, pos, last, f);
    var e := ts[f][pos[f]];
    PoppedIsNewest(ts, ranks, pos, last, f);
    hide Less, Newest, Lookup, MergedTo, AllSorted, Frontier, Least;
    var erased' := if e.tombstone && bottom then erased + {e.key} else erased;
    assert e.key != [];
    forall k ensures k in erased' <==> Erased(ts, ranks, bottom, k) && AtMost(k, e.key) {
      if Less(last, k) && Less(k, e.key) {
        NothingBetween(ts, ranks, pos, last, f, k);
      }
    }
  }

  /** At the end they are all of them. */
  lemma ErasingEnds(ts: seq<seq<Entry>>, ranks: seq<nat>, bottom: bool, pos: seq<nat>, last: Str, out: seq<Entry>,
      erased: set<Str>)
    requires Merging(ts, ranks, bottom, pos, last, out) && forall i :: 0 <= i < |ts| ==> pos[i] == |ts[i]|
    requires Erasing(ts, ranks, bottom, last, erased)
    ensures erased == ErasedKeys(ts, ranks, bottom)
  {
    OrderFacts();
    hide Less, Newest, MergedTo;
    forall k ensures k in erased <==> k in ErasedKeys(ts, ranks, bottom) {
      if Erased(ts, ranks, bottom, k) {
        var n := Newest(ts, ranks, k).value;
        var j := LookupIndex(ts[n], k);
        assert ts[n] in ts && ts[n][j] in ts[n];
      }
    }
  }
}
