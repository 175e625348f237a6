/** What one compaction does to lookups: the merge winner is the version readers saw, the outputs
    replace the inputs without overlapping their neighbours, and every step of the catalogue swap
    is safe to read (src/storage/compaction/compaction_manager.cpp:328-379). */
module CompactionTheory {
  import opened Common
  import opened Bytes
  import opened Tables
  import opened Merge
  import opened Catalogue

  /** One compaction: the files selected at `level` and `level + 1`, and the files written. */
  datatype Job = Job(level: int, source: seq<Meta>, target: seq<Meta>, outs: seq<Meta>, out: seq<Entry>, bottom: bool)

  ghost function Inputs(j: Job): seq<Meta> {
    j.source + j.target
  }

  ghost function TablesOf(metas: seq<Meta>, store: Store): (ts: seq<seq<Entry>>)
    ensures |ts| == |metas|
    ensures forall i :: 0 <= i < |ts| ==> ts[i] == if metas[i].path in store then store[metas[i].path] else []
  {
    seq(|metas|, i requires 0 <= i < |metas| => if metas[i].path in store then store[metas[i].path] else [])
  }

  /** The sequence numbers a run assigns: sources count down from the total, targets up from 0. */
  function Renumbered(sources: nat, targets: nat): (ranks: seq<nat>)
    ensures |ranks| == sources + targets
    ensures Distinct(ranks)
  {
    seq(sources + targets, i requires 0 <= i < sources + targets =>
      if i < sources then sources + targets - i else i - sources)
  }

  /** The output files hold `out`, cut into non-empty pieces, with exact ranges. */
  ghost predicate Produced(outs: seq<Meta>, store: Store, level: int, out: seq<Entry>) {
    && (forall i :: 0 <= i < |outs| ==>
      outs[i].level == level && outs[i].path in store && Describes(outs[i], store[outs[i].path]))
    && Sorted(out) && Flatten(TablesOf(outs, store)) == out
  }

  ghost predicate JobOk(files: seq<Meta>, store: Store, maxLevel: int, j: Job, after: Store) {
    && WellFormed(files, store, maxLevel) && Selection(files, j.level, j.source, j.target)
    && DistinctPaths(Inputs(j)) && j.level + 1 < maxLevel && j.bottom == (j.level + 1 == maxLevel - 1)
    && IsMerge(TablesOf(Inputs(j), store), Renumbered(|j.source|, |j.target|), j.bottom, j.out)
    && Produced(j.outs, after, j.level + 1, j.out)
    && (forall f :: f in files ==> f.path in store && f.path in after && after[f.path] == store[f.path])
    && (forall f, o :: f in files && o in j.outs ==> f.path != o.path)
  }

  /** The catalogue with some inputs removed and some outputs added. */
  ghost predicate Swapped(files: seq<Meta>, removed: seq<Meta>, added: seq<Meta>, files': seq<Meta>) {
    forall f :: f in files' <==> (f in files && f !in removed) || f in added
  }

  // ---- outputs ----

  lemma OutputsApart(outs: seq<Meta>, store: Store, level: int, out: seq<Entry>, i: nat, j: nat)
    requires Produced(outs, store, level, out) && i < j < |outs|
    ensures Less(outs[i].largest, outs[j].smallest)
  {
    PiecesApart(TablesOf(outs, store), i, j);
  }

  lemma OutputHolder(outs: seq<Meta>, store: Store, level: int, out: seq<Entry>, k: Str) returns (o: Meta)
    requires Produced(outs, store, level, out) && Lookup(out, k).Some?
    ensures o in outs && Holds(store, o, k) && Lookup(store[o.path], k) == Lookup(out, k)
    ensures forall g :: g in outs && Holds(store, g, k) ==> g == o
  {
    hide Less, Flatten, Lookup;
    var ts := TablesOf(outs, store);
    var i := SomePieceHas(ts, k);
    PieceLookup(ts, i, k);
    o := outs[i];
    forall g | g in outs && Holds(store, g, k) ensures g == o {
      var n :| 0 <= n < |outs| && outs[n] == g;
      if n != i {
        OutputsApart(outs, store, level, out, if n < i then n else i, if n < i then i else n);
        HeldInRange(store, g, k);
        HeldInRange(store, o, k);
        OrderFacts();
      }
    }
  }

  lemma OutputsHoldOnly(outs: seq<Meta>, store: Store, level: int, out: seq<Entry>, o: Meta, k: Str)
    requires Produced(outs, store, level, out) && o in outs && Holds(store, o, k)
    ensures Lookup(out, k) == Lookup(store[o.path], k)
  {
    var i :| 0 <= i < |outs| && outs[i] == o;
    PieceLookup(TablesOf(outs, store), i, k);
  }

  // ---- the merge winner ----

  /** The first input holding `k`: sources in the order of their smallest keys, then targets. */
  ghost function FirstHolder(metas: seq<Meta>, store: Store, k: Str): (r: Option<nat>)
    ensures r.Some? ==> r.value < |metas| && Holds(store, metas[r.value], k)
    ensures r.Some? ==> forall i :: 0 <= i < r.value ==> !Holds(store, metas[i], k)
    ensures r.None? ==> forall i :: 0 <= i < |metas| ==> !Holds(store, metas[i], k)
  {
    if metas == [] then None
    else if Holds(store, metas[0], k) then Some(0)
    else
      var r := FirstHolder(metas[1..], store, k);
      assert forall i :: 0 < i < |metas| ==> metas[i] == metas[1..][i - 1];
      if r.None? then None else Some(r.value + 1)
  }

  /** The first input holding a key has the highest number of those that do. */
  lemma FirstRanksHighest(files: seq<Meta>, store: Store, maxLevel: int, j: Job, k: Str, f: nat, i: nat)
    requires WellFormed(files, store, maxLevel) && Selection(files, j.level, j.source, j.target)
        && DistinctPaths(Inputs(j))
    requires f < i < |Inputs(j)| && Holds(store, Inputs(j)[f], k) && Holds(store, Inputs(j)[i], k)
    ensures Renumbered(|j.source|, |j.target|)[i] < Renumbered(|j.source|, |j.target|)[f]
  {
    if f >= |j.source| {
      InputsListed(files, j);
      LevelHolderUnique(files, store, maxLevel, Inputs(j)[f], Inputs(j)[i], k);
    }
  }

  /** The merge keeps the version of the first input holding the key. */
  lemma WinnerIsFirst(files: seq<Meta>, store: Store, maxLevel: int, j: Job, after: Store, k: Str)
    requires JobOk(files, store, maxLevel, j, after) && k != []
    ensures var first := FirstHolder(Inputs(j), store, k);
            if first.None? then Lookup(j.out, k).None? else
            var e := Lookup(store[Inputs(j)[first.value].path], k);
            Lookup(j.out, k) == if e.value.tombstone && j.bottom then None else e
  {
    hide Less, Lookup, Sorted, WellFormed, Selection, Renumbered, Produced;
    var ins := Inputs(j);
    var ts, ranks := TablesOf(ins, store), Renumbered(|j.source|, |j.target|);
    var first := FirstHolder(ins, store, k);
    NothingAnywhere();
    assert Lookup(j.out, k) == Kept(ts, ranks, j.bottom, k);
    if first.None? {
      NewestNone(ts, ranks, k);
    } else {
      forall i | 0 <= i < |ts| && i != first.value && Lookup(ts[i], k).Some? ensures ranks[i] < ranks[first.value] {
        assert Holds(store, ins[i], k);
        FirstRanksHighest(files, store, maxLevel, j, k, first.value, i);
      }
      NewestIs(ts, ranks, k, first.value);
    }
  }

  lemma NothingAnywhere()
    ensures forall k :: Lookup([], k).None?
  {
  }

  lemma InputsListed(files: seq<Meta>, j: Job)
    requires Selection(files, j.level, j.source, j.target)
    ensures forall i :: 0 <= i < |Inputs(j)| ==>
      Inputs(j)[i] in files && Inputs(j)[i].level == if i < |j.source| then j.level else j.level + 1
  {
    forall i | 0 <= i < |Inputs(j)|
      ensures Inputs(j)[i] in files && Inputs(j)[i].level == if i < |j.source| then j.level else j.level + 1
    {
      if i < |j.source| {
        assert Inputs(j)[i] in j.source;
      } else {
        assert Inputs(j)[i] in j.target;
      }
    }
  }

  // ---- lookups after a compaction ----

  /** A file above the selection, or beside its source, answers for `k`. */
  ghost predicate Shadowed(files: seq<Meta>, store: Store, j: Job, k: Str) {
    exists f :: f in files && f !in Inputs(j) && f.level <= j.level && Holds(store, f, k)
  }

  ghost predicate Subset(a: seq<Meta>, b: seq<Meta>) {
    forall f :: f in a ==> f in b
  }

  /** The answering file stays on top as long as it stays, no added file holds the key above it. */
  lemma TopStays(files: seq<Meta>, store: Store, maxLevel: int, j: Job, after: Store, removed: seq<Meta>,
      added: seq<Meta>, files': seq<Meta>, k: Str, t: Meta)
    requires JobOk(files, store, maxLevel, j, after) && Swapped(files, removed, added, files')
    requires Top(files, store, k, t) && t !in removed
    requires forall o :: o in added && Holds(after, o, k) ==> Outranks(t, o)
    ensures Top(files', after, k, t) && Version(files', after, k) == Version(files, store, k)
  {
    hide Less, Lookup, WellFormed, Selection, IsMerge, Produced;
    assert forall f :: f in files ==> (Holds(after, f, k) <==> Holds(store, f, k));
    TopIsBest(files, store, k, t);
    TopIsBest(files', after, k, t);
  }

  lemma ShadowedKeeps(files: seq<Meta>, store: Store, maxLevel: int, j: Job, after: Store, removed: seq<Meta>,
      added: seq<Meta>, files': seq<Meta>, k: Str)
    requires JobOk(files, store, maxLevel, j, after) && Swapped(files, removed, added, files')
    requires Subset(removed, Inputs(j)) && Subset(added, j.outs) && Shadowed(files, store, j, k)
    ensures Version(files', after, k) == Version(files, store, k)
  {
    hide Less, Lookup, IsMerge, WellFormed;
    var f :| f in files && f !in Inputs(j) && f.level <= j.level && Holds(store, f, k);
    BestNone(files, store, k);
    BestIsTop(files, store, maxLevel, k);
    var t := Best(files, store, k).value;
    assert t !in Inputs(j) by {
      if t in Inputs(j) {
        assert t in j.source;
        assert f != t && f.level == t.level == j.level;
        if j.level >= 1 {
          LevelHolderUnique(files, store, maxLevel, f, t, k);
        }
      }
    }
    TopStays(files, store, maxLevel, j, after, removed, added, files', k, t);
  }

  lemma UntouchedKeeps(files: seq<Meta>, store: Store, maxLevel: int, j: Job, after: Store, removed: seq<Meta>,
      added: seq<Meta>, files': seq<Meta>, k: Str)
    requires JobOk(files, store, maxLevel, j, after) && Swapped(files, removed, added, files') && k != []
    requires Subset(removed, Inputs(j)) && Subset(added, j.outs) && FirstHolder(Inputs(j), store, k).None?
    ensures Version(files', after, k) == Version(files, store, k)
  {
    hide Less, Lookup, IsMerge, WellFormed, Selection;
    WinnerIsFirst(files, store, maxLevel, j, after, k);
    forall o | o in added ensures !Holds(after, o, k) {
      if Holds(after, o, k) {
        OutputsHoldOnly(j.outs, after, j.level + 1, j.out, o, k);
      }
    }
    BestNone(files, store, k);
    if Best(files, store, k).Some? {
      BestIsTop(files, store, maxLevel, k);
      TopStays(files, store, maxLevel, j, after, removed, added, files', k, Best(files, store, k).value);
    } else {
      BestNone(files', after, k);
    }
  }

  /** After the whole swap, an unshadowed key is answered by the merge winner. */
  lemma WinnerAnswers(files: seq<Meta>, store: Store, maxLevel: int, j: Job, after: Store, files': seq<Meta>, k: Str)
    requires JobOk(files, store, maxLevel, j, after) && Swapped(files, Inputs(j), j.outs, files') && k != []
    requires !Shadowed(files, store, j, k) && FirstHolder(Inputs(j), store, k).Some?
    ensures var e := Lookup(store[Inputs(j)[FirstHolder(Inputs(j), store, k).value].path], k);
            Version(files', after, k) == if e.value.tombstone && j.bottom then None else e
  {
    hide Less, Lookup, IsMerge, WellFormed, Produced;
    WinnerIsFirst(files, store, maxLevel, j, after, k);
    var w := Inputs(j)[FirstHolder(Inputs(j), store, k).value];
    forall g | g in files && g !in Inputs(j) && Holds(store, g, k) ensures g.level > j.level + 1 {
      if g.level == j.level + 1 {
        TargetHolderSelected(files, store, maxLevel, j.level, j.source, j.target, w, g, k);
      }
    }
    if Lookup(j.out, k).Some? {
      var o := OutputHolder(j.outs, after, j.level + 1, j.out, k);
      OutputLevel(j.outs, after, j.level + 1, j.out, o);
      assert Top(files', after, k, o);
      TopIsBest(files', after, k, o);
    } else {
      forall f | f in files' ensures !Holds(after, f, k) {
        if Holds(after, f, k) {
          if f in j.outs {
            OutputsHoldOnly(j.outs, after, j.level + 1, j.out, f, k);
          } else {
            LevelBound(files, store, maxLevel, f);
          }
        }
      }
      BestNone(files', after, k);
    }
  }

  lemma OutputLevel(outs: seq<Meta>, store: Store, level: int, out: seq<Entry>, o: Meta)
    requires Produced(outs, store, level, out) && o in outs
    ensures o.level == level
  {
  }

  lemma LevelBound(files: seq<Meta>, store: Store, maxLevel: int, f: Meta)
    requires WellFormed(files, store, maxLevel) && f in files
    ensures 0 <= f.level < maxLevel
  {
    assert Placed(f, store, maxLevel);
  }

  /** A source-level or higher holder of an unshadowed key is the first input. */
  lemma SourceHolderIsFirst(files: seq<Meta>, store: Store, j: Job, k: Str, g: Meta)
    requires Selection(files, j.level, j.source, j.target) && j.level >= 1 && !Shadowed(files, store, j, k)
    requires g in files && g.level <= j.level && Holds(store, g, k)
    ensures FirstHolder(Inputs(j), store, k) == Some(0) && Inputs(j)[0] == g
  {
    hide Holds;
    assert g in Inputs(j);
    assert g in j.source && j.source == [g];
    assert Inputs(j)[0] == g;
  }

  /** From level 1 up, the merge winner is the version readers saw before. */
  lemma WinnerWasTop(files: seq<Meta>, store: Store, maxLevel: int, j: Job, after: Store, k: Str)
    requires JobOk(files, store, maxLevel, j, after) && j.level >= 1
    requires !Shadowed(files, store, j, k) && FirstHolder(Inputs(j), store, k).Some?
    ensures Top(files, store, k, Inputs(j)[FirstHolder(Inputs(j), store, k).value])
  {
    hide Less, Lookup, IsMerge, WellFormed, Produced;
    InputsListed(files, j);
    var w := Inputs(j)[FirstHolder(Inputs(j), store, k).value];
    forall g | g in files && Holds(store, g, k) ensures g == w || Outranks(w, g) {
      if g.level <= j.level {
        SourceHolderIsFirst(files, store, j, k, g);
      } else if w.level == g.level {
        LevelHolderUnique(files, store, maxLevel, w, g, k);
      }
    }
  }

  /** A compaction from level 1 up changes no answer. If the target is not the bottom level it does not
      even change a tombstone into an absent key. */
  lemma CompactionKeepsAnswers(files: seq<Meta>, store: Store, maxLevel: int, j: Job, after: Store, files': seq<Meta>,
      k: Str)
    requires JobOk(files, store, maxLevel, j, after) && Swapped(files, Inputs(j), j.outs, files')
    requires j.level >= 1 && k != []
    ensures Visible(Version(files', after, k)) == Visible(Version(files, store, k))
    ensures !j.bottom ==> Version(files', after, k) == Version(files, store, k)
  {
    hide Less, Lookup, JobOk, Swapped;
    if Shadowed(files, store, j, k) {
      ShadowedKeeps(files, store, maxLevel, j, after, Inputs(j), j.outs, files', k);
    } else if FirstHolder(Inputs(j), store, k).None? {
      UntouchedKeeps(files, store, maxLevel, j, after, Inputs(j), j.outs, files', k);
    } else {
      WinnerAnswers(files, store, maxLevel, j, after, files', k);
      WinnerWasTop(files, store, maxLevel, j, after, k);
      TopIsBest(files, store, k, Inputs(j)[FirstHolder(Inputs(j), store, k).value]);
    }
  }

  // ---- level 0 ----

  /** Level-0 files are searched before the rest: their newest holder answers. */
  lemma Level0First(files: seq<Meta>, store: Store, maxLevel: int, j: Job, k: Str)
    requires WellFormed(files, store, maxLevel) && Selection(files, j.level, j.source, j.target) && j.level == 0
    requires FirstHolder(j.source, store, k).Some?
    ensures Version(files, store, k) == Version(j.source, store, k)
  {
    hide Less, Lookup;
    BestNone(j.source, store, k);
    BestNone(files, store, k);
    BestIsTop(files, store, maxLevel, k);
    var t := Best(files, store, k).value;
    assert t.level == 0 by {
      var f := j.source[FirstHolder(j.source, store, k).value];
      assert f in files && f.level == 0;
    }
    assert Top(j.source, store, k, t);
    TopIsBest(j.source, store, k, t);
  }

  lemma {:induction false} FirstHolderPrefix(a: seq<Meta>, b: seq<Meta>, store: Store, k: Str)
    ensures FirstHolder(a, store, k).Some? ==> FirstHolder(a + b, store, k) == FirstHolder(a, store, k)
    ensures FirstHolder(a, store, k).None? && FirstHolder(b, store, k).Some? ==>
      FirstHolder(a + b, store, k) == Some(|a| + FirstHolder(b, store, k).value)
  {
    var r := FirstHolder(a + b, store, k);
    assert forall x :: 0 <= x < |a| ==> (a + b)[x] == a[x];
    if FirstHolder(a, store, k).Some? {
      var i := FirstHolder(a, store, k).value;
      assert (a + b)[i] == a[i];
      assert r.Some?;
    } else if FirstHolder(b, store, k).Some? {
      var i := FirstHolder(b, store, k).value;
      assert (a + b)[|a| + i] == b[i];
      assert r.Some?;
      assert forall x :: |a| <= x < |a + b| ==> (a + b)[x] == b[x - |a|];
    }
  }

  /** A compaction of level 0 keeps the answer for `k` if and only if no level-0 file holds `k`, or the
      first holder in the order of smallest keys shows the same as the newest holder. */
  lemma Level0AnswerExact(files: seq<Meta>, store: Store, maxLevel: int, j: Job, after: Store, files': seq<Meta>,
      k: Str)
    requires JobOk(files, store, maxLevel, j, after) && Swapped(files, Inputs(j), j.outs, files')
    requires j.level == 0 && k != []
    ensures Visible(Version(files', after, k)) == Visible(Version(files, store, k))
       <==> var first := FirstHolder(j.source, store, k);
            first.None? || Visible(Lookup(store[j.source[first.value].path], k)) == Visible(Version(j.source, store, k))
  {
    hide Less, Lookup, IsMerge, WellFormed, Produced, Version;
    var first := FirstHolder(j.source, store, k);
    assert !Shadowed(files, store, j, k) by {
      Level0AllSelected(files, store, maxLevel, j);
    }
    FirstHolderPrefix(j.source, j.target, store, k);
    if first.Some? {
      assert Inputs(j)[first.value] == j.source[first.value];
      WinnerAnswers(files, store, maxLevel, j, after, files', k);
      Level0First(files, store, maxLevel, j, k);
    } else if FirstHolder(Inputs(j), store, k).None? {
      UntouchedKeeps(files, store, maxLevel, j, after, Inputs(j), j.outs, files', k);
    } else {
      WinnerAnswers(files, store, maxLevel, j, after, files', k);
      Level1Top(files, store, maxLevel, j, k);
    }
  }

  lemma Level0AllSelected(files: seq<Meta>, store: Store, maxLevel: int, j: Job)
    requires WellFormed(files, store, maxLevel) && Selection(files, j.level, j.source, j.target) && j.level == 0
    ensures forall f :: f in files && f !in Inputs(j) ==> f.level > j.level
  {
    hide Less;
  }

  /** Without a level-0 holder, the holder among the selected level-1 files was on top. */
  lemma Level1Top(files: seq<Meta>, store: Store, maxLevel: int, j: Job, k: Str)
    requires WellFormed(files, store, maxLevel) && Selection(files, j.level, j.source, j.target) && j.level == 0
    requires FirstHolder(j.source, store, k).None? && FirstHolder(Inputs(j), store, k).Some?
    ensures Version(files, store, k) == Lookup(store[Inputs(j)[FirstHolder(Inputs(j), store, k).value].path], k)
  {
    hide Less, Lookup, WellFormed;
    InputsListed(files, j);
    assert forall x :: 0 <= x < |j.source| ==> Inputs(j)[x] == j.source[x];
    var w := Inputs(j)[FirstHolder(Inputs(j), store, k).value];
    assert w.level == 1;
    forall g | g in files && Holds(store, g, k) ensures g == w || Outranks(w, g) {
      LevelBound(files, store, maxLevel, g);
      assert g !in j.source;
      if g.level == 1 {
        LevelHolderUnique(files, store, maxLevel, w, g, k);
      }
    }
    TopIsBest(files, store, k, w);
  }

  /** Of any two level-0 files sharing a key, the newer has the smaller smallest key. */
  ghost predicate NewerFirst(source: seq<Meta>, store: Store) {
    forall i, l, k :: 0 <= i < l < |source| && Holds(store, source[i], k) && Holds(store, source[l], k) ==>
      source[i].seqno > source[l].seqno
  }

  lemma FirstHolderIsNewest(source: seq<Meta>, store: Store, k: Str)
    requires NewerFirst(source, store) && FirstHolder(source, store, k).Some?
    requires forall f :: f in source ==> f.level == 0
    ensures Version(source, store, k) == Lookup(store[source[FirstHolder(source, store, k).value].path], k)
  {
    hide Lookup, Holds;
    var n := FirstHolder(source, store, k).value;
    forall g | g in source && Holds(store, g, k) ensures g == source[n] || Outranks(source[n], g) {
      var i :| 0 <= i < |source| && source[i] == g;
      assert n <= i;
    }
    TopIsBest(source, store, k, source[n]);
  }

  /** Compacting level 0 keeps every answer when newer files come first. */
  lemma Level0KeepsAnswers(files: seq<Meta>, store: Store, maxLevel: int, j: Job, after: Store, files': seq<Meta>,
      k: Str)
    requires JobOk(files, store, maxLevel, j, after) && Swapped(files, Inputs(j), j.outs, files')
    requires j.level == 0 && k != [] && NewerFirst(j.source, store)
    ensures Visible(Version(files', after, k)) == Visible(Version(files, store, k))
  {
    hide Less, Lookup, IsMerge, WellFormed, Produced, Swapped, Version, NewerFirst;
    Level0AnswerExact(files, store, maxLevel, j, after, files', k);
    if FirstHolder(j.source, store, k).Some? {
      FirstHolderIsNewest(j.source, store, k);
    }
  }

  /** When a compaction keeps the answer for `k`. From level 1 up it always does. From level 0 it does if the first
      holder in the order of smallest keys shows the same as the newest. The empty key is dropped from the inputs. */
  ghost predicate KeepsAnswer(files: seq<Meta>, store: Store, j: Job, k: Str) {
    if k == [] then Visible(Version(RemovedAll(files, Inputs(j)), store, k)) == Visible(Version(files, store, k))
    else j.level >= 1 || SameFirst(j.source, store, k)
  }

  ghost predicate SameFirst(source: seq<Meta>, store: Store, k: Str) {
    var first := FirstHolder(source, store, k);
    first.None? || Visible(Lookup(store[source[first.value].path], k)) == Visible(Version(source, store, k))
  }

  /** A compaction keeps the answer for a key, the empty one included, if and only if `KeepsAnswer` holds before it. */
  lemma AnswerExact(files: seq<Meta>, store: Store, maxLevel: int, j: Job, after: Store, files': seq<Meta>, k: Str)
    requires JobOk(files, store, maxLevel, j, after) && Swapped(files, Inputs(j), j.outs, files')
    ensures Visible(Version(files', after, k)) == Visible(Version(files, store, k)) <==> KeepsAnswer(files, store, j, k)
  {
    hide Less, Lookup, JobOk, Swapped, Version, RemovedAll;
    if k == [] {
      EmptyKeyExact(files, store, maxLevel, j, after, files');
    } else if j.level >= 1 {
      CompactionKeepsAnswers(files, store, maxLevel, j, after, files', k);
    } else {
      SelectionLevel(files, j) by {
        JobSelection(files, store, maxLevel, j, after);
      }
      Level0AnswerExact(files, store, maxLevel, j, after, files', k);
    }
  }

  lemma JobSelection(files: seq<Meta>, store: Store, maxLevel: int, j: Job, after: Store)
    requires JobOk(files, store, maxLevel, j, after)
    ensures Selection(files, j.level, j.source, j.target)
  {
  }

  /** The outputs never hold the empty key: what is left of it is in the files that were not selected. */
  lemma EmptyKeyExact(files: seq<Meta>, store: Store, maxLevel: int, j: Job, after: Store, files': seq<Meta>)
    requires JobOk(files, store, maxLevel, j, after) && Swapped(files, Inputs(j), j.outs, files')
    ensures Version(files', after, []) == Version(RemovedAll(files, Inputs(j)), store, [])
  {
    hide Less, Lookup, IsMerge, WellFormed, RemovedAll;
    var rest := RemovedAll(files, Inputs(j));
    RemovedMembers(files, Inputs(j));
    forall o | o in j.outs ensures !Holds(after, o, []) {
      if Holds(after, o, []) {
        OutputsHoldOnly(j.outs, after, j.level + 1, j.out, o, []);
        NoEmptyKey(files, store, maxLevel, j, after);
      }
    }
    RestListed(files, store, maxLevel, j, after);
    BestNone(rest, store, []);
    BestNone(files', after, []);
    if Best(rest, store, []).Some? {
      var t := Best(rest, store, []).value;
      forall g | g in rest && g != t && Holds(store, g, []) ensures Outranks(t, g) {
        BestNotOutranked(rest, store, [], g);
        HoldersRanked(files, store, maxLevel, t, g, []);
      }
      assert Top(rest, store, [], t);
      TopIsBest(rest, store, [], t);
      assert Top(files', after, [], t);
      TopIsBest(files', after, [], t);
    }
  }

  lemma NoEmptyKey(files: seq<Meta>, store: Store, maxLevel: int, j: Job, after: Store)
    requires JobOk(files, store, maxLevel, j, after)
    ensures Lookup(j.out, []).None?
  {
    hide Less, Lookup, WellFormed, Produced, Selection;
  }

  /** The files left are those that were not selected. */
  lemma RestListed(files: seq<Meta>, store: Store, maxLevel: int, j: Job, after: Store)
    requires JobOk(files, store, maxLevel, j, after)
    ensures forall f :: f in RemovedAll(files, Inputs(j)) <==> f in files && f !in Inputs(j)
  {
    JobPaths(files, store, maxLevel, j, after);
    InputsListed(files, j);
    RemovedMembers(files, Inputs(j));
    hide JobOk, RemovedAll, Inputs;
    forall f, m | f in files && m in Inputs(j) && f != m ensures m.path != f.path {
      var x :| 0 <= x < |files| && files[x] == f;
      var y :| 0 <= y < |files| && files[y] == m;
    }
  }

  /** Of two holders of a key, one outranks the other. */
  lemma HoldersRanked(files: seq<Meta>, store: Store, maxLevel: int, f: Meta, g: Meta, k: Str)
    requires WellFormed(files, store, maxLevel) && f in files && g in files && f != g
    requires Holds(store, f, k) && Holds(store, g, k)
    ensures Outranks(f, g) || Outranks(g, f)
  {
    hide Less, Lookup, Describes, Apart;
    assert Placed(f, store, maxLevel) && Placed(g, store, maxLevel) && Compatible(f, g);
    if f.level == g.level && f.level >= 1 {
      LevelHolderUnique(files, store, maxLevel, f, g, k);
    }
  }

  lemma NewerFirstKeeps(files: seq<Meta>, store: Store, j: Job, k: Str)
    requires NewerFirst(j.source, store) && k != [] && (j.level == 0 ==> forall f :: f in j.source ==> f.level == 0)
    requires j.level >= 0
    ensures KeepsAnswer(files, store, j, k)
  {
    hide NewerFirst, Version, Lookup;
    if j.level == 0 && FirstHolder(j.source, store, k).Some? {
      FirstHolderIsNewest(j.source, store, k);
    }
  }

  /** Of any two level-0 files sharing a key, the newer has the smaller smallest key: then every order by smallest key
      puts newer files first. */
  ghost predicate Level0Ordered(files: seq<Meta>, store: Store) {
    forall f, g, k :: f in files && g in files && Holds(store, f, k) && Holds(store, g, k) ==>
      f.level == g.level == 0 && f.seqno < g.seqno ==> Less(g.smallest, f.smallest)
  }

  // ---- every step of the swap ----

  /** Some catalogue between the additions and removals of a job: outputs are all added before any
      input is removed. */
  ghost predicate SwapStep(files: seq<Meta>, j: Job, removed: seq<Meta>, added: seq<Meta>, files': seq<Meta>) {
    && Swapped(files, removed, added, files') && Subset(removed, Inputs(j)) && Subset(added, j.outs)
    && (removed != [] ==> Subset(j.outs, added))
  }

  /** New outputs carry higher sequence numbers than the files already at their level. */
  ghost predicate OutputsNewer(files: seq<Meta>, j: Job) {
    forall f, o :: f in files && f.level == j.level + 1 && o in j.outs ==> o.seqno > f.seqno
  }

  /** The source's tombstone for `k` is gone, and an older live version in a selected target file is not. */
  ghost predicate Resurrects(files: seq<Meta>, store: Store, j: Job, removed: seq<Meta>, k: Str) {
    && j.bottom && !Shadowed(files, store, j, k)
    && (exists f :: f in j.source && f in removed && Holds(store, f, k) && Lookup(store[f.path], k).value.tombstone)
    && (exists g :: g in j.target && g !in removed && Holds(store, g, k) && !Lookup(store[g.path], k).value.tombstone)
  }

  /** When the outputs hold the winner's version, it answers at every step. */
  lemma StepWithOutput(files: seq<Meta>, store: Store, maxLevel: int, j: Job, after: Store, removed: seq<Meta>,
      added: seq<Meta>, files': seq<Meta>, k: Str, w: Meta)
    requires JobOk(files, store, maxLevel, j, after) && SwapStep(files, j, removed, added, files')
        && OutputsNewer(files, j)
    requires j.level >= 1 && !Shadowed(files, store, j, k) && Top(files, store, k, w) && w in Inputs(j)
    requires Lookup(j.out, k) == Lookup(store[w.path], k)
    ensures Version(files', after, k) == Version(files, store, k)
  {
    hide Less, Lookup, IsMerge, WellFormed, Produced;
    var o := OutputHolder(j.outs, after, j.level + 1, j.out, k);
    OutputLevel(j.outs, after, j.level + 1, j.out, o);
    TopIsBest(files, store, k, w);
    if o !in added || (w !in removed && w.level <= j.level) {
      TopStays(files, store, maxLevel, j, after, removed, added, files', k, w);
    } else {
      forall g | g in files' && Holds(after, g, k) ensures g == o || Outranks(o, g) {
        if g !in added {
          assert Holds(store, g, k);
          if g.level <= j.level {
            assert g == w || Outranks(w, g);
            LowHolderIsTop(files, store, maxLevel, j, k, w, g);
          }
        }
      }
      TopIsBest(files', after, k, o);
    }
  }

  lemma LowHolderIsTop(files: seq<Meta>, store: Store, maxLevel: int, j: Job, k: Str, w: Meta, g: Meta)
    requires WellFormed(files, store, maxLevel) && Selection(files, j.level, j.source, j.target)
    requires j.level >= 1 && Top(files, store, k, w) && w in Inputs(j)
    requires g in files && g.level <= j.level && Holds(store, g, k)
    ensures g == w
  {
    hide Less, Lookup;
    if g != w {
      LevelHolderUnique(files, store, maxLevel, w, g, k);
    }
  }

  /** When the winner is a tombstone dropped at the bottom level, a step shows what is left of the targets. */
  lemma StepWithoutOutput(files: seq<Meta>, store: Store, maxLevel: int, j: Job, after: Store, removed: seq<Meta>,
      added: seq<Meta>, files': seq<Meta>, k: Str, w: Meta)
    requires JobOk(files, store, maxLevel, j, after) && SwapStep(files, j, removed, added, files')
    requires j.level >= 1 && !Shadowed(files, store, j, k) && Top(files, store, k, w) && w in Inputs(j)
    requires j.bottom && Lookup(store[w.path], k).value.tombstone && Lookup(j.out, k).None?
    ensures Visible(Version(files', after, k)) == Visible(Version(files, store, k))
        <==> !Resurrects(files, store, j, removed, k)
  {
    hide Less, Lookup, IsMerge, WellFormed, Produced, Version;
    VersionOfTop(files, store, k, w);
    forall o | o in added ensures !Holds(after, o, k) {
      if Holds(after, o, k) {
        OutputsHoldOnly(j.outs, after, j.level + 1, j.out, o, k);
      }
    }
    if w !in removed {
      TopStays(files, store, maxLevel, j, after, removed, added, files', k, w);
      if Resurrects(files, store, j, removed, k) {
        var f :| f in j.source && f in removed && Holds(store, f, k);
        LowHolderIsTop(files, store, maxLevel, j, k, w, f);
      }
    } else {
      WithoutWinner(files, store, maxLevel, j, after, removed, added, files', k, w);
    }
  }

  lemma VersionOfTop(files: seq<Meta>, store: Store, k: Str, w: Meta)
    requires Top(files, store, k, w)
    ensures Version(files, store, k) == Lookup(store[w.path], k) && Lookup(store[w.path], k).Some?
  {
    TopIsBest(files, store, k, w);
  }

  lemma WithoutWinner(files: seq<Meta>, store: Store, maxLevel: int, j: Job, after: Store, removed: seq<Meta>,
      added: seq<Meta>, files': seq<Meta>, k: Str, w: Meta)
    requires JobOk(files, store, maxLevel, j, after) && SwapStep(files, j, removed, added, files')
    requires j.level >= 1 && !Shadowed(files, store, j, k) && Top(files, store, k, w) && w in Inputs(j) && w in removed
    requires j.bottom && Lookup(store[w.path], k).value.tombstone
    requires forall o :: o in added ==> !Holds(after, o, k)
    ensures Visible(Version(files', after, k)).None? <==> !Resurrects(files, store, j, removed, k)
  {
    hide Less, Lookup, IsMerge, WellFormed, Produced, Version;
    forall g | g in files' && Holds(after, g, k)
      ensures g in files && g in j.target && g !in removed && Holds(store, g, k)
    {
      assert g in files && Holds(store, g, k);
      LevelBound(files, store, maxLevel, g);
      if g.level <= j.level {
        LowHolderIsTop(files, store, maxLevel, j, k, w, g);
      } else {
        TargetHolderSelected(files, store, maxLevel, j.level, j.source, j.target, w, g, k);
      }
    }
    BestNone(files', after, k);
    if Best(files', after, k).None? {
      NoVersion(files', after, k);
    } else {
      var g := Best(files', after, k).value;
      forall x | x in files' && Holds(after, x, k) ensures x == g {
        LevelHolderUnique(files, store, maxLevel, x, g, k);
      }
      VersionOfTop(files', after, k, g);
      InputsListed(files, j);
      if w !in j.source {
        assert w in j.target;
        LevelHolderUnique(files, store, maxLevel, w, g, k);
      }
      forall x | x in j.target && x !in removed && Holds(store, x, k) ensures x == g {
        LevelHolderUnique(files, store, maxLevel, x, g, k);
      }
    }
  }

  lemma NoVersion(files: seq<Meta>, store: Store, k: Str)
    requires Best(files, store, k).None?
    ensures Version(files, store, k).None?
  {
  }

  /** For a source level from 1 up, a step of the swap keeps the answer for `k` if and only if it does not
      resurrect `k`. Into any level but the bottom, every step keeps every answer. */
  lemma SwapStepExact(files: seq<Meta>, store: Store, maxLevel: int, j: Job, after: Store, removed: seq<Meta>,
      added: seq<Meta>, files': seq<Meta>, k: Str)
    requires JobOk(files, store, maxLevel, j, after) && SwapStep(files, j, removed, added, files')
        && OutputsNewer(files, j)
    requires j.level >= 1 && k != []
    ensures Visible(Version(files', after, k)) == Visible(Version(files, store, k))
        <==> !Resurrects(files, store, j, removed, k)
    ensures !j.bottom ==> Version(files', after, k) == Version(files, store, k)
  {
    hide Less, Lookup, IsMerge, WellFormed, Produced, Version, Swapped, OutputsNewer;
    if Shadowed(files, store, j, k) {
      ShadowedKeeps(files, store, maxLevel, j, after, removed, added, files', k);
    } else if FirstHolder(Inputs(j), store, k).None? {
      UntouchedKeeps(files, store, maxLevel, j, after, removed, added, files', k);
      NotAmongInputs(j, store, k);
    } else {
      WinnerIsFirst(files, store, maxLevel, j, after, k);
      WinnerWasTop(files, store, maxLevel, j, after, k);
      var w := Inputs(j)[FirstHolder(Inputs(j), store, k).value];
      if Lookup(store[w.path], k).value.tombstone && j.bottom {
        StepWithoutOutput(files, store, maxLevel, j, after, removed, added, files', k, w);
      } else {
        StepWithOutput(files, store, maxLevel, j, after, removed, added, files', k, w);
        LiveWinner(files, store, maxLevel, j, after, removed, k, w);
      }
    }
  }

  lemma NotAmongInputs(j: Job, store: Store, k: Str)
    requires FirstHolder(Inputs(j), store, k).None?
    ensures forall f :: f in j.source || f in j.target ==> !Holds(store, f, k)
  {
    hide Holds;
    forall f | f in j.source || f in j.target ensures !Holds(store, f, k) {
      assert f in Inputs(j);
    }
  }

  lemma LiveWinner(files: seq<Meta>, store: Store, maxLevel: int, j: Job, after: Store, removed: seq<Meta>, k: Str,
      w: Meta)
    requires JobOk(files, store, maxLevel, j, after) && j.level >= 1 && Top(files, store, k, w) && w in Inputs(j)
    requires !(Lookup(store[w.path], k).value.tombstone && j.bottom)
    ensures !Resurrects(files, store, j, removed, k)
  {
    hide Less, Lookup, IsMerge, WellFormed, Produced;
    if Resurrects(files, store, j, removed, k) {
      var f :| f in j.source && f in removed && Holds(store, f, k) && Lookup(store[f.path], k).value.tombstone;
      LowHolderIsTop(files, store, maxLevel, j, k, w, f);
    }
  }

  // ---- every step of a level-0 swap ----

  /** The files of `fs` that are not yet removed. */
  ghost function Left(fs: seq<Meta>, removed: seq<Meta>): seq<Meta> {
    if fs == [] then [] else (if fs[0] in removed then [] else [fs[0]]) + Left(fs[1..], removed)
  }

  lemma {:induction false} LeftMembers(fs: seq<Meta>, removed: seq<Meta>)
    ensures forall x :: x in Left(fs, removed) <==> x in fs && x !in removed
  {
    if fs != [] {
      LeftMembers(fs[1..], removed);
      assert fs == [fs[0]] + fs[1..];
    }
  }

  /** What a step of a level-0 swap shows for `k`: the newest level-0 file still listed; then, if level 0 held the key,
      the version the merge kept, or what is left of the targets if it dropped a tombstone. */
  ghost function Level0Shows(files: seq<Meta>, store: Store, j: Job, removed: seq<Meta>, k: Str): Option<seq<Byte>> {
    var first := FirstHolder(j.source, store, k);
    if Best(Left(j.source, removed), store, k).Some? then Visible(Version(Left(j.source, removed), store, k))
    else if first.None? then Visible(Version(files, store, k))
    else
      var e := Lookup(store[j.source[first.value].path], k);
      if e.value.tombstone && j.bottom then Visible(Version(Left(j.target, removed), store, k)) else Visible(e)
  }

  /** So a step keeps the answer if and only if that is the answer. */
  lemma Level0StepExact(files: seq<Meta>, store: Store, maxLevel: int, j: Job, after: Store, removed: seq<Meta>,
      added: seq<Meta>, files': seq<Meta>, k: Str)
    requires JobOk(files, store, maxLevel, j, after) && SwapStep(files, j, removed, added, files')
        && OutputsNewer(files, j)
    requires j.level == 0 && k != []
    ensures Visible(Version(files', after, k)) == Level0Shows(files, store, j, removed, k)
  {
    hide Less, Lookup, IsMerge, WellFormed, Produced, Version, OutputsNewer;
    var first := FirstHolder(j.source, store, k);
    FirstHolderPrefix(j.source, j.target, store, k);
    LeftMembers(j.source, removed);
    BestNone(Left(j.source, removed), store, k);
    if Best(Left(j.source, removed), store, k).Some? {
      Level0Left(files, store, maxLevel, j, after, removed, added, files', k);
    } else if FirstHolder(Inputs(j), store, k).None? {
      UntouchedKeeps(files, store, maxLevel, j, after, removed, added, files', k);
    } else {
      Level0Gone(files, store, maxLevel, j, after, removed, added, files', k);
      var w := Inputs(j)[FirstHolder(Inputs(j), store, k).value];
      if first.None? {
        Level1Top(files, store, maxLevel, j, k);
        if j.bottom && Lookup(store[w.path], k).value.tombstone {
          OneTarget(files, store, maxLevel, j, removed, k, w);
        }
      }
    }
  }

  /** As long as a level-0 holder is listed, the newest of them answers. */
  lemma Level0Left(files: seq<Meta>, store: Store, maxLevel: int, j: Job, after: Store, removed: seq<Meta>,
      added: seq<Meta>, files': seq<Meta>, k: Str)
    requires JobOk(files, store, maxLevel, j, after) && SwapStep(files, j, removed, added, files') && j.level == 0
    requires Best(Left(j.source, removed), store, k).Some?
    ensures Version(files', after, k) == Version(Left(j.source, removed), store, k)
  {
    hide Less, Lookup, IsMerge, WellFormed;
    var left := Left(j.source, removed);
    LeftMembers(j.source, removed);
    Level0AllSelected(files, store, maxLevel, j);
    InputsListed(files, j);
    var t := Best(left, store, k).value;
    assert t in files && t.level == 0;
    forall g | g in files' && g != t && Holds(after, g, k) ensures Outranks(t, g) {
      if g in added {
        OutputLevel(j.outs, after, j.level + 1, j.out, g);
      } else {
        LevelBound(files, store, maxLevel, g);
        if g.level == 0 {
          assert g in left;
          BestNotOutranked(left, store, k, g);
          HoldersRanked(files, store, maxLevel, t, g, k);
        }
      }
    }
    forall g | g in left && g != t && Holds(store, g, k) ensures Outranks(t, g) {
      BestNotOutranked(left, store, k, g);
      HoldersRanked(files, store, maxLevel, t, g, k);
    }
    assert Top(files', after, k, t) && Top(left, store, k, t);
    TopIsBest(files', after, k, t);
    TopIsBest(left, store, k, t);
  }

  /** Once none is listed, the merged version answers. */
  lemma Level0Gone(files: seq<Meta>, store: Store, maxLevel: int, j: Job, after: Store, removed: seq<Meta>,
      added: seq<Meta>, files': seq<Meta>, k: Str)
    requires JobOk(files, store, maxLevel, j, after) && SwapStep(files, j, removed, added, files')
        && OutputsNewer(files, j)
    requires j.level == 0 && k != [] && Best(Left(j.source, removed), store, k).None?
    requires FirstHolder(Inputs(j), store, k).Some?
    ensures var e := Lookup(store[Inputs(j)[FirstHolder(Inputs(j), store, k).value].path], k);
      Version(files', after, k) ==
        if e.value.tombstone && j.bottom then Version(Left(j.target, removed), store, k) else e
  {
    hide Less, Lookup, JobOk, Version, OutputsNewer, SwapStep;
    WinnerIsFirst(files, store, maxLevel, j, after, k);
    if Lookup(j.out, k).None? {
      TargetsLeft(files, store, maxLevel, j, after, removed, added, files', k);
    } else if removed == [] && FirstHolder(j.source, store, k).None? {
      TargetStays(files, store, maxLevel, j, after, removed, added, files', k);
    } else {
      OutputTakesOver(files, store, maxLevel, j, after, removed, added, files', k);
    }
  }

  /** The output that holds the merged version is on top once it is listed. */
  lemma OutputTakesOver(files: seq<Meta>, store: Store, maxLevel: int, j: Job, after: Store, removed: seq<Meta>,
      added: seq<Meta>, files': seq<Meta>, k: Str)
    requires JobOk(files, store, maxLevel, j, after) && SwapStep(files, j, removed, added, files')
        && OutputsNewer(files, j)
    requires j.level == 0 && Best(Left(j.source, removed), store, k).None? && FirstHolder(Inputs(j), store, k).Some?
    requires Lookup(j.out, k).Some? && (removed != [] || FirstHolder(j.source, store, k).Some?)
    ensures Version(files', after, k) == Lookup(j.out, k)
  {
    hide Less, Lookup, IsMerge, WellFormed, Produced, Selection, Left;
    Level0Holders(files, store, maxLevel, j, after, removed, added, files', k);
    SomeRemoved(j, store, removed, k);
    var o := OutputHolder(j.outs, after, j.level + 1, j.out, k);
    OutputLevel(j.outs, after, j.level + 1, j.out, o);
    forall g | g in files' && g != o && Holds(after, g, k) ensures Outranks(o, g) {
      assert g !in added;
    }
    TopIsBest(files', after, k, o);
  }

  /** Level 0 held the key and lists no holder any more: some input is removed. */
  lemma SomeRemoved(j: Job, store: Store, removed: seq<Meta>, k: Str)
    requires Best(Left(j.source, removed), store, k).None? && (removed != [] || FirstHolder(j.source, store, k).Some?)
    ensures removed != []
  {
    hide Holds;
    LeftMembers(j.source, removed);
    BestNone(Left(j.source, removed), store, k);
    if FirstHolder(j.source, store, k).Some? {
      assert j.source[FirstHolder(j.source, store, k).value] in j.source;
    }
  }

  /** Before any removal a key that level 0 does not hold has its old version, listed under the output. */
  lemma TargetStays(files: seq<Meta>, store: Store, maxLevel: int, j: Job, after: Store, removed: seq<Meta>,
      added: seq<Meta>, files': seq<Meta>, k: Str)
    requires JobOk(files, store, maxLevel, j, after) && SwapStep(files, j, removed, added, files')
        && OutputsNewer(files, j)
    requires j.level == 0 && removed == [] && FirstHolder(j.source, store, k).None? && k != []
    requires FirstHolder(Inputs(j), store, k).Some? && Lookup(j.out, k).Some?
    ensures Version(files', after, k) == Lookup(j.out, k)
  {
    hide Less, Lookup, IsMerge, WellFormed, Produced, Selection;
    LeftMembers(j.source, removed);
    BestNone(Left(j.source, removed), store, k);
    Level0Holders(files, store, maxLevel, j, after, removed, added, files', k);
    WinnerIsFirst(files, store, maxLevel, j, after, k);
    var w := Inputs(j)[FirstHolder(Inputs(j), store, k).value];
    var o := OutputHolder(j.outs, after, j.level + 1, j.out, k);
    OutputLevel(j.outs, after, j.level + 1, j.out, o);
    if o in added {
      forall g | g in files' && g != o && Holds(after, g, k) ensures Outranks(o, g) {
        assert g !in added;
      }
      TopIsBest(files', after, k, o);
    } else {
      forall g | g in files' && g != w && Holds(after, g, k) ensures Outranks(w, g) {
        if g.level == 1 {
          LevelHolderUnique(files, store, maxLevel, w, g, k);
        }
      }
      TopIsBest(files', after, k, w);
    }
  }

  /** Then every listed holder is an added output or below level 0, and at level 1 a selected file not yet removed. */
  lemma Level0Holders(files: seq<Meta>, store: Store, maxLevel: int, j: Job, after: Store, removed: seq<Meta>,
      added: seq<Meta>, files': seq<Meta>, k: Str)
    requires JobOk(files, store, maxLevel, j, after) && SwapStep(files, j, removed, added, files')
    requires j.level == 0 && Best(Left(j.source, removed), store, k).None? && FirstHolder(Inputs(j), store, k).Some?
    ensures forall g :: g in files' && Holds(after, g, k) && g !in added ==>
      g in files && Holds(store, g, k) && g.level >= 1 && (g.level == 1 ==> g in j.target && g !in removed)
    ensures var w := Inputs(j)[FirstHolder(Inputs(j), store, k).value];
      w in files && (removed == [] ==> w in j.target && w.level == 1 && w in files')
  {
    hide Less, Lookup, IsMerge, WellFormed, Produced;
    LeftMembers(j.source, removed);
    BestNone(Left(j.source, removed), store, k);
    Level0AllSelected(files, store, maxLevel, j);
    InputsListed(files, j);
    var w := Inputs(j)[FirstHolder(Inputs(j), store, k).value];
    forall g | g in files' && Holds(after, g, k) && g !in added
      ensures g in files && Holds(store, g, k) && g.level >= 1 && (g.level == 1 ==> g in j.target && g !in removed)
    {
      LevelBound(files, store, maxLevel, g);
      if g.level == 1 {
        TargetHolderSelected(files, store, maxLevel, j.level, j.source, j.target, w, g, k);
      }
    }
  }

  /** If the merge dropped the key, what is left of the targets answers. */
  lemma TargetsLeft(files: seq<Meta>, store: Store, maxLevel: int, j: Job, after: Store, removed: seq<Meta>,
      added: seq<Meta>, files': seq<Meta>, k: Str)
    requires JobOk(files, store, maxLevel, j, after) && SwapStep(files, j, removed, added, files')
    requires j.level == 0 && j.bottom && Best(Left(j.source, removed), store, k).None?
    requires FirstHolder(Inputs(j), store, k).Some? && Lookup(j.out, k).None?
    ensures Version(files', after, k) == Version(Left(j.target, removed), store, k)
  {
    hide Less, Lookup, JobOk, SwapStep, Holds, Left;
    var left := Left(j.target, removed);
    BestNone(files', after, k);
    BestNone(left, store, k);
    forall g | g in left ensures g in files && g in files' && g.level == 1
        && (Holds(store, g, k) <==> Holds(after, g, k)) {
      TargetStillListed(files, store, maxLevel, j, after, removed, added, files', k, g);
    }
    if Best(files', after, k).Some? {
      var t := Best(files', after, k).value;
      HolderIsTarget(files, store, maxLevel, j, after, removed, added, files', k, t);
      TargetStillListed(files, store, maxLevel, j, after, removed, added, files', k, t);
      forall g | g in left && Holds(store, g, k) ensures g == t {
        SameTarget(files, store, maxLevel, j, after, k, t, g);
      }
      TopIsBest(left, store, k, t);
    }
  }

  lemma SameTarget(files: seq<Meta>, store: Store, maxLevel: int, j: Job, after: Store, k: Str, t: Meta, g: Meta)
    requires JobOk(files, store, maxLevel, j, after) && t in files && g in files && t.level == g.level == 1
    requires Holds(store, t, k) && Holds(store, g, k)
    ensures t == g
  {
    hide Less, Lookup, IsMerge, WellFormed, Produced, Selection;
    LevelHolderUnique(files, store, maxLevel, t, g, k);
  }

  lemma TargetStillListed(files: seq<Meta>, store: Store, maxLevel: int, j: Job, after: Store, removed: seq<Meta>,
      added: seq<Meta>, files': seq<Meta>, k: Str, g: Meta)
    requires JobOk(files, store, maxLevel, j, after) && SwapStep(files, j, removed, added, files') && j.level == 0
    requires g in Left(j.target, removed)
    ensures g in files && g in files' && g.level == 1 && (Holds(store, g, k) <==> Holds(after, g, k))
    ensures g.path in store && g.path in after && store[g.path] == after[g.path]
  {
    hide Less, Lookup, IsMerge, WellFormed, Produced, Selection, Swapped, Left;
    LeftMembers(j.target, removed);
    TargetsListed(files, j);
    StillListed(files, store, maxLevel, j, after, removed, added, files', k, g);
  }

  lemma HolderIsTarget(files: seq<Meta>, store: Store, maxLevel: int, j: Job, after: Store, removed: seq<Meta>,
      added: seq<Meta>, files': seq<Meta>, k: Str, g: Meta)
    requires JobOk(files, store, maxLevel, j, after) && SwapStep(files, j, removed, added, files')
    requires j.level == 0 && j.bottom && Best(Left(j.source, removed), store, k).None?
    requires FirstHolder(Inputs(j), store, k).Some? && Lookup(j.out, k).None? && g in files' && Holds(after, g, k)
    ensures g in Left(j.target, removed) && Holds(store, g, k)
  {
    hide Less, Lookup, IsMerge, WellFormed, Produced, Selection, Left;
    Level0Holders(files, store, maxLevel, j, after, removed, added, files', k);
    LeftMembers(j.target, removed);
    if g in added {
      OutputsHoldOnly(j.outs, after, j.level + 1, j.out, g, k);
    } else {
      LevelBound(files, store, maxLevel, g);
    }
  }

  lemma StillListed(files: seq<Meta>, store: Store, maxLevel: int, j: Job, after: Store, removed: seq<Meta>,
      added: seq<Meta>, files': seq<Meta>, k: Str, g: Meta)
    requires JobOk(files, store, maxLevel, j, after) && Swapped(files, removed, added, files')
    requires g in files && g !in removed
    ensures g in files' && (Holds(store, g, k) <==> Holds(after, g, k))
    ensures g.path in store && g.path in after && store[g.path] == after[g.path]
  {
    hide Lookup, IsMerge, WellFormed, Produced, Selection;
  }

  lemma TargetsListed(files: seq<Meta>, j: Job)
    requires Selection(files, j.level, j.source, j.target)
    ensures forall f :: f in j.target ==> f in files && f.level == j.level + 1
  {
  }

  /** A lone target version that the merge dropped shows nothing, listed or not. */
  lemma OneTarget(files: seq<Meta>, store: Store, maxLevel: int, j: Job, removed: seq<Meta>, k: Str, w: Meta)
    requires WellFormed(files, store, maxLevel) && Selection(files, j.level, j.source, j.target) && j.level == 0
    requires w in j.target && Holds(store, w, k) && Lookup(store[w.path], k).value.tombstone
    ensures Visible(Version(Left(j.target, removed), store, k)).None?
  {
    hide Less, Lookup, WellFormed;
    var left := Left(j.target, removed);
    LeftMembers(j.target, removed);
    BestNone(left, store, k);
    if Best(left, store, k).Some? {
      var t := Best(left, store, k).value;
      LevelHolderUnique(files, store, maxLevel, w, t, k);
    }
  }

  // ---- levels stay sorted ----

  /** Every key of an output lies in the range of some input. */
  lemma OutputKeyInInput(files: seq<Meta>, store: Store, maxLevel: int, j: Job, after: Store, o: Meta, k: Str)
      returns (f: Meta)
    requires JobOk(files, store, maxLevel, j, after) && o in j.outs && Holds(after, o, k)
    ensures f in Inputs(j) && AtMost(f.smallest, k) && AtMost(k, f.largest)
  {
    hide Less, Lookup, Produced, Selection;
    OutputsHoldOnly(j.outs, after, j.level + 1, j.out, o, k);
    assert Lookup(j.out, k) == Kept(TablesOf(Inputs(j), store), Renumbered(|j.source|, |j.target|), j.bottom, k);
    WinnerIsFirst(files, store, maxLevel, j, after, k);
    f := Inputs(j)[FirstHolder(Inputs(j), store, k).value];
    InputsListed(files, j);
    HeldInRange(store, f, k);
  }

  /** An output and a file left at its level do not overlap. */
  lemma OutputApartFromRest(files: seq<Meta>, store: Store, maxLevel: int, j: Job, after: Store, o: Meta, g: Meta)
    requires JobOk(files, store, maxLevel, j, after) && o in j.outs
    requires g in files && g.level == j.level + 1 && g !in j.target
    ensures Apart(o, g)
  {
    hide Less, Lookup, IsMerge, WellFormed, Selection;
    UnselectedApart(files, store, maxLevel, j.level, j.source, j.target, g);
    RangeIsExact(after, o);
    var x := OutputKeyInInput(files, store, maxLevel, j, after, o, o.smallest);
    var y := OutputKeyInInput(files, store, maxLevel, j, after, o, o.largest);
    OrderFacts();
  }

  lemma StillCompatible(files: seq<Meta>, store: Store, maxLevel: int, j: Job, after: Store, f: Meta, g: Meta)
    requires JobOk(files, store, maxLevel, j, after) && f != g
    requires (f in files && f !in Inputs(j)) || f in j.outs
    requires (g in files && g !in Inputs(j)) || g in j.outs
    ensures Compatible(f, g)
  {
    hide Less, Lookup, IsMerge, Selection, Produced;
    OutputLevels(j.outs, after, j.level + 1, j.out);
    assert j.level >= 0 by {
      SelectionLevel(files, j);
    }
    if f.level == g.level {
      if f in j.outs && g in j.outs {
        var x :| 0 <= x < |j.outs| && j.outs[x] == f;
        var y :| 0 <= y < |j.outs| && j.outs[y] == g;
        OutputsApart(j.outs, after, j.level + 1, j.out, if x < y then x else y, if x < y then y else x);
      } else if f in j.outs {
        OutputApartFromRest(files, store, maxLevel, j, after, f, g);
      } else if g in j.outs {
        OutputApartFromRest(files, store, maxLevel, j, after, g, f);
      }
    }
  }

  lemma SelectionLevel(files: seq<Meta>, j: Job)
    requires Selection(files, j.level, j.source, j.target)
    ensures j.level >= 0
  {
  }

  lemma OutputLevels(outs: seq<Meta>, store: Store, level: int, out: seq<Entry>)
    requires Produced(outs, store, level, out)
    ensures forall o :: o in outs ==> o.level == level && o.path in store && Describes(o, store[o.path])
  {
  }

  /** A compaction leaves every level from 1 up pairwise disjoint with exact ranges. */
  lemma CompactionKeepsLevels(files: seq<Meta>, store: Store, maxLevel: int, j: Job, after: Store, files': seq<Meta>)
    requires JobOk(files, store, maxLevel, j, after) && Swapped(files, Inputs(j), j.outs, files')
        && DistinctPaths(files')
    ensures WellFormed(files', after, maxLevel)
  {
    forall f | f in files' ensures Placed(f, after, maxLevel) {
      hide Less, IsMerge, Compatible;
      SelectionLevel(files, j);
      OutputLevels(j.outs, after, j.level + 1, j.out);
      assert f in files ==> Placed(f, store, maxLevel);
    }
    forall f, g | f in files' && g in files' && f != g ensures Compatible(f, g) {
      hide Compatible, JobOk;
      StillCompatible(files, store, maxLevel, j, after, f, g);
    }
  }

  // ---- the steps a run takes ----

  /** The catalogue after `i` of a run's AddFile and RemoveFile calls. */
  ghost function StepAt(files: seq<Meta>, j: Job, i: nat): seq<Meta>
    requires i <= |j.outs| + |Inputs(j)|
  {
    if i <= |j.outs| then files + j.outs[..i] else RemovedAll(files + j.outs, Inputs(j)[..i - |j.outs|])
  }

  lemma RemovedIsSwapped(files: seq<Meta>, outs: seq<Meta>, removed: seq<Meta>)
    requires DistinctPaths(files) && Subset(removed, files)
    requires forall f, o :: f in files && o in outs ==> f.path != o.path
    ensures Swapped(files, removed, outs, RemovedAll(files + outs, removed))
  {
    hide RemovedAll;
    RemovedMembers(files + outs, removed);
    forall f | f in files && f !in removed ensures forall m :: m in removed ==> m.path != f.path {
      forall m | m in removed ensures m.path != f.path {
        if m.path == f.path {
          SamePathSameFile(files, f, m);
        }
      }
    }
  }

  lemma JobPaths(files: seq<Meta>, store: Store, maxLevel: int, j: Job, after: Store)
    requires JobOk(files, store, maxLevel, j, after)
    ensures DistinctPaths(files) && DistinctPaths(Inputs(j)) && Subset(Inputs(j), files) && j.source != []
    ensures forall f, o :: f in files && o in j.outs ==> f.path != o.path
    ensures forall f :: f in files ==> f.path in store && f.path in after && after[f.path] == store[f.path]
    ensures (forall f :: f in j.source ==> f in files && f.level == j.level) && forall f ::
      f in j.target ==> f in files && f.level == j.level + 1
    ensures (forall o :: o in j.outs ==> o.level == j.level + 1 && o.path in after) && j.level + 1 < maxLevel
    ensures Flatten(TablesOf(j.outs, after)) == j.out
  {
    hide Less, IsMerge, Lookup;
  }

  lemma StepIsSwap(files: seq<Meta>, store: Store, maxLevel: int, j: Job, after: Store, i: nat)
    requires JobOk(files, store, maxLevel, j, after) && i <= |j.outs| + |Inputs(j)|
    ensures SwapStep(files, j, if i <= |j.outs| then [] else Inputs(j)[..i - |j.outs|],
                     if i <= |j.outs| then j.outs[..i] else j.outs, StepAt(files, j, i))
  {
    hide JobOk, RemovedAll;
    JobPaths(files, store, maxLevel, j, after);
    if i > |j.outs| {
      var removed := Inputs(j)[..i - |j.outs|];
      assert Subset(removed, Inputs(j));
      RemovedIsSwapped(files, j.outs, removed);
    }
  }

  lemma SamePathSameFile(files: seq<Meta>, f: Meta, g: Meta)
    requires DistinctPaths(files) && f in files && g in files && f.path == g.path
    ensures f == g
  {
    var x :| 0 <= x < |files| && files[x] == f;
    var y :| 0 <= y < |files| && files[y] == g;
  }

  /** Readers see the same answers at every step of a compaction from level 1 up into any level but the bottom. */
  lemma EveryStepAnswers(files: seq<Meta>, store: Store, maxLevel: int, j: Job, after: Store, i: nat, k: Str)
    requires JobOk(files, store, maxLevel, j, after) && OutputsNewer(files, j) && i <= |j.outs| + |Inputs(j)|
    requires j.level >= 1 && !j.bottom && k != []
    ensures Version(StepAt(files, j, i), after, k) == Version(files, store, k)
  {
    StepIsSwap(files, store, maxLevel, j, after, i);
    SwapStepExact(files, store, maxLevel, j, after, if i <= |j.outs| then [] else Inputs(j)[..i - |j.outs|],
                  if i <= |j.outs| then j.outs[..i] else j.outs, StepAt(files, j, i), k);
  }

  /** The last step has swapped everything. */
  lemma LastStep(files: seq<Meta>, store: Store, maxLevel: int, j: Job, after: Store)
    requires JobOk(files, store, maxLevel, j, after)
    ensures StepAt(files, j, |j.outs| + |Inputs(j)|) == RemovedAll(files + j.outs, Inputs(j))
    ensures Swapped(files, Inputs(j), j.outs, RemovedAll(files + j.outs, Inputs(j)))
  {
    hide JobOk, RemovedAll;
    JobPaths(files, store, maxLevel, j, after);
    StepIsSwap(files, store, maxLevel, j, after, |j.outs| + |Inputs(j)|);
    assert Inputs(j)[..|Inputs(j)|] == Inputs(j);
  }

  /** An output that reuses the path of an input is removed with it. */
  lemma ReusedPathIsLost(files: seq<Meta>, j: Job, o: Meta)
    requires o in j.outs
    ensures o in RemovedAll(files + j.outs, Inputs(j)) <==> forall f :: f in Inputs(j) ==> f.path != o.path
  {
    RemovedMembers(files + j.outs, Inputs(j));
  }

  // ---- progress ----

  /** A file weighs its entries times the number of levels they can still sink, plus one. */
  ghost function Potential(store: Store, maxLevel: int): Meta -> nat {
    (f: Meta) => if f.path in store && f.level < maxLevel then |store[f.path]| * (maxLevel - f.level) else 0
  }

  lemma {:induction false} WeighSame(fs: seq<Meta>, w: Meta -> nat, w': Meta -> nat)
    requires forall f :: f in fs ==> w(f) == w'(f)
    ensures Weigh(fs, w) == Weigh(fs, w')
  {
    if fs != [] {
      assert fs[0] in fs;
      WeighSame(fs[1..], w, w');
    }
  }

  lemma PotentialAt(f: Meta, store: Store, maxLevel: int)
    requires f.path in store && f.level < maxLevel
    ensures Potential(store, maxLevel)(f) == |store[f.path]| * (maxLevel - f.level)
  {
  }

  lemma Distribute(t: nat, e: nat, d: int)
    ensures t * d + e * d == (t + e) * d
  {
  }

  lemma TotalOfTables(fs: seq<Meta>, store: Store)
    ensures fs == [] ==> Total(TablesOf(fs, store)) == 0
    ensures fs != [] && fs[|fs| - 1].path in store ==>
      Total(TablesOf(fs, store)) == Total(TablesOf(fs[..|fs| - 1], store)) + |store[fs[|fs| - 1].path]|
  {
    if fs != [] {
      assert TablesOf(fs, store)[..|fs| - 1] == TablesOf(fs[..|fs| - 1], store);
    }
  }

  /** Files of one level weigh their entries times that level's distance. */
  lemma {:induction false} PotentialOfLevel(fs: seq<Meta>, store: Store, maxLevel: int, level: int)
    requires level < maxLevel && forall f :: f in fs ==> f.level == level && f.path in store
    ensures Weigh(fs, Potential(store, maxLevel)) == Total(TablesOf(fs, store)) * (maxLevel - level)
  {
    hide Potential, Total, TablesOf;
    TotalOfTables(fs, store);
    if fs != [] {
      hide Weigh;
      var n := |fs| - 1;
      var front, last := fs[..n], fs[n];
      assert fs == front + [last];
      PotentialOfLevel(front, store, maxLevel, level);
      WeighSplit(front, [last], Potential(store, maxLevel));
      WeighOne(last, Potential(store, maxLevel));
      PotentialAt(last, store, maxLevel);
      Distribute(Total(TablesOf(front, store)), |store[last.path]|, maxLevel - level);
    }
  }

  lemma PotentialSame(files: seq<Meta>, store: Store, after: Store, maxLevel: int)
    requires forall f :: f in files ==> f.path in store && f.path in after && after[f.path] == store[f.path]
    ensures Weigh(files, Potential(store, maxLevel)) == Weigh(files, Potential(after, maxLevel))
  {
    WeighSame(files, Potential(store, maxLevel), Potential(after, maxLevel));
  }

  lemma {:induction false} TotalOfFlatten(ts: seq<seq<Entry>>)
    ensures Total(ts) == |Flatten(ts)|
  {
    if ts != [] {
      var n := |ts| - 1;
      TotalOfFlatten(ts[..n]);
      FlattenSnoc(ts, n);
      assert ts[..n + 1] == ts;
    }
  }

  lemma {:induction false} TotalSplit(a: seq<seq<Entry>>, b: seq<seq<Entry>>)
    ensures Total(a + b) == Total(a) + Total(b)
  {
    if b == [] {
      assert a + b == a;
    } else {
      TotalSplit(a, b[..|b| - 1]);
      assert (a + b)[..|a + b| - 1] == a + b[..|b| - 1];
    }
  }

  lemma Sinking(s: nat, t: nat, out: nat, d: nat)
    requires out <= s + t
    ensures out * d + s <= s * (d + 1) + t * d
  {
    assert (s + t - out) * d >= 0;
    assert (s + t - out) * d == s * d + t * d - out * d;
    assert s * (d + 1) == s * d + s;
  }

  /** What a swap does to a sum over the catalogue. */
  lemma SwapWeighs(files: seq<Meta>, store: Store, maxLevel: int, j: Job, after: Store, w: Meta -> nat)
    requires JobOk(files, store, maxLevel, j, after) && DistinctPaths(files + j.outs)
    ensures Weigh(RemovedAll(files + j.outs, Inputs(j)), w) + Weigh(j.source, w) + Weigh(j.target, w)
         == Weigh(files, w) + Weigh(j.outs, w)
  {
    hide JobOk, Weigh, RemovedAll;
    JobPaths(files, store, maxLevel, j, after);
    WeighSplit(files, j.outs, w);
    RemovedWeighs(files + j.outs, Inputs(j), w);
    WeighSplit(j.source, j.target, w);
  }

  /** Every compaction lowers the potential by at least the number of source entries, so a catalogue that
      only compacts comes to rest. */
  lemma PotentialDrops(files: seq<Meta>, store: Store, maxLevel: int, j: Job, after: Store)
    requires JobOk(files, store, maxLevel, j, after) && DistinctPaths(files + j.outs)
    requires |j.out| <= Total(TablesOf(Inputs(j), store))
    ensures Weigh(RemovedAll(files + j.outs, Inputs(j)), Potential(after, maxLevel)) + Total(TablesOf(j.source, store))
         <= Weigh(files, Potential(store, maxLevel))
    ensures Total(TablesOf(j.source, store)) > 0
  {
    hide JobOk, Weigh, Total, Flatten, RemovedAll, Potential;
    JobPaths(files, store, maxLevel, j, after);
    PotentialSame(files, store, after, maxLevel);
    SwapWeighs(files, store, maxLevel, j, after, Potential(after, maxLevel));
    PotentialOfLevel(j.outs, after, maxLevel, j.level + 1);
    TotalOfFlatten(TablesOf(j.outs, after));
    PotentialOfLevel(j.source, after, maxLevel, j.level);
    PotentialOfLevel(j.target, after, maxLevel, j.level + 1);
    assert TablesOf(j.source, after) == TablesOf(j.source, store);
    assert TablesOf(j.target, after) == TablesOf(j.target, store);
    assert TablesOf(Inputs(j), store) == TablesOf(j.source, store) + TablesOf(j.target, store);
    TotalSplit(TablesOf(j.source, store), TablesOf(j.target, store));
    Sinking(Total(TablesOf(j.source, store)), Total(TablesOf(j.target, store)), |j.out|, maxLevel - j.level - 1);
    SourceHasEntries(files, store, maxLevel, j, after);
  }

  lemma SourceHasEntries(files: seq<Meta>, store: Store, maxLevel: int, j: Job, after: Store)
    requires JobOk(files, store, maxLevel, j, after)
    ensures Total(TablesOf(j.source, store)) > 0
  {
    hide Less, IsMerge, Produced;
    var n := |j.source| - 1;
    assert j.source[n] in j.source;
    assert Placed(j.source[n], store, maxLevel);
  }

  /** Level by level from 0 down, the file counts drop lexicographically: above the source level nothing
      changes, and the source level loses its selected files. */
  lemma CountsDrop(files: seq<Meta>, store: Store, maxLevel: int, j: Job, after: Store, level: int)
    requires JobOk(files, store, maxLevel, j, after) && DistinctPaths(files + j.outs) && level <= j.level
    ensures Weigh(RemovedAll(files + j.outs, Inputs(j)), CountAt(level)) + (if level == j.level then |j.source| else 0)
         == Weigh(files, CountAt(level))
  {
    hide JobOk, Weigh, RemovedAll;
    JobPaths(files, store, maxLevel, j, after);
    var w := CountAt(level);
    SwapWeighs(files, store, maxLevel, j, after, w);
    WeighZero(j.outs, w);
    WeighZero(j.target, w);
    if level == j.level {
      WeighAll(j.source, level);
    } else {
      WeighZero(j.source, w);
    }
  }

  lemma {:induction false} WeighAll(fs: seq<Meta>, level: int)
    requires forall f :: f in fs ==> f.level == level
    ensures Weigh(fs, CountAt(level)) == |fs|
  {
    if fs != [] {
      assert fs[0] in fs;
      WeighAll(fs[1..], level);
    }
  }
}
