/** What a search through the catalogue finds, also when files are missing or their recorded ranges are stale
    (GetFromSSTables in src/storage/engine/storage_engine.cpp). */
module Searches {
  import opened Common
  import opened Bytes
  import opened Tables
  import opened SSTableFormat
  import opened Disks
  import opened Catalogue

  // ---- the order of the search ----

  ghost predicate ByRank(fs: seq<Meta>) {
    forall i, j :: 0 <= i < j < |fs| ==> !Outranks(fs[j], fs[i])
  }

  /** The sort of GetFromSSTables. Files that rank equal come in any order, as std::sort leaves it. */
  method SortByRank(files: seq<Meta>) returns (r: seq<Meta>)
    ensures ByRank(r) && forall f :: f in r <==> f in files
  {
    r := [];
    var i := 0;
    while i < |files|
      invariant 0 <= i <= |files| && ByRank(r) && forall f :: f in r <==> f in files[..i]
    {
      var p := 0;
      while p < |r| && !Outranks(files[i], r[p])
        invariant 0 <= p <= |r| && forall n :: 0 <= n < p ==> !Outranks(files[i], r[n])
      {
        p := p + 1;
      }
      assert r == r[..p] + r[p..];
      r := r[..p] + [files[i]] + r[p..];
      assert files[..i + 1] == files[..i] + [files[i]];
      i := i + 1;
    }
    assert files[..i] == files;
  }

  // ---- catalogues a search makes sense of ----

  ghost predicate InRange(f: Meta, k: Str) {
    !Less(k, f.smallest) && !Less(f.largest, k)
  }

  ghost predicate SamePlace(f: Meta, g: Meta) {
    f.path == g.path && f.level == g.level && f.seqno == g.seqno
  }

  /** Every listed file that exists holds its table. */
  ghost predicate TablesThere(d: Files, files: seq<Meta>, store: Store) {
    forall f :: f in files && f.path in d ==> f.path in store && IsTable(d[f.path], store[f.path])
  }

  /** A key that a file holds lies in its recorded range, or in that of another listing of the same file. */
  ghost predicate Covered(files: seq<Meta>, f: Meta, k: Str) {
    exists g :: g in files && SamePlace(f, g) && InRange(g, k)
  }

  /** One of two files comes first. */
  ghost predicate Ranked(f: Meta, g: Meta) {
    Outranks(f, g) || Outranks(g, f)
  }

  ghost predicate Searchable(d: Files, files: seq<Meta>, store: Store) {
    && TablesThere(d, files, store)
    && (forall f, k :: f in files && Holds(store, f, k) ==> Covered(files, f, k))
    && (forall f, g, k ::
          f in files && g in files && f.path != g.path && InRange(f, k) && Holds(store, g, k) ==> Ranked(f, g))
  }

  /** A missing file whose range takes in `k` is reached before any file that holds it. */
  ghost predicate Obstructs(d: Files, files: seq<Meta>, store: Store, k: Str, f: Meta) {
    && f in files && InRange(f, k) && f.path !in d
    && forall g :: g in files && g.path in d && Holds(store, g, k) ==> !Outranks(g, f)
  }

  ghost predicate Unreadable(d: Files, files: seq<Meta>, store: Store, k: Str) {
    exists f :: Obstructs(d, files, store, k, f)
  }

  /** What the search returns. */
  ghost function Found(d: Files, files: seq<Meta>, store: Store, k: Str): Result<Option<seq<Byte>>> {
    if Unreadable(d, files, store, k) then Err(IoError) else Ok(Visible(Version(files, store, k)))
  }

  /** A well-formed catalogue can be searched, whatever files are missing. */
  lemma WellFormedSearchable(d: Files, files: seq<Meta>, store: Store, maxLevel: int)
    requires WellFormed(files, store, maxLevel) && TablesThere(d, files, store)
    ensures Searchable(d, files, store)
  {
    hide Lookup, IsTable, Less;
    forall f, k | f in files && Holds(store, f, k) ensures Covered(files, f, k) {
      assert Placed(f, store, maxLevel);
      HeldInside(store, f, k);
    }
    forall f, g, k | f in files && g in files && f.path != g.path && InRange(f, k) && Holds(store, g, k)
      ensures Ranked(f, g)
    {
      assert Placed(f, store, maxLevel) && Placed(g, store, maxLevel) && Compatible(f, g);
      HeldInside(store, g, k);
      ApartRanges(f, g, k);
    }
  }

  lemma HeldInside(store: Store, f: Meta, k: Str)
    requires Holds(store, f, k) && Describes(f, store[f.path])
    ensures InRange(f, k)
  {
    HeldInRange(store, f, k);
    OrderFacts();
    hide Less, Lookup;
  }

  lemma ApartRanges(f: Meta, g: Meta, k: Str)
    requires InRange(f, k) && InRange(g, k)
    ensures !Apart(f, g)
  {
    OrderFacts();
    hide Less;
  }

  /** It returns a value exactly if no missing file is in the way and the version on top holds it, whole and
      undeleted. */
  lemma FoundExactly(d: Files, files: seq<Meta>, store: Store, k: Str)
    ensures forall v :: Found(d, files, store, k) == Ok(Some(v)) <==>
      !Unreadable(d, files, store, k) && Version(files, store, k) == Some(Entry(k, v, false))
  {
    hide Lookup, Best, Unreadable;
    if Best(files, store, k).Some? {
      VisibleExactly(store[Best(files, store, k).value.path], k);
    }
  }

  /** With every file there, the search finds the version on top. */
  lemma AllThere(d: Files, files: seq<Meta>, store: Store, k: Str)
    requires forall f :: f in files ==> f.path in d
    ensures Found(d, files, store, k) == Ok(Visible(Version(files, store, k)))
  {
  }

  // ---- the steps of the search ----

  /** Nothing before place `i` answered: every file was out of range, or there without the key. */
  ghost predicate Passed(d: Files, sorted: seq<Meta>, store: Store, k: Str, i: nat)
    requires i <= |sorted|
  {
    forall n :: 0 <= n < i && InRange(sorted[n], k) ==> sorted[n].path in d && !Holds(store, sorted[n], k)
  }

  /** A holder stands at place `i` or later. */
  lemma HoldersLater(d: Files, files: seq<Meta>, sorted: seq<Meta>, store: Store, k: Str, i: nat, g: Meta)
      returns (n: nat)
    requires Searchable(d, files, store) && (forall f :: f in sorted <==> f in files) && i <= |sorted|
    requires Passed(d, sorted, store, k, i) && g in files && Holds(store, g, k)
    ensures i <= n < |sorted| && SamePlace(g, sorted[n]) && InRange(sorted[n], k)
  {
    hide Lookup, IsTable, InRange;
    assert Covered(files, g, k);
    var h :| h in files && SamePlace(g, h) && InRange(h, k);
    assert h in sorted;
    n :| 0 <= n < |sorted| && sorted[n] == h;
  }

  /** A missing file in range ends the search. */
  lemma SearchBlocked(d: Files, files: seq<Meta>, sorted: seq<Meta>, store: Store, k: Str, i: nat)
    requires Searchable(d, files, store) && ByRank(sorted) && (forall f :: f in sorted <==> f in files) && i < |sorted|
    requires Passed(d, sorted, store, k, i) && InRange(sorted[i], k) && sorted[i].path !in d
    ensures Found(d, files, store, k) == Err(IoError)
  {
    hide Lookup, IsTable, InRange, Searchable;
    var f := sorted[i];
    assert f in sorted;
    forall g | g in files && g.path in d && Holds(store, g, k) ensures !Outranks(g, f) {
      var n := HoldersLater(d, files, sorted, store, k, i, g);
    }
    assert Obstructs(d, files, store, k, f);
  }

  /** So does the first file that holds the key. */
  lemma SearchFinds(d: Files, files: seq<Meta>, sorted: seq<Meta>, store: Store, k: Str, i: nat)
    requires Searchable(d, files, store) && ByRank(sorted) && (forall f :: f in sorted <==> f in files) && i < |sorted|
    requires Passed(d, sorted, store, k, i) && InRange(sorted[i], k) && sorted[i].path in d
        && Holds(store, sorted[i], k)
    ensures Found(d, files, store, k) == Ok(Visible(Lookup(store[sorted[i].path], k)))
  {
    hide Lookup, IsTable, InRange, TablesThere;
    var f := sorted[i];
    assert f in sorted;
    forall g | g in files && InRange(g, k) && g.path !in d ensures Outranks(f, g) {
      assert g in sorted;
      var n :| 0 <= n < |sorted| && sorted[n] == g;
      assert Ranked(g, f);
    }
    BestNotOutranked(files, store, k, f);
    var b := Best(files, store, k).value;
    var n := HoldersLater(d, files, sorted, store, k, i, b);
    assert sorted[n] in sorted;
    assert b.path != f.path ==> Ranked(sorted[n], f);
  }

  /** One file in range, with what reading it gave. */
  lemma SearchStep(d: Files, files: seq<Meta>, sorted: seq<Meta>, store: Store, k: Str, i: nat,
      found: Result<Option<Entry>>)
    requires Searchable(d, files, store) && ByRank(sorted) && (forall f :: f in sorted <==> f in files) && i < |sorted|
    requires Passed(d, sorted, store, k, i) && !(Less(k, sorted[i].smallest) || Less(sorted[i].largest, k))
    requires var p := sorted[i].path;
      && (p !in d ==> found == Err(IoError))
      && (p in d && p in store && IsTable(d[p], store[p]) ==> found == Ok(Lookup(store[p], k)))
    ensures found.Err? ==> Found(d, files, store, k) == Err(found.error)
    ensures found.Ok? && found.value.None? ==> Passed(d, sorted, store, k, i + 1)
    ensures found.Ok? && found.value.Some? ==>
      Found(d, files, store, k) == Ok(if found.value.value.tombstone then None else Some(found.value.value.value))
  {
    hide Lookup, IsTable, Found, Covered, Ranked, Less;
    assert sorted[i] in sorted;
    if sorted[i].path !in d {
      SearchBlocked(d, files, sorted, store, k, i);
    } else if found.value.Some? {
      SearchFinds(d, files, sorted, store, k, i);
    }
  }

  /** One out of range. */
  lemma SearchSkips(d: Files, sorted: seq<Meta>, store: Store, k: Str, i: nat)
    requires i < |sorted| && Passed(d, sorted, store, k, i)
    requires Less(k, sorted[i].smallest) || Less(sorted[i].largest, k)
    ensures Passed(d, sorted, store, k, i + 1)
  {
    hide Less, Holds;
  }

  lemma NothingPassed(d: Files, sorted: seq<Meta>, store: Store, k: Str)
    ensures Passed(d, sorted, store, k, 0)
  {
  }

  /** And the end of the list. */
  lemma SearchEnds(d: Files, files: seq<Meta>, sorted: seq<Meta>, store: Store, k: Str)
    requires Searchable(d, files, store) && (forall f :: f in sorted <==> f in files)
    requires Passed(d, sorted, store, k, |sorted|)
    ensures Found(d, files, store, k) == Ok(None)
  {
    hide Lookup, IsTable, InRange, Searchable;
    BestNone(files, store, k);
    if Best(files, store, k).Some? {
      var n := HoldersLater(d, files, sorted, store, k, |sorted|, Best(files, store, k).value);
    }
    forall f | f in files && InRange(f, k) ensures f.path in d {
      assert f in sorted;
    }
  }
}
