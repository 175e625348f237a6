/** Sorted runs of entries: the contents of an SSTable and what a lookup in one means. */
module Tables {
  import opened Common
  import opened Bytes

  /** `BlockEntry`: a key with its value, or a deletion marker. */
  datatype Entry = Entry(key: Str, value: seq<Byte>, tombstone: bool)

  /** On-disk size: key_len(4) + key + value_len(4) + value + tombstone(1). */
  function EncodedSize(e: Entry): nat {
    4 + |e.key| + 4 + |e.value| + 1
  }

  ghost predicate Sorted(es: seq<Entry>) {
    forall i, j :: 0 <= i < j < |es| ==> Less(es[i].key, es[j].key)
  }

  /** The reference lookup every fast structure must agree with. */
  function Lookup(es: seq<Entry>, k: Str): Option<Entry> {
    if es == [] then None
    else if es[0].key == k then Some(es[0])
    else Lookup(es[1..], k)
  }

  /** What a reader of the store sees of a version: nothing for a tombstone. */
  function Visible(v: Option<Entry>): Option<seq<Byte>> {
    if v.Some? && !v.value.tombstone then Some(v.value.value) else None
  }

  /** No entry, or a deletion marker. */
  predicate NotLive(v: Option<Entry>) {
    v.None? || v.value.tombstone
  }

  lemma {:induction false} LookupSound(es: seq<Entry>, k: Str)
    ensures Lookup(es, k).Some? ==> Lookup(es, k).value.key == k && Lookup(es, k).value in es
    ensures Lookup(es, k).None? ==> forall i :: 0 <= i < |es| ==> es[i].key != k
  {
    if es != [] {
      LookupSound(es[1..], k);
      if Lookup(es, k).None? {
        forall i | 0 <= i < |es| ensures es[i].key != k {
          assert i > 0 ==> es[i] == es[1..][i - 1];
        }
      }
    }
  }

  /** A reader sees a value exactly if the entry found holds it, whole and undeleted. */
  lemma VisibleExactly(es: seq<Entry>, k: Str)
    ensures forall v :: Visible(Lookup(es, k)) == Some(v) <==> Lookup(es, k) == Some(Entry(k, v, false))
  {
    LookupSound(es, k);
    hide Lookup;
  }

  /** In a sorted run a position is found by its own key. */
  lemma LookupAt(es: seq<Entry>, i: nat)
    requires Sorted(es) && i < |es|
    ensures Lookup(es, es[i].key) == Some(es[i])
  {
    var k := es[i].key;
    LookupSound(es, k);
    var j :| 0 <= j < |es| && Lookup(es, k) == Some(es[j]);
    LessAsymAll();
  }

  lemma LookupFirst(e: Entry, rest: seq<Entry>, k: Str)
    ensures Lookup([e] + rest, k) == if e.key == k then Some(e) else Lookup(rest, k)
  {
    assert ([e] + rest)[1..] == rest;
  }

  lemma Lookup1(a: Entry, k: Str)
    ensures Lookup([a], k) == if a.key == k then Some(a) else None
  {
    LookupFirst(a, [], k);
    assert [a] + [] == [a];
  }

  lemma LookupIndex(es: seq<Entry>, k: Str) returns (i: nat)
    requires Lookup(es, k).Some?
    ensures i < |es| && es[i].key == k && Lookup(es, k) == Some(es[i])
  {
    LookupSound(es, k);
    i :| 0 <= i < |es| && Lookup(es, k) == Some(es[i]);
  }

  lemma LessAsymAll()
    ensures forall a, b :: Less(a, b) ==> a != b
  {
    OrderFacts();
  }

  lemma {:induction false} LookupAppend(a: seq<Entry>, b: seq<Entry>, k: Str)
    ensures Lookup(a + b, k) == if Lookup(a, k).Some? then Lookup(a, k) else Lookup(b, k)
  {
    if a == [] {
      assert a + b == b;
    } else {
      LookupAppend(a[1..], b, k);
      assert (a + b)[1..] == a[1..] + b;
    }
  }

  // ---- replacing or inserting one entry ----

  /** A sorted run with `e` in place of any entry for the same key. */
  function Upsert(es: seq<Entry>, e: Entry): seq<Entry> {
    if es == [] then [e]
    else if es[0].key == e.key then [e] + es[1..]
    else if Less(e.key, es[0].key) then [e] + es
    else [es[0]] + Upsert(es[1..], e)
  }

  /** `Upsert` is a map update, and keeps the run sorted. */
  lemma {:induction false} UpsertIsUpdate(es: seq<Entry>, e: Entry)
    requires Sorted(es)
    ensures Sorted(Upsert(es, e))
    ensures forall k :: Lookup(Upsert(es, e), k) == if k == e.key then Some(e) else Lookup(es, k)
    ensures forall x :: x in Upsert(es, e) ==> x == e || x in es
  {
    if es != [] {
      UpsertIsUpdate(es[1..], e);
      OrderFacts();
      hide Less;
      if es[0].key == e.key {
        assert forall i :: 0 < i < |es| ==> ([e] + es[1..])[i] == es[i];
        forall k ensures Lookup([e] + es[1..], k) == if k == e.key then Some(e) else Lookup(es, k) {
          assert ([e] + es[1..])[1..] == es[1..];
        }
      } else if Less(e.key, es[0].key) {
        assert forall i :: 0 < i < |es| ==> Less(es[0].key, es[i].key);
        forall k ensures Lookup([e] + es, k) == if k == e.key then Some(e) else Lookup(es, k) {
          assert ([e] + es)[1..] == es;
        }
      } else {
        var rest := Upsert(es[1..], e);
        forall i | 0 <= i < |rest| ensures Less(es[0].key, rest[i].key) {
          assert rest[i] in rest;
        }
        forall k ensures Lookup([es[0]] + rest, k) == if k == e.key then Some(e) else Lookup(es, k) {
          assert ([es[0]] + rest)[1..] == rest;
        }
      }
    }
  }

  /** `Upsert` at the position a search for the key ends at. */
  lemma {:induction false} UpsertAt(es: seq<Entry>, e: Entry, p: nat)
    requires Sorted(es) && p <= |es|
    requires forall i :: 0 <= i < p ==> Less(es[i].key, e.key)
    requires p < |es| ==> !Less(es[p].key, e.key)
    ensures Upsert(es, e) == if p < |es| && es[p].key == e.key then es[p := e] else es[..p] + [e] + es[p..]
  {
    if p > 0 {
      LessAsym(es[0].key, e.key);
      hide Less;
      UpsertAt(es[1..], e, p - 1);
      OneFurther(es, e, p);
    } else if es != [] {
      LessTotal(es[0].key, e.key);
      hide Less;
      assert [e] + es[1..] == es[0 := e] && [e] + es == es[..0] + [e] + es[0..];
    }
  }

  lemma OneFurther(es: seq<Entry>, e: Entry, p: nat)
    requires 0 < p <= |es|
    ensures p < |es| ==> es[1..][p - 1] == es[p] && [es[0]] + es[1..][p - 1 := e] == es[p := e]
    ensures [es[0]] + (es[1..][..p - 1] + [e] + es[1..][p - 1..]) == es[..p] + [e] + es[p..]
  {
  }

  // ---- runs cut into pieces ----

  function Flatten(bs: seq<seq<Entry>>): seq<Entry> {
    if bs == [] then [] else bs[0] + Flatten(bs[1..])
  }

  function LastKeyOf(b: seq<Entry>): Str {
    if b == [] then [] else b[|b| - 1].key
  }

  ghost predicate NonEmptyBlocks(bs: seq<seq<Entry>>) {
    forall i :: 0 <= i < |bs| ==> bs[i] != []
  }

  lemma {:induction false} FlattenSplit(bs: seq<seq<Entry>>, i: nat)
    requires i < |bs|
    ensures Flatten(bs) == Flatten(bs[..i]) + bs[i] + Flatten(bs[i + 1..])
  {
    if i == 0 {
      assert Flatten(bs[..0]) == [];
    } else {
      FlattenSplit(bs[1..], i - 1);
      assert bs[1..][..i - 1] == bs[..i][1..] && bs[1..][i..] == bs[i + 1..];
      var first, before, b, after := bs[0], Flatten(bs[..i][1..]), bs[i], Flatten(bs[i + 1..]);
      assert first + (before + b + after) == (first + before) + b + after;
    }
  }

  lemma {:induction false} FlattenLast(bs: seq<seq<Entry>>)
    requires bs != [] && bs[|bs| - 1] != []
    ensures Flatten(bs) != [] && Flatten(bs)[|Flatten(bs)| - 1] == bs[|bs| - 1][|bs[|bs| - 1]| - 1]
  {
    FlattenSplit(bs, |bs| - 1);
    assert bs[|bs|..] == [] && Flatten(bs[|bs|..]) == [];
  }

  lemma FlattenNothing()
    ensures Flatten([]) == []
  {
  }

  lemma FlattenSnoc(bs: seq<seq<Entry>>, i: nat)
    requires i < |bs|
    ensures Flatten(bs[..i + 1]) == Flatten(bs[..i]) + bs[i]
  {
    var cs := bs[..i + 1];
    FlattenSplit(cs, i);
    assert cs[..i] == bs[..i] && cs[i + 1..] == [];
  }

  /** Where a piece's last entry stands in the whole run. */
  lemma LastIndex(bs: seq<seq<Entry>>, i: nat)
    requires NonEmptyBlocks(bs) && i < |bs|
    ensures 0 < |Flatten(bs[..i + 1])| <= |Flatten(bs)|
    ensures Flatten(bs)[|Flatten(bs[..i + 1])| - 1].key == LastKeyOf(bs[i])
  {
    FlattenSnoc(bs, i);
    FlattenSplit(bs, i);
  }

  lemma FlattenGrows(bs: seq<seq<Entry>>, i: nat, j: nat)
    requires NonEmptyBlocks(bs) && 0 < i < j <= |bs|
    ensures |Flatten(bs[..i])| < |Flatten(bs[..j])|
  {
    var cs := bs[..j];
    FlattenSplit(cs, i);
    assert cs[..i] == bs[..i];
  }

  lemma FlattenMonotone(bs: seq<seq<Entry>>, i: nat, j: nat)
    requires NonEmptyBlocks(bs) && i <= j <= |bs|
    ensures |Flatten(bs[..i])| <= |Flatten(bs[..j])|
  {
    if 0 < i < j {
      FlattenGrows(bs, i, j);
    } else if i == 0 {
      FlattenNothing();
      assert bs[..0] == [];
    }
  }

  /** Pieces of a sorted run follow one another without overlap, and each is sorted. */
  lemma PiecesApart(bs: seq<seq<Entry>>, i: nat, j: nat)
    requires NonEmptyBlocks(bs) && Sorted(Flatten(bs)) && i < j < |bs|
    ensures Less(LastKeyOf(bs[i]), bs[j][0].key)
  {
    hide Less, Flatten;
    LastIndex(bs, i);
    FlattenMonotone(bs, i + 1, j);
    FlattenSplit(bs, j);
    assert Flatten(bs)[|Flatten(bs[..j])|] == bs[j][0];
  }

  /** A lookup in the whole run is a lookup in whichever piece has the key. */
  lemma PieceLookup(bs: seq<seq<Entry>>, i: nat, k: Str)
    requires Sorted(Flatten(bs)) && i < |bs| && Lookup(bs[i], k).Some?
    ensures Lookup(Flatten(bs), k) == Lookup(bs[i], k)
  {
    hide Less, Flatten;
    FlattenSplit(bs, i);
    var n := LookupIndex(bs[i], k);
    assert Flatten(bs)[|Flatten(bs[..i])| + n] == bs[i][n];
    LookupAt(Flatten(bs), |Flatten(bs[..i])| + n);
  }

  lemma {:induction false} SomePieceHas(bs: seq<seq<Entry>>, k: Str) returns (i: nat)
    requires Lookup(Flatten(bs), k).Some?
    ensures i < |bs| && Lookup(bs[i], k).Some?
  {
    LookupAppend(bs[0], Flatten(bs[1..]), k);
    if Lookup(bs[0], k).Some? {
      i := 0;
    } else {
      i := SomePieceHas(bs[1..], k);
      i := i + 1;
    }
  }
}
