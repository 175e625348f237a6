/** Data blocks of an SSTable (src/storage/sstable/block.h and block.cpp). */
module Blocks {
  import opened Common
  import opened Bytes
  import opened Serializer
  import opened Tables

  const TARGET_BLOCK_SIZE: nat := 4096

  function TotalSize(es: seq<Entry>): nat {
    if es == [] then 0 else TotalSize(es[..|es| - 1]) + EncodedSize(es[|es| - 1])
  }

  /** Room for one more entry; a block takes at least one, whatever its size. */
  predicate HasRoom(es: seq<Entry>, e: Entry) {
    es == [] || 4 + TotalSize(es) + EncodedSize(e) <= TARGET_BLOCK_SIZE
  }

  // ---- format ----

  function EncodeEntry(e: Entry): (r: seq<Byte>)
    ensures |r| == EncodedSize(e)
  {
    WriteString(e.key) + (WriteString(e.value) + [if e.tombstone then 1 else 0])
  }

  function EncodeEntries(es: seq<Entry>): (r: seq<Byte>)
    ensures |r| == TotalSize(es)
  {
    if es == [] then [] else EncodeEntries(es[..|es| - 1]) + EncodeEntry(es[|es| - 1])
  }

  function EncodeBlock(es: seq<Entry>): (r: seq<Byte>)
    ensures |r| == 4 + TotalSize(es)
  {
    WriteUint32(|es|) + EncodeEntries(es)
  }

  function DecodeEntry(data: seq<Byte>, offset: nat): Result<(Entry, nat)> {
    var (key, o1) :- ReadString(data, offset);
    var (value, o2) :- ReadString(data, o1);
    if o2 >= |data| then Err(Corruption) else Ok((Entry(key, value, data[o2] != 0), o2 + 1))
  }

  function DecodeEntries(data: seq<Byte>, offset: nat, n: nat, done: seq<Entry>): Result<seq<Entry>>
    decreases n, |done|
  {
    if n == 0 then Ok(done) else
    var (e, next) :- DecodeEntry(data, offset);
    DecodeEntries(data, next, n - 1, done + [e])
  }

  function DecodeBlock(data: seq<Byte>): Result<seq<Entry>> {
    var (n, offset) :- ReadUint32(data, 0);
    DecodeEntries(data, offset, n, [])
  }

  /** Every length fits its 32-bit field. */
  predicate FitsBlock(es: seq<Entry>) {
    4 + TotalSize(es) < U32_LIMIT
  }

  lemma {:induction false} SizeBounds(es: seq<Entry>)
    ensures 9 * |es| <= TotalSize(es)
    ensures forall i :: 0 <= i < |es| ==> EncodedSize(es[i]) <= TotalSize(es)
  {
    if es != [] {
      SizeBounds(es[..|es| - 1]);
    }
  }

  lemma SingleSize(e: Entry)
    ensures TotalSize([e]) == EncodedSize(e)
  {
  }

  lemma {:induction false} TotalSizeSplit(a: seq<Entry>, b: seq<Entry>)
    ensures TotalSize(a + b) == TotalSize(a) + TotalSize(b)
  {
    if b == [] {
      assert a + b == a;
    } else {
      TotalSizeSplit(a, b[..|b| - 1]);
      assert (a + b)[..|a + b| - 1] == a + b[..|b| - 1];
    }
  }

  lemma {:induction false} EncodeEntriesCons(es: seq<Entry>)
    requires es != []
    ensures EncodeEntries(es) == EncodeEntry(es[0]) + EncodeEntries(es[1..])
  {
    hide EncodeEntry;
    var n := |es| - 1;
    if n == 0 {
      assert es[..0] == [] && es[1..] == [];
      assert EncodeEntries(es[..0]) == [] && EncodeEntries(es[1..]) == [];
    } else {
      EncodeEntriesCons(es[..n]);
      assert es[..n][1..] == es[1..][..n - 1] && es[1..][n - 1] == es[n];
      var first, middle, last := EncodeEntry(es[0]), EncodeEntries(es[1..][..n - 1]), EncodeEntry(es[n]);
      assert (first + middle) + last == first + (middle + last);
    }
  }

  lemma DecodesEntry(data: seq<Byte>, offset: nat, e: Entry)
    requires At(data, offset, EncodeEntry(e)) && EncodedSize(e) < U32_LIMIT
    ensures DecodeEntry(data, offset) == Ok((e, offset + EncodedSize(e)))
  {
    hide WriteString, ReadString;
    var flag: seq<Byte> := [if e.tombstone then 1 else 0];
    AtSplit(data, offset, WriteString(e.key), WriteString(e.value) + flag);
    AtSplit(data, offset + 4 + |e.key|, WriteString(e.value), flag);
    ReadsString(data, offset, e.key);
    ReadsString(data, offset + 4 + |e.key|, e.value);
    assert data[offset + EncodedSize(e) - 1] == flag[0];
  }

  lemma {:induction false} DecodesEntries(data: seq<Byte>, offset: nat, es: seq<Entry>, done: seq<Entry>)
    requires At(data, offset, EncodeEntries(es)) && FitsBlock(es)
    ensures DecodeEntries(data, offset, |es|, done) == Ok(done + es)
    decreases |es|
  {
    hide EncodeEntry, DecodeEntry;
    if es == [] {
      assert done + es == done;
    } else {
      EncodeEntriesCons(es);
      SizeBounds(es);
      assert es == [es[0]] + es[1..];
      TotalSizeSplit([es[0]], es[1..]);
      AtSplit(data, offset, EncodeEntry(es[0]), EncodeEntries(es[1..]));
      DecodesEntry(data, offset, es[0]);
      DecodesEntries(data, offset + EncodedSize(es[0]), es[1..], done + [es[0]]);
      assert done + [es[0]] + es[1..] == done + es;
    }
  }

  /** Deserializing a serialized block gives its entries back. */
  lemma BlockRoundTrip(es: seq<Entry>)
    requires FitsBlock(es)
    ensures DecodeBlock(EncodeBlock(es)) == Ok(es)
  {
    hide EncodeEntries, DecodeEntries, WriteUint32;
    var data := EncodeBlock(es);
    SizeBounds(es);
    assert At(data, 0, WriteUint32(|es|)) && At(data, 4, EncodeEntries(es));
    ReadsUint32(data, 0, |es|);
    DecodesEntries(data, 4, es, []);
    assert [] + es == es;
  }

  class Block {
    var entries: seq<Entry>
    var currentSize: nat

    /** Blocks built by `Add` know their encoded size; deserialized ones need not. */
    ghost predicate Sized()
      reads this
    {
      currentSize == |EncodeBlock(entries)|
    }

    constructor ()
      ensures entries == [] && Sized()
    {
      entries, currentSize := [], 4;
    }

    method Add(e: Entry) returns (ok: bool)
      requires Sized()
      modifies this
      ensures Sized() && ok == HasRoom(old(entries), e)
      ensures ok <==> old(entries) == [] || |EncodeBlock(old(entries) + [e])| <= 4096
      ensures entries == if ok then old(entries) + [e] else old(entries)
    {
      assert (entries + [e])[..|entries|] == entries;
      var entrySize := EncodedSize(e);
      if entries != [] && currentSize + entrySize > TARGET_BLOCK_SIZE {
        return false;
      }
      entries := entries + [e];
      currentSize := currentSize + entrySize;
      ok := true;
    }

    function LastKey(): (k: Str)
      reads this
    {
      if entries == [] then [] else entries[|entries| - 1].key
    }

    method Serialize() returns (buffer: seq<Byte>)
      ensures buffer == EncodeBlock(entries)
    {
      hide WriteUint32, EncodeEntry;
      buffer := WriteUint32(|entries|);
      var i := 0;
      while i < |entries|
        invariant 0 <= i <= |entries| && buffer == WriteUint32(|entries|) + EncodeEntries(entries[..i])
      {
        var e := entries[i];
        ghost var before := buffer;
        buffer := buffer + WriteUint32(|e.key|) + e.key;
        buffer := buffer + WriteUint32(|e.value|) + e.value;
        buffer := buffer + [if e.tombstone then 1 else 0];
        AppendedEntry(before, e);
        assert entries[..i + 1][..i] == entries[..i];
        i := i + 1;
      }
      assert entries[..i] == entries;
    }

    static method Deserialize(data: seq<Byte>) returns (r: Result<Block>)
      ensures r.Ok? ==> fresh(r.value) && DecodeBlock(data) == Ok(r.value.entries)
      ensures r.Err? ==> DecodeBlock(data) == Err(r.error)
    {
      hide DecodeEntry;
      var header :- ReadUint32(data, 0);
      var (n, offset) := header;
      var block := new Block();
      var i := 0;
      while i < n
        invariant 0 <= i <= n && fresh(block)
        invariant DecodeEntries(data, offset, n - i, block.entries) == DecodeBlock(data)
      {
        var read :- DecodeEntry(data, offset);
        offset := read.1;
        block.entries := block.entries + [read.0];
        block.currentSize := *;  // adds the size of a moved-from entry
        i := i + 1;
      }
      return Ok(block);
    }

    /** Binary search. It never returns an entry for another key, and on sorted entries it is `Lookup`. */
    method Get(key: Str) returns (r: Option<Entry>)
      ensures r.Some? ==> r.value in entries && r.value.key == key
      ensures Sorted(entries) ==> r == Lookup(entries, key)
    {
      var lo, hi := 0, |entries| - 1;
      LookupSound(entries, key);
      while lo <= hi
        invariant 0 <= lo <= hi + 1 <= |entries|
        invariant Sorted(entries) ==> forall i :: 0 <= i < lo || hi < i < |entries| ==> entries[i].key != key
      {
        var mid := lo + (hi - lo) / 2;
        if entries[mid].key == key {
          if Sorted(entries) {
            LookupAt(entries, mid);
          }
          return Some(entries[mid]);
        }
        Halve(entries, key, mid);
        if Less(entries[mid].key, key) {
          lo := mid + 1;
        } else {
          hi := mid - 1;
        }
      }
      r := None;
    }
  }

  lemma AppendedEntry(before: seq<Byte>, e: Entry)
    ensures before + WriteUint32(|e.key|) + e.key + WriteUint32(|e.value|) + e.value + [if e.tombstone then 1 else 0]
         == before + EncodeEntry(e)
  {
    hide WriteUint32;
  }

  /** A probe of a sorted run rules out one side. */
  lemma Halve(es: seq<Entry>, key: Str, mid: nat)
    requires mid < |es|
    ensures Sorted(es) && Less(es[mid].key, key) ==> forall i :: 0 <= i <= mid ==> es[i].key != key
    ensures Sorted(es) && !Less(es[mid].key, key) && es[mid].key != key ==> forall i ::
      mid <= i < |es| ==> es[i].key != key
  {
    OrderFacts();
    hide Less;
    if Sorted(es) {
      assert forall i :: 0 <= i < mid ==> Less(es[i].key, es[mid].key);
      assert forall i :: mid < i < |es| ==> Less(es[mid].key, es[i].key);
    }
  }
}
