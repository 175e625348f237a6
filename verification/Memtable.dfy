/** The in-memory write buffer (src/storage/memtable/memtable.cpp). */
module Memtables {
  import opened Common
  import opened Bytes
  import opened Tables
  import opened SkipLists

  class MemTable {
    const table: SkipList

    ghost function Repr(): set<object>
      reads table
    {
      table.Repr()
    }

    ghost predicate Valid()
      reads table, table.head, table.nodes
    {
      table.Valid()
    }

    ghost function Entries(): seq<Entry>
      reads table, table.nodes
    {
      table.Entries()
    }

    constructor (sizes: Sizes)
      ensures Valid() && fresh(table) && fresh(Repr()) && Entries() == [] && table.sizes == sizes
    {
      table := new SkipList(sizes);
    }

    method Put(key: Str, value: seq<Byte>)
      requires Valid()
      modifies table, table.head, table.nodes
      ensures Valid() && fresh(Repr() - old(Repr()))
      ensures Entries() == Upsert(old(Entries()), Entry(key, value, false))
    {
      table.Put(key, value);
    }

    method Delete(key: Str)
      requires Valid()
      modifies table, table.head, table.nodes
      ensures Valid() && fresh(Repr() - old(Repr()))
      ensures Entries() == Upsert(old(Entries()), Entry(key, [], true))
    {
      table.Delete(key);
    }

    /** A tombstone and an absent key give the same answer here: the third case of the skip list is lost. */
    method Get(key: Str) returns (r: Option<seq<Byte>>)
      requires Valid()
      ensures r == Visible(Lookup(Entries(), key))
      ensures forall v :: r == Some(v) <==> Lookup(Entries(), key) == Some(Entry(key, v, false))
    {
      VisibleExactly(Entries(), key);
      var found := table.Get(key);
      if found.Some? && !found.value.tombstone {
        r := Some(found.value.value);
      } else {
        r := None;
      }
    }
  }
}
