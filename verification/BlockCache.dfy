/** The LRU block cache (src/storage/cache/block_cache.cpp). */
module BlockCaches {
  import opened Common
  import opened Bytes
  import Paths

  /** `MakeCacheKey`: the path, a colon, the offset in decimal. */
  function MakeCacheKey(path: Str, offset: nat): Str {
    path + [58] + Paths.Decimal(offset)
  }

  /** Two blocks have the same key only if they are the same block. */
  lemma CacheKeysDiffer(path: Str, offset: nat, path': Str, offset': nat)
    requires MakeCacheKey(path, offset) == MakeCacheKey(path', offset')
    ensures path == path' && offset == offset'
  {
    hide Paths.Decimal;
    var d, d' := Paths.Decimal(offset), Paths.Decimal(offset');
    var s, t := path + [58] + d, path' + [58] + d';
    assert s[|path|] == 58 && t[|path'|] == 58;
    forall i | |path| < i < |s| ensures s[i] != 58 {
      assert s[i] == d[i - |path| - 1] && s[i] in Paths.DIGITS;
    }
    forall i | |path'| < i < |t| ensures t[i] != 58 {
      assert t[i] == d'[i - |path'| - 1] && t[i] in Paths.DIGITS;
    }
    assert |path| == |path'|;
    assert s[..|path|] == path && t[..|path'|] == path';
    assert s[|path| + 1..] == d && t[|path'| + 1..] == d';
    Paths.NumberOfDecimal(offset);
    Paths.NumberOfDecimal(offset');
  }

  datatype Item = Item(key: Str, data: seq<Byte>)

  function Size(i: Item): nat {
    |i.key| + |i.data|
  }

  function Total(items: seq<Item>): nat {
    if items == [] then 0 else Total(items[..|items| - 1]) + Size(items[|items| - 1])
  }

  function Find(items: seq<Item>, key: Str): Option<seq<Byte>> {
    if items == [] then None else if items[0].key == key then Some(items[0].data) else Find(items[1..], key)
  }

  function Without(items: seq<Item>, key: Str): seq<Item> {
    if items == [] then [] else (if items[0].key == key then [] else [items[0]]) + Without(items[1..], key)
  }

  ghost predicate Distinct(items: seq<Item>) {
    forall i, j :: 0 <= i < j < |items| ==> items[i].key != items[j].key
  }

  /** `r` is the longest prefix of `items` that fits. */
  ghost predicate LongestFit(items: seq<Item>, capacity: nat, r: seq<Item>) {
    r <= items && Total(r) <= capacity && (|r| < |items| ==> Total(items[..|r| + 1]) > capacity)
  }

  lemma {:induction false} TotalSplit(a: seq<Item>, b: seq<Item>)
    ensures Total(a + b) == Total(a) + Total(b)
  {
    if b == [] {
      assert a + b == a;
    } else {
      var n := |b| - 1;
      TotalSplit(a, b[..n]);
      assert (a + b)[..|a + b| - 1] == a + b[..n];
    }
  }

  /** Taking out the one item of a key. */
  lemma {:induction false} WithoutAt(items: seq<Item>, key: Str, p: nat)
    requires Distinct(items) && p < |items| && items[p].key == key
    ensures Without(items, key) == items[..p] + items[p + 1..] && Find(items, key) == Some(items[p].data)
  {
    if p == 0 {
      WithoutAbsent(items[1..], key);
      assert Without(items, key) == [] + items[1..];
    } else {
      assert items[0].key != key;
      WithoutAt(items[1..], key, p - 1);
      assert items[1..][..p - 1] == items[1..p] && items[1..][p..] == items[p + 1..];
      assert [items[0]] + items[1..p] == items[..p];
    }
  }

  lemma {:induction false} WithoutAbsent(items: seq<Item>, key: Str)
    requires forall i :: 0 <= i < |items| ==> items[i].key != key
    ensures Without(items, key) == items && Find(items, key) == None
  {
    if items != [] {
      WithoutAbsent(items[1..], key);
    }
  }

  lemma {:induction false} WithoutKeys(items: seq<Item>, key: Str)
    requires Distinct(items)
    ensures Distinct(Without(items, key)) && forall x :: x in Without(items, key) <==> x in items && x.key != key
  {
    if items != [] {
      var rest := Without(items[1..], key);
      WithoutKeys(items[1..], key);
      assert items == [items[0]] + items[1..];
      forall x | x in rest ensures x.key != items[0].key {
        var i :| 0 <= i < |items[1..]| && items[1..][i] == x;
      }
      assert forall i :: 0 <= i < |rest| ==> rest[i] in rest;
    }
  }

  // ---- the cache ----

  class CacheItem {
    const key: Str
    const data: seq<Byte>

    constructor (key: Str, data: seq<Byte>)
      ensures this.key == key && this.data == data
    {
      this.key, this.data := key, data;
    }
  }

  function Values(list: seq<CacheItem>): (items: seq<Item>)
    ensures |items| == |list|
  {
    seq(|list|, i requires 0 <= i < |list| => Item(list[i].key, list[i].data))
  }

  /** List and index hold the same distinct keys. */
  ghost predicate Agree(list: seq<CacheItem>, index: map<Str, CacheItem>) {
    && Distinct(Values(list))
    && (forall k :: k in index ==> index[k] in list && index[k].key == k)
    && (forall i :: 0 <= i < |list| ==> list[i].key in index && index[list[i].key] == list[i])
  }

  lemma MissingKey(list: seq<CacheItem>, index: map<Str, CacheItem>, key: Str)
    requires Agree(list, index) && key !in index
    ensures Without(Values(list), key) == Values(list) && Find(Values(list), key) == None
  {
    WithoutAbsent(Values(list), key);
  }

  /** Taking an item out of both. */
  lemma AgreeErased(list: seq<CacheItem>, index: map<Str, CacheItem>, p: nat)
    requires p < |list| && Agree(list, index)
    ensures Agree(list[..p] + list[p + 1..], index - {list[p].key})
    ensures Values(list[..p] + list[p + 1..]) == Values(list)[..p] + Values(list)[p + 1..]
  {
    hide Distinct;
    var rest, index' := list[..p] + list[p + 1..], index - {list[p].key};
    assert Values(rest) == Values(list)[..p] + Values(list)[p + 1..];
    DistinctErased(Values(list), p);
    forall k | k in index' ensures index'[k] in rest {
      var i :| 0 <= i < |list| && list[i] == index[k];
      assert rest[if i < p then i else i - 1] == list[i];
    }
    forall i | 0 <= i < |rest| ensures rest[i].key in index' && index'[rest[i].key] == rest[i] {
      var n := if i < p then i else i + 1;
      assert rest[i] == list[n] && Values(list)[n].key != Values(list)[p].key;
    }
  }

  lemma DistinctErased(items: seq<Item>, p: nat)
    requires Distinct(items) && p < |items|
    ensures Distinct(items[..p] + items[p + 1..]) && forall n ::
      0 <= n < |items| && n != p ==> items[n].key != items[p].key
  {
  }

  /** Putting a new one in front of both. */
  lemma AgreePushed(list: seq<CacheItem>, index: map<Str, CacheItem>, item: CacheItem)
    requires Agree(list, index) && item.key !in index
    ensures Agree([item] + list, index[item.key := item]) && Values([item] + list) == [Item(item.key, item.data)]
        + Values(list)
  {
    var list' := [item] + list;
    assert forall i :: 1 <= i < |list'| ==> list'[i] == list[i - 1] && list[i - 1].key in index;
    assert Values(list') == [Item(item.key, item.data)] + Values(list);
  }

  class BlockCache {
    const capacity: nat
    var size: nat
    var list: seq<CacheItem>           // most recently used first
    var index: map<Str, CacheItem>     // where each key is in the list
    var hits: nat
    var misses: nat

    ghost function Items(): seq<Item>
      reads this
    {
      Values(list)
    }

    /** List and index agree, and the size counter is exact. */
    ghost predicate Indexed()
      reads this
    {
      Agree(list, index) && size == Total(Items())
    }

    ghost predicate Valid()
      reads this
    {
      Indexed() && size <= capacity
    }

    constructor (capacityMb: nat)
      ensures capacity == capacityMb * 1024 * 1024 && Valid() && Items() == [] && hits == 0 && misses == 0
    {
      capacity := capacityMb * 1024 * 1024;
      size, list, index, hits, misses := 0, [], map[], 0, 0;
    }

    /** A hit moves the item to the front. */
    method Get(key: Str) returns (r: Option<seq<Byte>>)
      requires Valid()
      modifies this
      ensures Valid() && size == old(size) && r == Find(old(Items()), key)
      ensures r.Some? ==>
        Items() == [Item(key, r.value)] + Without(old(Items()), key) && hits == old(hits) + 1 && misses == old(misses)
      ensures r.None? ==> Items() == old(Items()) && hits == old(hits) && misses == old(misses) + 1
      ensures Items() == After(old(Items()), GetOp(key), capacity)
    {
      hide Agree, Total, Find, Without, Values;
      if key !in index {
        MissingKey(list, index, key);
        misses := misses + 1;
        return None;
      }
      var item := index[key];
      var p := Position(key);
      Erase(p);
      PushFront(item);
      hits := hits + 1;
      return Some(item.data);
    }

    /** Where an indexed key is in the list: the iterator the index holds. */
    method Position(key: Str) returns (p: nat)
      requires Indexed() && key in index
      ensures p < |list| && list[p] == index[key] && list[p].key == key && Find(Items(), key) == Some(list[p].data)
    {
      p := 0;
      while list[p] != index[key]
        invariant p < |list| && index[key] in list[p..]
        decreases |list| - p
      {
        assert list[p..] == [list[p]] + list[p + 1..];
        p := p + 1;
      }
      WithoutAt(Items(), key, p);
    }

    /** Takes one item out of list, index and size. */
    method Erase(p: nat)
      requires Indexed() && p < |list|
      modifies this`list, this`index, this`size
      ensures Indexed() && Items() == Without(old(Items()), old(list[p].key))
          && Items() == old(Items())[..p] + old(Items())[p + 1..]
      ensures size == old(size) - |old(list[p]).key| - |old(list[p]).data| && index == old(index) - {old(list[p].key)}
          && |list| == old(|list|) - 1
    {
      hide Agree, Total, Without;
      var item := list[p];
      ErasedItem(list, index, p);
      AgreeErased(list, index, p);
      SplitAt(Items(), p);
      size := size - (|item.key| + |item.data|);
      list := list[..p] + list[p + 1..];
      index := index - {item.key};
    }

    method PushFront(item: CacheItem)
      requires Indexed() && item.key !in index
      modifies this`list, this`index, this`size
      ensures Indexed() && Items() == [Item(item.key, item.data)] + old(Items())
      ensures size == old(size) + |item.key| + |item.data|
    {
      hide Agree, Total;
      AgreePushed(list, index, item);
      TotalSplit([Item(item.key, item.data)], Items());
      OneItem(Item(item.key, item.data));
      list := [item] + list;
      index := index[item.key := item];
      size := size + (|item.key| + |item.data|);
    }

    /** An item larger than the cache is ignored. Any other goes to the front, in place of the old one of its key, and
        items are evicted from the back until the rest fits: what stays is the longest prefix that does. */
    method Put(key: Str, data: seq<Byte>)
      requires Valid()
      modifies this
      ensures Valid() && hits == old(hits) && misses == old(misses)
      ensures |key| + |data| > capacity ==> Items() == old(Items())
      ensures |key| + |data| <= capacity ==>
        && LongestFit([Item(key, data)] + Without(old(Items()), key), capacity, Items())
        && Items() != [] && Items()[0] == Item(key, data)
      ensures Items() == After(old(Items()), PutOp(key, data), capacity)
    {
      hide Agree, Total, Find, Without, Values, Fit, LongestFit;
      if |key| + |data| > capacity {
        return;
      }
      if key in index {
        var p := Position(key);
        Erase(p);
      } else {
        MissingKey(list, index, key);
      }
      var item := new CacheItem(key, data);
      PushFront(item);
      OneItem(Item(key, data));
      FrontFits(Items());
      ghost var all := Items();
      Evict();
      FitIsLongest(all, capacity, Items());
      FitIsPrefix(all, capacity, Items());
    }

    /** The eviction loop. The first item stays if it fits. */
    method Evict()
      requires Indexed()
      modifies this`list, this`index, this`size
      ensures Valid() && LongestFit(old(Items()), capacity, Items())
      ensures old(Items()) != [] && Total(old(Items())[..1]) <= capacity ==> Items() != []
    {
      hide Agree, Without, Total;
      ghost var all := Items();
      assert all[..|all|] == all;
      while size > capacity && list != []
        invariant Indexed() && Items() <= all
        invariant |list| < |all| ==> Total(all[..|list| + 1]) > capacity
        decreases |list|
      {
        ghost var n := |list| - 1;
        assert all[..n + 1] == Items();
        Erase(|list| - 1);
        assert Items() == all[..n];
      }
      NothingFits(Items());
      assert |list| == 0 && all != [] ==> Total(all[..1]) > capacity;
    }
  }

  lemma FrontFits(items: seq<Item>)
    ensures items != [] ==> items[..1] == [items[0]]
  {
  }

  lemma FitIsPrefix(items: seq<Item>, capacity: nat, r: seq<Item>)
    requires LongestFit(items, capacity, r)
    ensures r <= items
  {
  }

  lemma NothingFits(items: seq<Item>)
    ensures items == [] ==> Total(items) == 0
  {
  }

  lemma ErasedItem(list: seq<CacheItem>, index: map<Str, CacheItem>, p: nat)
    requires Agree(list, index) && p < |list|
    ensures Without(Values(list), list[p].key) == Values(list)[..p] + Values(list)[p + 1..]
  {
    WithoutAt(Values(list), list[p].key, p);
  }

  lemma SplitAt(items: seq<Item>, p: nat)
    requires p < |items|
    ensures Total(items) == Total(items[..p] + items[p + 1..]) + Size(items[p])
  {
    hide Total;
    assert items == (items[..p] + [items[p]]) + items[p + 1..];
    TotalSplit(items[..p] + [items[p]], items[p + 1..]);
    TotalSplit(items[..p], [items[p]]);
    TotalSplit(items[..p], items[p + 1..]);
    OneItem(items[p]);
  }

  lemma OneItem(i: Item)
    ensures Total([i]) == Size(i)
  {
  }

  // ---- whole runs ----

  datatype Operation = GetOp(key: Str) | PutOp(key: Str, data: seq<Byte>)

  function Fit(items: seq<Item>, capacity: nat): (r: seq<Item>)
    ensures r <= items
  {
    if Total(items) <= capacity || items == [] then items else Fit(items[..|items| - 1], capacity)
  }

  /** The recency list after one operation. */
  function After(items: seq<Item>, op: Operation, capacity: nat): seq<Item> {
    match op
    case GetOp(k) => if Find(items, k).Some? then [Item(k, Find(items, k).value)] + Without(items, k) else items
    case PutOp(k, d) => if |k| + |d| > capacity then items else Fit([Item(k, d)] + Without(items, k), capacity)
  }

  function AfterAll(ops: seq<Operation>, capacity: nat): seq<Item> {
    if ops == [] then [] else After(AfterAll(ops[..|ops| - 1], capacity), ops[|ops| - 1], capacity)
  }

  /** The data of the last put of a key that was small enough for the cache. */
  function LastKept(ops: seq<Operation>, key: Str, capacity: nat): Option<seq<Byte>> {
    if ops == [] then None else
    var op := ops[|ops| - 1];
    if op.PutOp? && op.key == key && |key| + |op.data| <= capacity then Some(op.data)
        else LastKept(ops[..|ops| - 1], key, capacity)
  }

  /** `LongestFit` leaves no choice. */
  lemma FitIsLongest(items: seq<Item>, capacity: nat, r: seq<Item>)
    ensures LongestFit(items, capacity, Fit(items, capacity))
    ensures LongestFit(items, capacity, r) ==> r == Fit(items, capacity)
  {
    hide Total, Fit, LongestFit;
    FitIsFit(items, capacity);
    if LongestFit(items, capacity, r) {
      SameFit(items, capacity, r, Fit(items, capacity));
    }
  }

  lemma {:induction false} FitIsFit(items: seq<Item>, capacity: nat)
    ensures LongestFit(items, capacity, Fit(items, capacity))
  {
    NothingFits(items);
    hide Total;
    if Total(items) > capacity {
      var n := |items| - 1;
      FitIsFit(items[..n], capacity);
      var fit := Fit(items[..n], capacity);
      assert |fit| < n ==> items[..n][..|fit| + 1] == items[..|fit| + 1];
      assert items[..n + 1] == items;
    }
  }

  lemma SameFit(items: seq<Item>, capacity: nat, a: seq<Item>, b: seq<Item>)
    requires LongestFit(items, capacity, a) && LongestFit(items, capacity, b)
    ensures a == b
  {
    if |a| < |b| {
      PrefixTotal(items[..|a| + 1], b);
    } else if |b| < |a| {
      PrefixTotal(items[..|b| + 1], a);
    }
    assert a == items[..|a|] && b == items[..|b|];
  }

  lemma PrefixTotal(a: seq<Item>, b: seq<Item>)
    requires a <= b
    ensures Total(a) <= Total(b)
  {
    assert b == a + b[|a|..];
    TotalSplit(a, b[|a|..]);
  }

  lemma {:induction false} FindPrefix(a: seq<Item>, b: seq<Item>, key: Str)
    requires a <= b
    ensures Find(a, key).Some? ==> Find(b, key) == Find(a, key)
  {
    if a != [] {
      FindPrefix(a[1..], b[1..], key);
    }
  }

  lemma {:induction false} FindWithout(items: seq<Item>, key: Str, other: Str)
    requires key != other
    ensures Find(Without(items, other), key) == Find(items, key)
  {
    if items != [] {
      var rest := Without(items[1..], other);
      FindWithout(items[1..], key, other);
      assert [] + rest == rest && ([items[0]] + rest)[1..] == rest;
    }
  }

  /** The list after an operation has distinct keys, and finds the new data under the operation's key and the old
      data under any other. */
  lemma AfterFinds(items: seq<Item>, op: Operation, capacity: nat, key: Str)
    requires Distinct(items)
    ensures var items' := After(items, op, capacity);
      && Distinct(items')
      && (Find(items', key).Some? ==>
            if op.PutOp? && op.key == key && |key| + |op.data| <= capacity then Find(items', key) == Some(op.data)
            else Find(items', key) == Find(items, key))
  {
    hide Find, Fit, Total;
    var front := [Item(op.key, if op.PutOp? then op.data else if Find(items, op.key).Some?
        then Find(items, op.key).value else [])];
    var all := front + Without(items, op.key);
    WithoutKeys(items, op.key);
    assert Distinct(all) by {
      assert forall i :: 0 <= i < |Without(items, op.key)| ==> Without(items, op.key)[i] in Without(items, op.key);
    }
    FindFront(front[0], Without(items, op.key), key);
    FindPrefix(Fit(all, capacity), all, key);
    if key != op.key {
      FindWithout(items, key, op.key);
    }
  }

  lemma FindFront(front: Item, items: seq<Item>, key: Str)
    ensures Find([front] + items, key) == if front.key == key then Some(front.data) else Find(items, key)
  {
  }

  /** In every run a hit returns the data last kept for its key, never another's and never older. */
  lemma {:induction false} HitsAreCurrent(ops: seq<Operation>, key: Str, capacity: nat)
    ensures Distinct(AfterAll(ops, capacity))
    ensures Find(AfterAll(ops, capacity), key).Some? ==>
      Find(AfterAll(ops, capacity), key) == LastKept(ops, key, capacity)
  {
    hide Find, After, Distinct;
    if ops == [] {
      NothingCached(key);
    } else {
      var n := |ops| - 1;
      HitsAreCurrent(ops[..n], key, capacity);
      AfterFinds(AfterAll(ops[..n], capacity), ops[n], capacity, key);
    }
  }

  /** When a key was last used: the last time it was asked for, or put and small enough to be kept. */
  function LastUse(ops: seq<Operation>, key: Str, capacity: nat): (n: int)
    ensures -1 <= n < |ops|
  {
    if ops == [] then -1 else
    var op := ops[|ops| - 1];
    if op.key == key && (op.GetOp? || |key| + |op.data| <= capacity) then |ops| - 1
    else LastUse(ops[..|ops| - 1], key, capacity)
  }

  /** Items stand in the order of their last use, the latest first. */
  ghost predicate ByUse(items: seq<Item>, ops: seq<Operation>, capacity: nat) {
    forall i, j :: 0 <= i < j < |items| ==>
      LastUse(ops, items[i].key, capacity) > LastUse(ops, items[j].key, capacity)
  }

  /** In every run the list is ordered by last use, so what is evicted was used the longest ago. */
  lemma {:induction false} LeastRecentGoes(ops: seq<Operation>, capacity: nat)
    ensures ByUse(AfterAll(ops, capacity), ops, capacity)
  {
    hide After, Distinct;
    if ops != [] {
      var n := |ops| - 1;
      LeastRecentGoes(ops[..n], capacity);
      HitsAreCurrent(ops[..n], ops[n].key, capacity);
      AfterByUse(AfterAll(ops[..n], capacity), ops, capacity);
    }
  }

  lemma AfterByUse(items: seq<Item>, ops: seq<Operation>, capacity: nat)
    requires ops != [] && Distinct(items) && ByUse(items, ops[..|ops| - 1], capacity)
    ensures ByUse(After(items, ops[|ops| - 1], capacity), ops, capacity)
  {
    hide Fit, Total, Find, LastUse, ByUse, Distinct;
    var n := |ops| - 1;
    var op, rest := ops[n], Without(items, ops[n].key);
    if op.GetOp? && Find(items, op.key).None? {
      FindNone(items, op.key);
      OthersByUse(items, ops, capacity);
    } else if op.PutOp? && |op.key| + |op.data| > capacity {
      OthersByUse(items, ops, capacity);
    } else {
      WithoutByUse(items, ops[..n], op.key, capacity);
      WithoutKeys(items, op.key);
      OthersByUse(rest, ops, capacity);
      var front := Item(op.key, if op.PutOp? then op.data else Find(items, op.key).value);
      FrontByUse(front, rest, ops, capacity);
      PrefixByUse(Fit([front] + rest, capacity), [front] + rest, ops, capacity);
    }
  }

  /** An operation that uses none of these keys leaves their order. */
  lemma OthersByUse(items: seq<Item>, ops: seq<Operation>, capacity: nat)
    requires ops != [] && ByUse(items, ops[..|ops| - 1], capacity)
    requires var op := ops[|ops| - 1];
      (forall i :: 0 <= i < |items| ==> items[i].key != op.key) || (op.PutOp? && |op.key| + |op.data| > capacity)
    ensures ByUse(items, ops, capacity)
  {
    forall i | 0 <= i < |items|
      ensures LastUse(ops, items[i].key, capacity) == LastUse(ops[..|ops| - 1], items[i].key, capacity)
    {
    }
    hide LastUse;
  }

  /** The key just used comes first. */
  lemma FrontByUse(front: Item, rest: seq<Item>, ops: seq<Operation>, capacity: nat)
    requires ops != [] && ByUse(rest, ops, capacity) && forall i :: 0 <= i < |rest| ==> rest[i].key != front.key
    requires var op := ops[|ops| - 1];
      op.key == front.key && (op.PutOp? ==> |op.key| + |op.data| <= capacity)
    ensures ByUse([front] + rest, ops, capacity)
  {
    var n := |ops| - 1;
    assert LastUse(ops, front.key, capacity) == n;
    forall i | 0 <= i < |rest| ensures LastUse(ops, rest[i].key, capacity) < n {
    }
    hide LastUse;
  }

  lemma PrefixByUse(a: seq<Item>, b: seq<Item>, ops: seq<Operation>, capacity: nat)
    requires a <= b && ByUse(b, ops, capacity)
    ensures ByUse(a, ops, capacity)
  {
    hide LastUse;
  }

  lemma {:induction false} FindNone(items: seq<Item>, key: Str)
    requires Find(items, key).None?
    ensures forall i :: 0 <= i < |items| ==> items[i].key != key
  {
    if items != [] {
      FindNone(items[1..], key);
    }
  }

  lemma WithoutByUse(items: seq<Item>, ops: seq<Operation>, key: Str, capacity: nat)
    requires Distinct(items) && ByUse(items, ops, capacity)
    ensures ByUse(Without(items, key), ops, capacity)
  {
    hide LastUse;
    if p :| 0 <= p < |items| && items[p].key == key {
      WithoutAt(items, key, p);
    } else {
      WithoutAbsent(items, key);
    }
  }

  lemma NothingCached(key: Str)
    ensures Find([], key).None? && Distinct([])
  {
  }
}
