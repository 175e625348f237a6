/** The memtable's skip list: heap nodes linked on up to twelve levels
    (src/storage/memtable/skip_list.cpp). */
module SkipLists {
  import opened Common
  import opened Bytes
  import opened Tables

  const MAX_HEIGHT: nat := 12

  /** The sizes the memory estimate is made of: sizeof(SkipList), sizeof(SkipListNode), sizeof(SkipListNode*). */
  datatype Sizes = Sizes(list: nat, node: nat, link: nat)

  class Node {
    const key: Str
    const height: nat
    var tombstone: bool
    var data: seq<Byte>
    var forward: seq<Node?>

    constructor (key: Str, tombstone: bool, data: seq<Byte>, height: nat)
      ensures this.key == key && this.height == height
      ensures this.tombstone == tombstone && this.data == data
      ensures forward == seq(height, _ => null)
    {
      this.key, this.height, this.tombstone, this.data := key, height, tombstone, data;
      forward := seq(height, _ => null);
    }
  }

  // ---- the intended links, as functions of the list of nodes in key order ----

  /** The first node at position `q` or later that reaches level `i`. */
  ghost function NextAt(nodes: seq<Node>, q: nat, i: nat): (n: Node?)
    requires q <= |nodes|
    ensures n != null ==> n in nodes && n.height > i
    decreases |nodes| - q
  {
    if q == |nodes| then null else if nodes[q].height > i then nodes[q] else NextAt(nodes, q + 1, i)
  }

  /** One past the last position before `p` whose node reaches level `i`; 0 stands for the head. */
  ghost function PrevIndex(nodes: seq<Node>, p: nat, i: nat): (c: nat)
    requires p <= |nodes|
    ensures c <= p && (c > 0 ==> nodes[c - 1].height > i)
    ensures forall d :: c <= d < p ==> nodes[d].height <= i
  {
    if p == 0 then 0 else if nodes[p - 1].height > i then p else PrevIndex(nodes, p - 1, i)
  }

  /** The node before position `c`. */
  ghost function Before(head: Node, nodes: seq<Node>, c: nat): Node
    requires c <= |nodes|
  {
    if c == 0 then head else nodes[c - 1]
  }

  /** The number of nodes whose key is less than `key`. */
  ghost function Rank(nodes: seq<Node>, key: Str, q: nat): (p: nat)
    requires q <= |nodes| && forall c :: 0 <= c < q ==> Less(nodes[c].key, key)
    ensures p <= |nodes| && forall c :: 0 <= c < p ==> Less(nodes[c].key, key)
    ensures p < |nodes| ==> !Less(nodes[p].key, key)
    decreases |nodes| - q
  {
    if q == |nodes| || !Less(nodes[q].key, key) then q else Rank(nodes, key, q + 1)
  }

  ghost predicate SortedNodes(nodes: seq<Node>) {
    forall i, j :: 0 <= i < j < |nodes| ==> Less(nodes[i].key, nodes[j].key)
  }

  /** Where `NextAt` leads after skipping nodes that do not reach the level. */
  lemma {:induction false} NextAtSkips(nodes: seq<Node>, c: nat, p: nat, i: nat)
    requires c <= p <= |nodes| && forall d :: c <= d < p ==> nodes[d].height <= i
    ensures NextAt(nodes, c, i) == NextAt(nodes, p, i)
    decreases p - c
  {
    if c < p {
      NextAtSkips(nodes, c + 1, p, i);
    }
  }

  lemma {:induction false} NextAtIndex(nodes: seq<Node>, c: nat, i: nat) returns (d: nat)
    requires c <= |nodes| && NextAt(nodes, c, i) != null
    ensures c <= d < |nodes| && nodes[d] == NextAt(nodes, c, i)
    ensures forall x :: c <= x < d ==> nodes[x].height <= i
    decreases |nodes| - c
  {
    if nodes[c].height > i {
      d := c;
    } else {
      d := NextAtIndex(nodes, c + 1, i);
    }
  }

  /** If level `i` offers no smaller key from position `c` on, the level's last smaller node is before `c`. */
  lemma SearchStops(nodes: seq<Node>, key: Str, c: nat, p: nat, i: nat)
    requires SortedNodes(nodes) && c <= p <= |nodes|
    requires forall d :: 0 <= d < p ==> Less(nodes[d].key, key)
    requires c > 0 ==> nodes[c - 1].height > i
    requires NextAt(nodes, c, i) == null || !Less(NextAt(nodes, c, i).key, key)
    ensures PrevIndex(nodes, p, i) == c
  {
    var b := PrevIndex(nodes, p, i);
    if c < b {
      NextAtSkipsTo(nodes, c, b - 1, i);
    }
  }

  lemma {:induction false} NextAtSkipsTo(nodes: seq<Node>, c: nat, d: nat, i: nat)
    requires c <= d < |nodes| && nodes[d].height > i
    ensures exists x :: c <= x <= d && NextAt(nodes, c, i) == nodes[x]
    decreases d - c
  {
    if nodes[c].height <= i {
      NextAtSkipsTo(nodes, c + 1, d, i);
    }
  }

  ghost function Inserted(nodes: seq<Node>, p: nat, n: Node): seq<Node>
    requires p <= |nodes|
  {
    nodes[..p] + [n] + nodes[p..]
  }

  /** Links from before the insertion point: only the level's last node before it is redirected. */
  lemma {:induction false} InsertedNext(nodes: seq<Node>, p: nat, n: Node, c: nat, i: nat)
    requires c <= p <= |nodes|
    ensures NextAt(Inserted(nodes, p, n), c, i)
         == if i < n.height && PrevIndex(nodes, p, i) <= c then n else NextAt(nodes, c, i)
    decreases p - c
  {
    var nodes' := Inserted(nodes, p, n);
    if c < p {
      InsertedNext(nodes, p, n, c + 1, i);
      assert nodes'[c] == nodes[c];
      assert PrevIndex(nodes, p, i) == c ==> nodes[c].height <= i;
    } else {
      assert nodes'[p] == n;
      InsertedNextAfter(nodes, p, n, p, i);
    }
  }

  lemma {:induction false} InsertedNextAfter(nodes: seq<Node>, p: nat, n: Node, c: nat, i: nat)
    requires p <= c <= |nodes|
    ensures NextAt(Inserted(nodes, p, n), c + 1, i) == NextAt(nodes, c, i)
    decreases |nodes| - c
  {
    if c < |nodes| {
      assert Inserted(nodes, p, n)[c + 1] == nodes[c];
      InsertedNextAfter(nodes, p, n, c + 1, i);
    }
  }

  // ---- memory accounting ----

  datatype Cell = Cell(entry: Entry, height: nat)

  function CellSize(sizes: Sizes, c: Cell): nat {
    sizes.node + |c.entry.key| + |c.entry.value| + c.height * sizes.link
  }

  function Usage(sizes: Sizes, cells: seq<Cell>): nat {
    if cells == [] then 0 else CellSize(sizes, cells[0]) + Usage(sizes, cells[1..])
  }

  lemma {:induction false} UsageSplit(sizes: Sizes, a: seq<Cell>, b: seq<Cell>)
    ensures Usage(sizes, a + b) == Usage(sizes, a) + Usage(sizes, b)
  {
    if a == [] {
      assert a + b == b;
    } else {
      UsageSplit(sizes, a[1..], b);
      assert (a + b)[1..] == a[1..] + b;
    }
  }

  lemma UsageInsert(sizes: Sizes, cells: seq<Cell>, p: nat, c: Cell)
    requires p <= |cells|
    ensures Usage(sizes, cells[..p] + [c] + cells[p..]) == Usage(sizes, cells) + CellSize(sizes, c)
  {
    assert cells == cells[..p] + cells[p..];
    UsageSplit(sizes, cells[..p], cells[p..]);
    UsageSplit(sizes, cells[..p], [c]);
    UsageSplit(sizes, cells[..p] + [c], cells[p..]);
  }

  /** A new value for an old key moves the estimate by the difference of the value sizes. */
  lemma UsageUpdate(sizes: Sizes, cells: seq<Cell>, p: nat, c: Cell)
    requires p < |cells| && c.height == cells[p].height && |c.entry.key| == |cells[p].entry.key|
    ensures Usage(sizes, cells) >= |cells[p].entry.value|
    ensures Usage(sizes, cells[p := c]) == Usage(sizes, cells) - |cells[p].entry.value| + |c.entry.value|
  {
    var rest := cells[..p] + cells[p + 1..];
    assert rest[..p] == cells[..p] && rest[p..] == cells[p + 1..];
    UsageInsert(sizes, rest, p, cells[p]);
    UsageInsert(sizes, rest, p, c);
    assert rest[..p] + [cells[p]] + rest[p..] == cells;
    assert rest[..p] + [c] + rest[p..] == cells[p := c];
  }

  // ---- the list ----

  ghost function CellsOf(nodes: seq<Node>): (cs: seq<Cell>)
    reads nodes
    ensures |cs| == |nodes|
  {
    seq(|nodes|, i requires 0 <= i < |nodes| reads nodes =>
      Cell(Entry(nodes[i].key, nodes[i].data, nodes[i].tombstone), nodes[i].height))
  }

  ghost function EntriesOf(nodes: seq<Node>): (es: seq<Entry>)
    reads nodes
    ensures |es| == |nodes|
  {
    seq(|nodes|, i requires 0 <= i < |nodes| reads nodes =>
      Entry(nodes[i].key, nodes[i].data, nodes[i].tombstone))
  }

  /** Every level is the sublist, in key order, of the nodes that reach it. */
  ghost predicate Linked(head: Node, nodes: seq<Node>)
    reads head`forward, nodes`forward
  {
    && head.height == |head.forward| == MAX_HEIGHT
    && (forall i :: 0 <= i < MAX_HEIGHT ==> head.forward[i] == NextAt(nodes, 0, i))
    && (forall c :: 0 <= c < |nodes| ==> nodes[c].height == |nodes[c].forward|)
    && (forall c, i :: 0 <= c < |nodes| && 0 <= i < nodes[c].height ==> nodes[c].forward[i] == NextAt(nodes, c + 1, i))
  }

  ghost predicate Shape(head: Node, nodes: seq<Node>, maxHeight: nat) {
    && head !in nodes && SortedNodes(nodes)
    && 1 <= maxHeight <= MAX_HEIGHT
    && (forall c :: 0 <= c < |nodes| ==> 1 <= nodes[c].height <= maxHeight)
  }

  ghost predicate Clean(nodes: seq<Node>)
    reads nodes`tombstone, nodes`data
  {
    forall c :: 0 <= c < |nodes| && nodes[c].tombstone ==> nodes[c].data == []
  }

  /** `update` holds, for each of the lowest `levels` levels, the node to link a new node at `p` behind. */
  ghost predicate Predecessors(head: Node, nodes: seq<Node>, p: nat, levels: nat, update: seq<Node?>)
    requires p <= |nodes|
  {
    |update| == MAX_HEIGHT && levels <= MAX_HEIGHT
    && forall i :: 0 <= i < levels ==> update[i] == Before(head, nodes, PrevIndex(nodes, p, i))
  }

  /** The links after the lowest `levels` levels of a new node at `p` have been linked in. */
  ghost predicate PartlyLinked(head: Node, nodes: seq<Node>, p: nat, node: Node, levels: nat)
    requires p <= |nodes|
    reads head`forward, nodes`forward, node`forward
  {
    && head.height == MAX_HEIGHT && node.height == |node.forward|
    && (forall i :: 0 <= i < levels && i < node.height ==> node.forward[i] == NextAt(nodes, p, i))
    && (forall c :: 0 <= c <= |nodes| ==> PartlyAt(head, nodes, p, node, levels, c))
  }

  /** The same of the node before position `c`. */
  ghost predicate PartlyAt(head: Node, nodes: seq<Node>, p: nat, node: Node, levels: nat, c: nat)
    requires p <= |nodes| && c <= |nodes|
    reads head`forward, nodes`forward
  {
    var n := Before(head, nodes, c);
    n.height == |n.forward| && forall i :: 0 <= i < n.height ==>
      n.forward[i] == if i < levels && i < node.height && PrevIndex(nodes, p, i) == c then node else NextAt(nodes, c, i)
  }

  lemma PartlyLinkedStart(head: Node, nodes: seq<Node>, p: nat, node: Node)
    requires Linked(head, nodes) && p <= |nodes| && node.height == |node.forward|
    ensures PartlyLinked(head, nodes, p, node, 0)
  {
    hide NextAt, PrevIndex;
    forall c | 0 <= c <= |nodes| ensures PartlyAt(head, nodes, p, node, 0, c) {
    }
  }

  /** The links of the node before position `c`. */
  ghost predicate LinkedFrom(head: Node, nodes: seq<Node>, c: nat)
    requires c <= |nodes|
    reads head`forward, nodes`forward
  {
    var n := Before(head, nodes, c);
    n.height == |n.forward| && forall i :: 0 <= i < n.height ==> n.forward[i] == NextAt(nodes, c, i)
  }

  lemma LinkedFromAll(head: Node, nodes: seq<Node>)
    requires head.height == MAX_HEIGHT && forall c :: 0 <= c <= |nodes| ==> LinkedFrom(head, nodes, c)
    ensures Linked(head, nodes)
  {
    hide NextAt;
    assert LinkedFrom(head, nodes, 0);
    forall c | 0 <= c < |nodes|
      ensures nodes[c].height == |nodes[c].forward|
      ensures forall i :: 0 <= i < nodes[c].height ==> nodes[c].forward[i] == NextAt(nodes, c + 1, i)
    {
      assert LinkedFrom(head, nodes, c + 1);
    }
  }

  lemma PartlyLinkedAt(head: Node, nodes: seq<Node>, p: nat, node: Node, c: nat)
    requires p <= |nodes| && c <= |nodes| + 1 && PartlyLinked(head, nodes, p, node, node.height)
    ensures LinkedFrom(head, Inserted(nodes, p, node), c) && head.height == MAX_HEIGHT
  {
    hide NextAt, PrevIndex;
    var nodes' := Inserted(nodes, p, node);
    var n := Before(head, nodes', c);
    if c <= p {
      assert n == Before(head, nodes, c) && PartlyAt(head, nodes, p, node, node.height, c);
      forall i | 0 <= i < n.height ensures n.forward[i] == NextAt(nodes', c, i) {
        InsertedNext(nodes, p, node, c, i);
        if c > 0 {
          PrevIndexReaches(nodes, p, c - 1, i);
        }
      }
    } else {
      assert c == p + 1 ==> n == node;
      assert c > p + 1 ==> n == Before(head, nodes, c - 1) && PartlyAt(head, nodes, p, node, node.height, c - 1);
      forall i | 0 <= i < n.height ensures n.forward[i] == NextAt(nodes', c, i) {
        InsertedNextAfter(nodes, p, node, c - 1, i);
        PrevIndexAtMost(nodes, p, i);
      }
    }
  }

  lemma PartlyLinkedEnd(head: Node, nodes: seq<Node>, p: nat, node: Node)
    requires p <= |nodes| && PartlyLinked(head, nodes, p, node, node.height)
    ensures Linked(head, Inserted(nodes, p, node))
  {
    hide NextAt, PrevIndex, PartlyLinked, Before;
    var nodes' := Inserted(nodes, p, node);
    forall c | 0 <= c <= |nodes'| ensures LinkedFrom(head, nodes', c) {
      PartlyLinkedAt(head, nodes, p, node, c);
    }
    PartlyLinkedAt(head, nodes, p, node, 0);
    LinkedFromAll(head, nodes');
  }

  lemma PrevIndexReaches(nodes: seq<Node>, p: nat, c: nat, i: nat)
    requires c < p <= |nodes| && nodes[c].height > i
    ensures PrevIndex(nodes, p, i) >= c + 1
  {
  }

  lemma PrevIndexAtMost(nodes: seq<Node>, p: nat, i: nat)
    requires p <= |nodes|
    ensures PrevIndex(nodes, p, i) <= p
  {
  }

  lemma SortedEntries(nodes: seq<Node>)
    requires SortedNodes(nodes)
    ensures Sorted(EntriesOf(nodes))
  {
    hide Less;
  }

  lemma InsertedShape(head: Node, nodes: seq<Node>, maxHeight: nat, p: nat, node: Node)
    requires Shape(head, nodes, maxHeight) && p <= |nodes| && p == Rank(nodes, node.key, 0)
    requires p < |nodes| ==> nodes[p].key != node.key
    requires node != head && 1 <= node.height <= maxHeight
    ensures Shape(head, Inserted(nodes, p, node), maxHeight)
  {
    hide Less, Rank;
    forall i, j | 0 <= i < j <= |nodes| ensures Less(Inserted(nodes, p, node)[i].key, Inserted(nodes, p, node)[j].key) {
      if i == p {
        LessTotal(nodes[p].key, node.key);
        if p < j - 1 {
          LessTrans(node.key, nodes[p].key, nodes[j - 1].key);
        }
      } else if p < j && p < |nodes| && i < p {
        assert Less(nodes[i].key, nodes[p].key);
      }
    }
  }

  lemma BeforeReaches(head: Node, nodes: seq<Node>, p: nat, i: nat)
    requires p <= |nodes| && i < head.height
    ensures Before(head, nodes, PrevIndex(nodes, p, i)).height > i
  {
  }

  lemma BeforeIsListed(head: Node, nodes: seq<Node>, c: nat)
    requires c <= |nodes|
    ensures Before(head, nodes, c) == head || Before(head, nodes, c) in nodes
  {
  }

  /** Distinct positions stand for distinct nodes, the head included. */
  lemma BeforeInjective(head: Node, nodes: seq<Node>, b: nat)
    requires head !in nodes && SortedNodes(nodes) && b <= |nodes|
    ensures forall c :: 0 <= c <= |nodes| && c != b ==> Before(head, nodes, c) != Before(head, nodes, b)
  {
    if b > 0 {
      DistinctNodes(nodes, b - 1);
    }
  }

  /** Relinking changes no contents. */
  twostate lemma RelinkKeepsContents(nodes: seq<Node>)
    requires forall n :: n in nodes ==> n.data == old(n.data) && n.tombstone == old(n.tombstone)
    ensures CellsOf(nodes) == old(CellsOf(nodes)) && EntriesOf(nodes) == old(EntriesOf(nodes))
  {
    assert forall i :: 0 <= i < |nodes| ==> nodes[i] in nodes;
  }

  lemma InsertedContents(nodes: seq<Node>, p: nat, node: Node)
    requires p <= |nodes| && Clean(nodes) && (node.tombstone ==> node.data == [])
    ensures Clean(Inserted(nodes, p, node))
    ensures var e := Entry(node.key, node.data, node.tombstone);
            && CellsOf(Inserted(nodes, p, node)) == CellsOf(nodes)[..p] + [Cell(e, node.height)] + CellsOf(nodes)[p..]
            && EntriesOf(Inserted(nodes, p, node)) == EntriesOf(nodes)[..p] + [e] + EntriesOf(nodes)[p..]
  {
  }

  class SkipList {
    const sizes: Sizes
    const head: Node
    var maxHeight: nat
    var memoryUsage: nat
    ghost var nodes: seq<Node>  // every node but the head, in key order

    ghost function Repr(): set<object>
      reads this
    {
      {this, head} + set n | n in nodes
    }

    /** The contents in key order, tombstones included. */
    ghost function Entries(): (es: seq<Entry>)
      reads this, nodes
      ensures |es| == |nodes|
    {
      EntriesOf(nodes)
    }

    ghost predicate Valid()
      reads this, head, nodes
    {
      && Shape(head, nodes, maxHeight) && Linked(head, nodes) && Clean(nodes)
      && memoryUsage == sizes.list + sizes.node + MAX_HEIGHT * sizes.link + Usage(sizes, CellsOf(nodes))
    }

    constructor (sizes: Sizes)
      ensures Valid() && fresh(Repr()) && Entries() == [] && this.sizes == sizes
    {
      this.sizes := sizes;
      head := new Node([], false, [], MAX_HEIGHT);
      maxHeight := 1;
      memoryUsage := sizes.list + sizes.node + MAX_HEIGHT * sizes.link;
      nodes := [];
    }

    method RandomHeight() returns (height: nat)
      ensures 1 <= height <= MAX_HEIGHT
    {
      height := 1;
      while height < MAX_HEIGHT
        invariant 1 <= height <= MAX_HEIGHT
      {
        var grow: bool := *;  // rnd_() % 4 == 0
        if !grow {
          break;
        }
        height := height + 1;
      }
    }

    /** The search every operation starts with: on each level, the last node with a smaller key. */
    method FindPredecessors(key: Str) returns (update: seq<Node?>, ghost p: nat)
      requires Valid()
      ensures p == Rank(nodes, key, 0) && Predecessors(head, nodes, p, maxHeight, update)
    {
      hide Less, NextAt, PrevIndex, Usage;
      p := Rank(nodes, key, 0);
      update := seq(MAX_HEIGHT, _ => null);
      var current := head;
      ghost var c: nat := 0;
      var i := maxHeight;
      while i > 0
        invariant 0 <= i <= maxHeight && |update| == MAX_HEIGHT
        invariant c <= p && current == Before(head, nodes, c) && (c > 0 ==> current.height >= i)
        invariant forall j :: i <= j < maxHeight ==> update[j] == Before(head, nodes, PrevIndex(nodes, p, j))
      {
        i := i - 1;
        current, c := Walk(key, current, c, p, i);
        SearchStops(nodes, key, c, p, i);
        update := update[i := current];
      }
    }

    /** The inner loop of the search, on level `i`. */
    method Walk(key: Str, start: Node, ghost from: nat, ghost p: nat, i: nat) returns (current: Node, ghost c: nat)
      requires Valid() && i < maxHeight && p == Rank(nodes, key, 0)
      requires from <= p && start == Before(head, nodes, from) && (from > 0 ==> start.height > i)
      ensures from <= c <= p && current == Before(head, nodes, c) && (c > 0 ==> current.height > i)
      ensures NextAt(nodes, c, i) == null || !Less(NextAt(nodes, c, i).key, key)
    {
      hide Less, NextAt, Rank, Usage;
      current, c := start, from;
      while current.forward[i] != null && Less(current.forward[i].key, key)
        invariant from <= c <= p && current == Before(head, nodes, c) && (c > 0 ==> current.height > i)
        decreases |nodes| - c
      {
        ghost var d := NextAtIndex(nodes, c, i);
        SmallerIsBefore(nodes, key, p, d);
        current := current.forward[i];
        c := d + 1;
      }
    }

    method Get(key: Str) returns (r: Option<Entry>)
      requires Valid()
      ensures r == Lookup(Entries(), key)
    {
      hide Less, NextAt, PrevIndex, Usage, Rank;
      var update, p := FindPredecessors(key);
      AtRank(key, p);
      var found := update[0].forward[0];
      if found != null && found.key == key {
        LookupAt(Entries(), p);
        r := Some(Entry(found.key, found.data, found.tombstone));
      } else {
        AbsentAtRank(nodes, key, p);
        LookupSound(Entries(), key);
        r := None;
      }
    }

    method ApproximateMemoryUsage() returns (usage: nat)
      requires Valid()
      ensures usage == sizes.list + sizes.node + MAX_HEIGHT * sizes.link + Usage(sizes, CellsOf(nodes))
    {
      usage := memoryUsage;
    }

    method IsEmpty() returns (empty: bool)
      requires Valid()
      ensures empty <==> Entries() == []
    {
      empty := head.forward[0] == null;
    }

    method Begin() returns (it: Iterator)
      requires Valid()
      ensures fresh(it) && it.list == this && it.index == 0 && it.Positioned()
    {
      it := new Iterator(head.forward[0], this);
    }

    /** What the node after the level-0 predecessor is. */
    lemma AtRank(key: Str, p: nat)
      requires Valid() && p == Rank(nodes, key, 0)
      ensures |Before(head, nodes, PrevIndex(nodes, p, 0)).forward| > 0
      ensures Before(head, nodes, PrevIndex(nodes, p, 0)).forward[0] == if p < |nodes| then nodes[p] else null
      ensures Sorted(Entries())
    {
      hide Less, Usage, Rank;
      assert PrevIndex(nodes, p, 0) == p;
      SortedEntries(nodes);
    }

    method Put(key: Str, value: seq<Byte>)
      requires Valid()
      modifies this, head, nodes
      ensures Valid() && fresh(Repr() - old(Repr()))
      ensures Entries() == Upsert(old(Entries()), Entry(key, value, false))
    {
      hide Less, NextAt, PrevIndex, Usage, Upsert, Linked, Clean;
      var update, p := FindPredecessors(key);
      AtRank(key, p);
      var found := update[0].forward[0];
      UpsertAt(Entries(), Entry(key, value, false), p);
      if found != null && found.key == key {
        Overwrite(found, p, false, value);
      } else {
        var height := RandomHeight();
        Insert(update, p, key, false, value, height);
      }
    }

    method Delete(key: Str)
      requires Valid()
      modifies this, head, nodes
      ensures Valid() && fresh(Repr() - old(Repr()))
      ensures Entries() == Upsert(old(Entries()), Entry(key, [], true))
    {
      hide Less, NextAt, PrevIndex, Usage, Upsert, Linked;
      var update, p := FindPredecessors(key);
      AtRank(key, p);
      var found := update[0].forward[0];
      UpsertAt(Entries(), Entry(key, [], true), p);
      if found != null && found.key == key {
        if !found.tombstone {
          Overwrite(found, p, true, []);
        } else {
          assert Entries()[p := Entry(key, [], true)] == Entries();
        }
      } else {
        var height := RandomHeight();
        Insert(update, p, key, true, [], height);
      }
    }

    /** Replaces the value of an existing node and adjusts the estimate by the difference. */
    method Overwrite(node: Node, ghost p: nat, tombstone: bool, value: seq<Byte>)
      requires Valid() && p < |nodes| && node == nodes[p]
      requires tombstone ==> value == []
      modifies this`memoryUsage, node`data, node`tombstone
      ensures Valid() && nodes == old(nodes)
      ensures Entries() == old(Entries())[p := Entry(node.key, value, tombstone)]
    {
      hide Less, NextAt, Usage, Linked, SortedNodes;
      ghost var cells := CellsOf(nodes);
      UsageUpdate(sizes, cells, p, Cell(Entry(node.key, value, tombstone), node.height));
      DistinctNodes(nodes, p);
      memoryUsage := memoryUsage - |node.data|;
      node.tombstone := tombstone;
      node.data := value;
      memoryUsage := memoryUsage + |node.data|;
      assert CellsOf(nodes) == cells[p := Cell(Entry(node.key, value, tombstone), node.height)];
    }

    /** Links a new node of any height into every level it reaches. */
    method Insert(update0: seq<Node?>, ghost p: nat, key: Str, tombstone: bool, value: seq<Byte>, height: nat)
      requires Valid() && 1 <= height <= MAX_HEIGHT && p == Rank(nodes, key, 0)
      requires p < |nodes| ==> nodes[p].key != key
      requires tombstone ==> value == []
      requires Predecessors(head, nodes, p, maxHeight, update0)
      modifies this, head, nodes
      ensures Valid() && fresh(Repr() - old(Repr()))
      ensures Entries() == old(Entries())[..p] + [Entry(key, value, tombstone)] + old(Entries())[p..]
    {
      hide Less, NextAt, Usage, PrevIndex, Rank, Linked, PartlyLinked, Shape, Predecessors, CellsOf, EntriesOf, Clean;
      ghost var cells := CellsOf(nodes);
      var update := RaiseHeight(update0, p, height);
      var node := new Node(key, tombstone, value, height);
      Link(update, node, p);
      RelinkKeepsContents(nodes);
      InsertedShape(head, nodes, maxHeight, p, node);
      InsertedContents(nodes, p, node);
      PartlyLinkedEnd(head, nodes, p, node);
      UsageInsert(sizes, cells, p, Cell(Entry(key, value, tombstone), height));
      memoryUsage := memoryUsage + sizes.node + |key| + |value| + height * sizes.link;
      nodes := Inserted(nodes, p, node);
    }

    /** A node taller than the list makes the head its predecessor on the new levels. */
    method RaiseHeight(update0: seq<Node?>, ghost p: nat, height: nat) returns (update: seq<Node?>)
      requires Valid() && height <= MAX_HEIGHT && p <= |nodes|
      requires Predecessors(head, nodes, p, maxHeight, update0)
      modifies this`maxHeight
      ensures Valid() && maxHeight <= MAX_HEIGHT && maxHeight == if height > old(maxHeight) then height
          else old(maxHeight)
      ensures Predecessors(head, nodes, p, maxHeight, update)
    {
      hide Less, NextAt, Usage, Linked, Clean;
      update := update0;
      if height > maxHeight {
        var i := maxHeight;
        while i < height
          invariant maxHeight <= i <= height && Predecessors(head, nodes, p, i, update)
        {
          update := update[i := head];
          assert PrevIndex(nodes, p, i) == 0;
          i := i + 1;
        }
        maxHeight := height;
      }
    }

    method Link(update: seq<Node?>, node: Node, ghost p: nat)
      requires Shape(head, nodes, maxHeight) && Linked(head, nodes) && p <= |nodes|
      requires 1 <= node.height == |node.forward| <= maxHeight
      requires node !in nodes && node != head && Predecessors(head, nodes, p, maxHeight, update)
      modifies head`forward, nodes`forward, node`forward
      ensures PartlyLinked(head, nodes, p, node, node.height)
    {
      hide Less, NextAt, PrevIndex, Usage;
      PartlyLinkedStart(head, nodes, p, node);
      var i := 0;
      while i < node.height
        invariant i <= node.height && PartlyLinked(head, nodes, p, node, i)
      {
        LinkLevel(update[i], node, p, i);
        i := i + 1;
      }
    }

    method LinkLevel(prev: Node, node: Node, ghost p: nat, i: nat)
      requires Shape(head, nodes, maxHeight) && p <= |nodes| && i < node.height <= maxHeight
      requires node !in nodes && node != head && prev == Before(head, nodes, PrevIndex(nodes, p, i))
      requires PartlyLinked(head, nodes, p, node, i)
      modifies prev`forward, node`forward
      ensures PartlyLinked(head, nodes, p, node, i + 1)
    {
      hide Less, NextAt, PrevIndex, Usage, SortedNodes, Before;
      ghost var b := PrevIndex(nodes, p, i);
      BeforeInjective(head, nodes, b);
      BeforeReaches(head, nodes, p, i);
      BeforeIsListed(head, nodes, b);
      NextAtSkips(nodes, b, p, i);
      assert PartlyAt(head, nodes, p, node, i, b);
      assert prev.forward[i] == NextAt(nodes, b, i);
      node.forward := node.forward[i := prev.forward[i]];
      prev.forward := prev.forward[i := node];
      ghost var levels := i + 1;
      forall c | 0 <= c <= |nodes| ensures PartlyAt(head, nodes, p, node, levels, c) {
        BeforeIsListed(head, nodes, c);
        assert old(PartlyAt(head, nodes, p, node, i, c));
      }
    }
  }

  /** Walks level 0 from the first node. */
  class Iterator {
    var current: Node?
    ghost const list: SkipList
    ghost var index: nat

    ghost predicate Positioned()
      reads this, list, list.head, list.nodes
    {
      && list.Valid() && index <= |list.nodes|
      && current == if index < |list.nodes| then list.nodes[index] else null
    }

    constructor (node: Node?, ghost list: SkipList)
      requires list.Valid() && node == NextAt(list.nodes, 0, 0)
      ensures this.list == list && index == 0 && Positioned()
    {
      current := node;
      this.list := list;
      index := 0;
    }

    predicate Valid()
      reads this
    {
      current != null
    }

    method Next()
      requires Positioned() && Valid()
      modifies this
      ensures Positioned() && index == old(index) + 1
    {
      current := current.forward[0];
      index := index + 1;
    }

    /** The entry under the iterator: `Key()` with `Value()`. */
    function Current(): (e: Entry)
      requires Positioned() && Valid()
      reads this, list, list.head, list.nodes
      ensures e == list.Entries()[index]
    {
      Entry(current.key, current.data, current.tombstone)
    }
  }

  lemma SmallerIsBefore(nodes: seq<Node>, key: Str, p: nat, d: nat)
    requires SortedNodes(nodes) && p == Rank(nodes, key, 0) && d < |nodes| && Less(nodes[d].key, key)
    ensures d < p
  {
    OrderFacts();
    hide Less, Rank;
  }

  lemma AbsentAtRank(nodes: seq<Node>, key: Str, p: nat)
    requires SortedNodes(nodes) && p == Rank(nodes, key, 0)
    requires p < |nodes| ==> nodes[p].key != key
    ensures forall c :: 0 <= c < |nodes| ==> nodes[c].key != key
  {
    OrderFacts();
    hide Less, Rank;
  }

  lemma DistinctNodes(nodes: seq<Node>, p: nat)
    requires SortedNodes(nodes) && p < |nodes|
    ensures forall c :: 0 <= c < |nodes| && c != p ==> nodes[c] != nodes[p]
  {
    OrderFacts();
    hide Less;
  }

  // ---- the links of a valid list ----

  /** The nodes reaching level `i`, in key order. */
  ghost function Level(nodes: seq<Node>, i: nat): seq<Node> {
    if nodes == [] then []
    else (if nodes[0].height > i then [nodes[0]] else []) + Level(nodes[1..], i)
  }

  /** Following level-`i` links from `n` visits exactly `list` and then ends. */
  ghost predicate Chain(n: Node?, i: nat, list: seq<Node>)
    reads list
  {
    if list == [] then n == null
    else n == list[0] && i < |list[0].forward| && Chain(list[0].forward[i], i, list[1..])
  }

  lemma {:induction false} LevelIn(nodes: seq<Node>, i: nat, n: Node)
    ensures n in Level(nodes, i) <==> n in nodes && n.height > i
  {
    if nodes != [] {
      LevelIn(nodes[1..], i, n);
      assert nodes == [nodes[0]] + nodes[1..];
    }
  }

  lemma {:induction false} LevelSorted(nodes: seq<Node>, i: nat)
    requires SortedNodes(nodes)
    ensures SortedNodes(Level(nodes, i))
  {
    hide Less;
    if nodes != [] {
      LevelSorted(nodes[1..], i);
      forall n: Node | n in Level(nodes[1..], i) ensures Less(nodes[0].key, n.key) {
        LevelIn(nodes[1..], i, n);
        var d :| 0 <= d < |nodes[1..]| && nodes[1..][d] == n;
        assert nodes[d + 1] == n;
      }
    }
  }

  /** Each level is the level below without the nodes that end there. */
  lemma {:induction false} LevelOfLevel(nodes: seq<Node>, i: nat, j: nat)
    requires i <= j
    ensures Level(Level(nodes, i), j) == Level(nodes, j)
  {
    if nodes != [] {
      LevelOfLevel(nodes[1..], i, j);
      var rest := Level(nodes[1..], i);
      if nodes[0].height > i {
        assert ([nodes[0]] + rest)[1..] == rest;
      } else {
        assert [] + rest == rest;
      }
    }
  }

  lemma {:induction false} ChainFrom(head: Node, nodes: seq<Node>, c: nat, i: nat)
    requires Linked(head, nodes) && c <= |nodes|
    ensures Chain(NextAt(nodes, c, i), i, Level(nodes[c..], i))
    decreases |nodes| - c
  {
    if c < |nodes| {
      ChainFrom(head, nodes, c + 1, i);
      assert nodes[c..][1..] == nodes[c + 1..];
      var rest := Level(nodes[c + 1..], i);
      if nodes[c].height > i {
        assert ([nodes[c]] + rest)[1..] == rest;
      } else {
        assert [] + rest == rest;
      }
    }
  }

  /** In a valid list, every level's links run, without cycles, through a strictly sorted sublist of
      the level below, and level 0 holds every node. */
  lemma LevelsAreSortedSublists(list: SkipList, i: nat)
    requires list.Valid() && i < MAX_HEIGHT
    ensures Chain(list.head.forward[i], i, Level(list.nodes, i))
    ensures SortedNodes(Level(list.nodes, i))
    ensures Level(list.nodes, i + 1) == Level(Level(list.nodes, i), i + 1)
    ensures forall n: Node :: n in Level(list.nodes, 0) <==> n in list.nodes
  {
    assert list.nodes[0..] == list.nodes;
    ChainFrom(list.head, list.nodes, 0, i);
    LevelSorted(list.nodes, i);
    LevelOfLevel(list.nodes, i, i + 1);
    forall n: Node ensures n in Level(list.nodes, 0) <==> n in list.nodes {
      LevelIn(list.nodes, 0, n);
    }
  }
}
