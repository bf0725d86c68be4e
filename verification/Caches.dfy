/**
 The two caches: a map from keys to list nodes over a doubly linked list. Every operation refines the
 operation of the same name on the recency sequence.
 */
module Caches {
  import opened Options
  import opened Recency
  import opened Chain

  type Items<K(==), V> = map<K, Node<K, V>>

  /** Map and list hold the same nodes, each under its own key. */
  ghost predicate Filed<K, V>(items: Items<K, V>, nodes: seq<Node<K, V>>) {
    && (forall i :: 0 <= i < |nodes| ==> nodes[i].key in items && items[nodes[i].key] == nodes[i])
    && (forall k :: k in items ==> items[k] in nodes && items[k].key == k)
  }

  lemma FiledUnique<K, V>(items: Items<K, V>, nodes: seq<Node<K, V>>)
    requires Filed(items, nodes) && Distinct(nodes)
    ensures forall i, j :: 0 <= i < j < |nodes| ==> nodes[i].key != nodes[j].key
  {
  }

  lemma FiledPush<K, V>(items: Items<K, V>, nodes: seq<Node<K, V>>, n: Node<K, V>)
    requires Filed(items, nodes) && n.key !in items
    ensures Filed(items[n.key := n], [n] + nodes)
  {
  }

  lemma FiledRemove<K, V>(items: Items<K, V>, nodes: seq<Node<K, V>>, at: nat)
    requires Filed(items, nodes) && Distinct(nodes) && at < |nodes|
    ensures Filed(items - {nodes[at].key}, Removed(nodes, at))
  {
    FiledUnique(items, nodes);
    var items', nodes' := items - {nodes[at].key}, Removed(nodes, at);
    forall k | k in items' ensures items'[k] in nodes' {
      var i :| 0 <= i < |nodes| && nodes[i] == items[k];
      assert nodes'[if i < at then i else i - 1] == items[k];
    }
  }

  lemma FiledMove<K, V>(items: Items<K, V>, nodes: seq<Node<K, V>>, at: nat)
    requires Filed(items, nodes) && at < |nodes|
    ensures Filed(items, [nodes[at]] + Removed(nodes, at))
  {
    var nodes' := [nodes[at]] + Removed(nodes, at);
    forall k | k in items ensures items[k] in nodes' {
      var i :| 0 <= i < |nodes| && nodes[i] == items[k];
      assert nodes'[if i < at then i + 1 else if i == at then 0 else i] == items[k];
    }
  }

  lemma {:induction false} FiledCount<K, V>(items: Items<K, V>, nodes: seq<Node<K, V>>)
    requires Filed(items, nodes) && Distinct(nodes)
    ensures |items.Keys| == |nodes|
    decreases |nodes|
  {
    if nodes == [] {
      assert items.Keys == {};
    } else {
      var key := nodes[0].key;
      FiledRemove(items, nodes, 0);
      RemovedDistinct(nodes, 0);
      FiledCount(items - {key}, Removed(nodes, 0));
      assert (items - {key}).Keys == items.Keys - {key};
    }
  }

  ghost function Position<K, V>(items: Items<K, V>, nodes: seq<Node<K, V>>, key: K): (i: nat)
    requires Filed(items, nodes) && key in items
    ensures i < |nodes| && nodes[i] == items[key] && nodes[i].key == key
  {
    var i :| 0 <= i < |nodes| && nodes[i] == items[key];
    i
  }

  /** Looking a key up in the map finds what looking it up in the sequence finds. */
  lemma Found<K, V>(items: Items<K, V>, list: List<K, V>, key: K)
    requires list.Linked() && Filed(items, list.nodes)
    ensures Unique(list.Contents())
    ensures key in items ==> var at := Position(items, list.nodes, key);
                             && at < |list.nodes| && list.nodes[at] == items[key]
                             && list.Contents()[at] == Entry(key, items[key].value)
                             && Lookup(list.Contents(), key) == Some(items[key].value)
                             && Without(list.Contents(), key) == Removed(list.Contents(), at)
    ensures key !in items ==> Lookup(list.Contents(), key) == None && Without(list.Contents(), key) == list.Contents()
  {
    FiledUnique(items, list.nodes);
    if key in items {
      LookupAt(list.Contents(), Position(items, list.nodes, key));
    } else {
      LookupNone(list.Contents(), key);
    }
  }

  /** Count-bounded cache. */
  class LRU<K(==), V> {
    const capacity: nat
    const chain: List<K, V>
    var items: Items<K, V>

    ghost predicate Valid()
      reads this, chain, chain.nodes
    {
      capacity >= 1 && chain.Linked() && Filed(items, chain.nodes) && |chain.nodes| <= capacity
    }

    ghost function Contents(): (s: seq<Entry<K, V>>)
      reads this, chain, chain.nodes
    {
      chain.Contents()
    }

    constructor (capacity: int)
      ensures Valid() && fresh(chain) && Contents() == [] && this.capacity == if capacity < 1 then 1 else capacity
    {
      this.capacity := if capacity < 1 then 1 else capacity;
      items := map[];
      chain := new List<K, V>();
    }

    method Get(key: K) returns (r: Option<V>)
      requires Valid()
      modifies chain, chain.nodes
      ensures Valid()
      ensures r == Lookup(old(Contents()), key)
      ensures Contents() == Touch(old(Contents()), key)
    {
      hide Lookup, Without, Position, Removed, Filed, Distinct, List.Linked, List.Contents;
      Found(items, chain, key);
      if key !in items {
        return None;
      }
      var entry := items[key];
      ghost var at := Position(items, chain.nodes, key);
      FiledMove(items, chain.nodes, at);
      chain.MoveToFront(entry, at);
      r := Some(entry.value);
    }

    /** Adds a new entry in front, dropping the least recent one when there is no room. */
    method Insert(key: K, value: V)
      requires Valid() && key !in items
      modifies this, chain, chain.nodes
      ensures Valid() && Fresh(old(chain.nodes), chain.nodes)
      ensures Contents() == Take([Entry(key, value)] + old(Contents()), capacity)
    {
      hide Lookup, Without, Removed, Filed, Distinct, List.Linked, List.Contents;
      var entry := new Node<K, V>(key, value);
      Unfiled(items, chain.nodes, entry);
      FiledPush(items, chain.nodes, entry);
      items := items[key := entry];
      chain.HeadWithin();
      chain.PushFront(entry);
      Counted(items, chain);
      if |items.Keys| > capacity {
        RemoveTail();
      }
    }

    method RemoveTail()
      requires chain.Linked() && Filed(items, chain.nodes)
      modifies this, chain, chain.nodes
      ensures chain.Linked() && Filed(items, chain.nodes) && (forall n :: n in chain.nodes ==> n in old(chain.nodes))
      ensures Contents() == if old(Contents()) == [] then [] else old(Contents())[..|old(Contents())| - 1]
    {
      hide Removed, Filed, Distinct, List.Linked, List.Contents;
      chain.TailLast();
      if chain.tail == null {
        return;
      }
      var entry := chain.tail;
      ghost var at := |chain.nodes| - 1;
      FiledRemove(items, chain.nodes, at);
      RemovedSubset(chain.nodes, at);
      RemovedLast(chain.Contents());
      chain.Unlink(entry, at);
      items := items - {entry.key};
    }

    method Put(key: K, value: V)
      requires Valid()
      modifies this, chain, chain.nodes
      ensures Valid() && Fresh(old(chain.nodes), chain.nodes)
      ensures Contents() == PutCounted(old(Contents()), capacity, key, value)
    {
      hide Lookup, Without, Position, Removed, Filed, Distinct, List.Linked, List.Contents;
      Found(items, chain, key);
      if key in items {
        var entry := items[key];
        ghost var at := Position(items, chain.nodes, key);
        ghost var s := chain.Contents();
        assert |Without(s, key)| == |s| - 1;
        FiledMove(items, chain.nodes, at);
        RemovedSubset(chain.nodes, at);
        assert entry in chain.nodes;
        chain.Store(entry, value, at);
        Replaced(s, Entry(key, value), at);
        chain.MoveToFront(entry, at);
        return;
      }
      Insert(key, value);
    }

    method Add(key: K, value: V)
      requires Valid()
      modifies this, chain, chain.nodes
      ensures Valid() && Fresh(old(chain.nodes), chain.nodes)
      ensures Contents() == AddCounted(old(Contents()), capacity, key, value)
    {
      hide Lookup, Without, Position, Removed, Filed, Distinct, List.Linked, List.Contents;
      Found(items, chain, key);
      if key in items {
        ghost var at := Position(items, chain.nodes, key);
        assert |Without(chain.Contents(), key)| == |chain.Contents()| - 1;
        FiledMove(items, chain.nodes, at);
        RemovedSubset(chain.nodes, at);
        chain.MoveToFront(items[key], at);
        return;
      }
      Insert(key, value);
    }

    method Remove(key: K)
      requires Valid()
      modifies this, chain, chain.nodes
      ensures Valid() && (forall n :: n in chain.nodes ==> n in old(chain.nodes))
      ensures Contents() == Without(old(Contents()), key)
    {
      hide Lookup, Without, Position, Removed, Filed, Distinct, List.Linked, List.Contents;
      Found(items, chain, key);
      if key !in items {
        return;
      }
      var entry := items[key];
      ghost var at := Position(items, chain.nodes, key);
      chain.TailLast();
      FiledRemove(items, chain.nodes, at);
      chain.Unlink(entry, at);
      items := items - {key};
    }

    method Len() returns (n: nat)
      requires Valid()
      ensures n == |Contents()| <= capacity
    {
      hide Filed, List.Linked;
      Counted(items, chain);
      n := |items.Keys|;
    }
  }

  /** Byte-bounded cache of immutable payloads. */
  class SizedLRU<K(==)> {
    const maxBytes: nat
    const chain: List<K, seq<bv8>>
    var curBytes: int
    var items: Items<K, seq<bv8>>

    /** The list and the map agree and the byte count is exact. */
    ghost predicate Counted()
      reads this, chain, chain.nodes
    {
      chain.Linked() && Filed(items, chain.nodes) && curBytes == Bytes(chain.Contents())
    }

    ghost predicate Valid()
      reads this, chain, chain.nodes
    {
      Counted() && curBytes <= maxBytes
    }

    ghost function Contents(): (s: Payloads<K>)
      reads this, chain, chain.nodes
    {
      chain.Contents()
    }

    constructor (maxBytes: int)
      ensures Valid() && fresh(chain) && Contents() == [] && this.maxBytes == if maxBytes < 1 then 1 else maxBytes
    {
      this.maxBytes := if maxBytes < 1 then 1 else maxBytes;
      items := map[];
      curBytes := 0;
      chain := new List<K, seq<bv8>>();
    }

    method Get(key: K) returns (r: Option<seq<bv8>>)
      requires Valid()
      modifies chain, chain.nodes
      ensures Valid()
      ensures r == Lookup(old(Contents()), key)
      ensures Contents() == Touch(old(Contents()), key)
    {
      hide Lookup, Without, Position, Removed, Filed, Distinct, List.Linked, List.Contents, Bytes;
      Found(items, chain, key);
      if key !in items {
        return None;
      }
      var entry := items[key];
      ghost var at := Position(items, chain.nodes, key);
      FiledMove(items, chain.nodes, at);
      BytesMove(chain.Contents(), at);
      chain.MoveToFront(entry, at);
      r := Some(entry.value);
    }

    /** Takes an entry out of list, count and map. */
    method Drop(entry: Node<K, seq<bv8>>, ghost at: nat)
      requires Counted() && at < |chain.nodes| && chain.nodes[at] == entry
      modifies this, chain, chain.nodes
      ensures Counted() && (forall n :: n in chain.nodes ==> n in old(chain.nodes))
      ensures chain.nodes == Removed(old(chain.nodes), at)
      ensures Contents() == Removed(old(Contents()), at)
      ensures curBytes == old(curBytes) - |old(Contents())[at].value|
    {
      hide Removed, Filed, Distinct, List.Linked, List.Contents, Bytes;
      chain.TailLast();
      FiledRemove(items, chain.nodes, at);
      BytesMove(chain.Contents(), at);
      chain.Unlink(entry, at);
      curBytes := curBytes - |entry.value|;
      items := items - {entry.key};
    }

    method EvictToFit()
      requires Counted()
      modifies this, chain, chain.nodes
      ensures Valid() && (forall n :: n in chain.nodes ==> n in old(chain.nodes))
      ensures Contents() == Fit(old(Contents()), maxBytes)
    {
      hide Removed, Filed, Distinct, List.Linked, List.Contents, Bytes;
      NoBytes<K>();
      while curBytes > maxBytes && chain.tail != null
        invariant Counted() && chain.nodes <= old(chain.nodes)
        invariant Fit(chain.Contents(), maxBytes) == Fit(old(Contents()), maxBytes)
        decreases |chain.nodes|
      {
        chain.TailLast();
        RemovedLast(chain.Contents());
        RemovedLast(chain.nodes);
        Drop(chain.tail, |chain.nodes| - 1);
      }
      chain.TailLast();
    }

    method Put(key: K, value: seq<bv8>)
      requires Valid()
      modifies this, chain, chain.nodes
      ensures Valid() && Fresh(old(chain.nodes), chain.nodes)
      ensures Contents() == PutSized(old(Contents()), maxBytes, key, value)
    {
      hide Lookup, Without, Position, Removed, Filed, Distinct, List.Linked, List.Contents, Bytes, Fit;
      Found(items, chain, key);
      if |value| > maxBytes {
        if key in items {
          Drop(items[key], Position(items, chain.nodes, key));
        }
        return;
      }
      if key in items {
        var entry := items[key];
        ghost var at := Position(items, chain.nodes, key);
        ghost var s := chain.Contents();
        FiledMove(items, chain.nodes, at);
        RemovedSubset(chain.nodes, at);
        BytesMove(s, at);
        BytesMove(s[at := Entry(key, value)], at);
        Replaced(s, Entry(key, value), at);
        assert entry in chain.nodes;
        curBytes := curBytes + |value| - |entry.value|;
        chain.Store(entry, value, at);
        chain.MoveToFront(entry, at);
        EvictToFit();
        return;
      }
      var entry := new Node<K, seq<bv8>>(key, value);
      Unfiled(items, chain.nodes, entry);
      FiledPush(items, chain.nodes, entry);
      BytesAppend([Entry(key, value)], chain.Contents());
      BytesOne(Entry(key, value));
      items := items[key := entry];
      curBytes := curBytes + |value|;
      chain.HeadWithin();
      chain.PushFront(entry);
      EvictToFit();
    }

    method Remove(key: K)
      requires Valid()
      modifies this, chain, chain.nodes
      ensures Valid() && (forall n :: n in chain.nodes ==> n in old(chain.nodes))
      ensures Contents() == Without(old(Contents()), key)
    {
      hide Lookup, Without, Position, Removed, Filed, Distinct, List.Linked, List.Contents, Bytes;
      Found(items, chain, key);
      if key !in items {
        return;
      }
      Drop(items[key], Position(items, chain.nodes, key));
    }

    /** The reported size is the size of what is cached. */
    method TotalBytes() returns (n: int)
      requires Valid()
      ensures n == Bytes(Contents()) <= maxBytes
    {
      n := curBytes;
    }
  }

  lemma NoBytes<K>()
    ensures forall s: Payloads<K> :: s == [] ==> Bytes(s) == 0
  {
  }

  /** Moving an entry to the front moves no bytes; taking it out takes its own. */
  lemma BytesMove<K>(s: Payloads<K>, at: nat)
    requires at < |s|
    ensures Bytes([s[at]] + Removed(s, at)) == Bytes(s)
    ensures Bytes(Removed(s, at)) == Bytes(s) - |s[at].value|
  {
    hide Bytes;
    BytesAppend(s[..at], s[at + 1..]);
    BytesAppend([s[at]], s[at + 1..]);
    BytesAppend(s[..at], [s[at]] + s[at + 1..]);
    BytesAppend([s[at]], Removed(s, at));
    BytesOne(s[at]);
    assert s == s[..at] + ([s[at]] + s[at + 1..]);
  }

  /** Every node of the list was there before or is new. */
  twostate predicate Fresh<K, V>(before: seq<Node<K, V>>, new after: seq<Node<K, V>>) {
    forall n :: n in after ==> n in before || fresh(n)
  }

  lemma Unfiled<K, V>(items: Items<K, V>, nodes: seq<Node<K, V>>, n: Node<K, V>)
    requires Filed(items, nodes) && n.key !in items
    ensures n !in nodes
  {
  }

  lemma Counted<K, V>(items: Items<K, V>, list: List<K, V>)
    requires list.Linked() && Filed(items, list.nodes)
    ensures |items.Keys| == |list.nodes|
  {
    FiledCount(items, list.nodes);
  }

  lemma Replaced<T>(s: seq<T>, x: T, at: nat)
    requires at < |s|
    ensures Removed(s[at := x], at) == Removed(s, at)
  {
  }

  lemma RemovedLast<T>(s: seq<T>)
    requires s != []
    ensures Removed(s, |s| - 1) == s[..|s| - 1]
  {
  }
}
