/** The doubly linked list under both caches, refined to the sequence of its nodes. */
module Chain {
  import opened Recency

  class Node<K, V> {
    const key: K
    var value: V
    var prev: Node?<K, V>
    var next: Node?<K, V>

    constructor (key: K, value: V)
      ensures this.key == key && this.value == value
    {
      this.key, this.value := key, value;
      prev, next := null, null;
    }
  }

  ghost function At<K, V>(nodes: seq<Node<K, V>>, i: int): Node?<K, V> { if 0 <= i < |nodes| then nodes[i] else null }

  ghost predicate Distinct<T>(s: seq<T>) {
    forall i, j :: 0 <= i < j < |s| ==> s[i] != s[j]
  }

  lemma RemovedDistinct<T>(s: seq<T>, at: nat)
    requires at < |s| && Distinct(s)
    ensures Distinct(Removed(s, at)) && s[at] !in Removed(s, at)
  {
  }

  lemma RemovedSubset<T>(s: seq<T>, at: nat)
    requires at < |s|
    ensures forall x :: x in Removed(s, at) ==> x in s
  {
  }

  lemma Leading<T>(s: seq<T>)
    requires s != []
    ensures s == [s[0]] + Removed(s, 0)
  {
  }

  ghost function Shift(at: nat, i: nat): nat { if i < at then i else i + 1 }

  /** Bridging the gap gives every remaining node its neighbours. */
  lemma Neighbours<K, V>(s: seq<Node<K, V>>, at: nat, i: nat)
    requires at < |s| && Distinct(s) && i < |s| - 1
    ensures var n := s[Shift(at, i)];
            && Removed(s, at)[i] == n
            && At(Removed(s, at), i - 1) == (if n == At(s, at + 1) then At(s, at - 1) else At(s, Shift(at, i) - 1))
            && At(Removed(s, at), i + 1) == (if n == At(s, at - 1) then At(s, at + 1) else At(s, Shift(at, i) + 1))
  {
  }

  lemma Ends<K, V>(s: seq<Node<K, V>>, at: nat)
    requires at < |s|
    ensures At(Removed(s, at), 0) == if at == 0 then At(s, 1) else At(s, 0)
    ensures At(Removed(s, at), |s| - 2) == if at == |s| - 1 then At(s, |s| - 2) else At(s, |s| - 1)
  {
  }

  class List<K, V> {
    var head: Node?<K, V>
    var tail: Node?<K, V>
    ghost var nodes: seq<Node<K, V>>

    /** `head`, `tail` and the links of every node spell out `nodes`, in both directions. */
    ghost predicate Linked()
      reads this, nodes
    {
      && Distinct(nodes)
      && head == At(nodes, 0) && tail == At(nodes, |nodes| - 1)
      && (forall i {:trigger nodes[i].prev} :: 0 <= i < |nodes| ==> nodes[i].prev == At(nodes, i - 1))
      && (forall i {:trigger nodes[i].next} :: 0 <= i < |nodes| ==> nodes[i].next == At(nodes, i + 1))
    }

    ghost function Contents(): (s: seq<Entry<K, V>>)
      reads this, nodes
      ensures |s| == |nodes| && forall i :: 0 <= i < |s| ==> s[i] == Entry(nodes[i].key, nodes[i].value)
    {
      seq(|nodes|, i requires 0 <= i < |nodes| reads this, nodes => Entry(nodes[i].key, nodes[i].value))
    }

    constructor ()
      ensures Linked() && nodes == []
    {
      head, tail, nodes := null, null, [];
    }

    method PushFront(entry: Node<K, V>)
      requires Linked() && entry !in nodes
      modifies this, entry`prev, entry`next, head
      ensures Linked() && nodes == [entry] + old(nodes)
      ensures Contents() == [Entry(entry.key, entry.value)] + old(Contents())
      ensures forall n :: n in nodes ==> n.value == old(n.value)
    {
      assert nodes != [] ==> head == nodes[0] && head in nodes;
      entry.prev := null;
      entry.next := head;
      if head != null {
        head.prev := entry;
      }
      head := entry;
      if tail == null {
        tail := entry;
      }
      nodes := [entry] + nodes;
      assert forall i :: 1 <= i < |nodes| ==> nodes[i] == old(nodes)[i - 1];
    }

    /** Takes an entry out of the links around it; `nodes` still has to follow. */
    method Bridge(entry: Node<K, V>, ghost at: nat)
      requires Linked() && at < |nodes| && nodes[at] == entry
      modifies this`head, this`tail, nodes
      ensures forall n :: n in nodes ==> n.value == old(n.value)
      ensures head == (if at == 0 then At(nodes, 1) else old(head))
      ensures tail == (if at == |nodes| - 1 then At(nodes, at - 1) else old(tail))
      ensures forall n :: n in nodes && n != entry ==>
                            && n.next == (if n == At(nodes, at - 1) then At(nodes, at + 1) else old(n.next))
                            && n.prev == (if n == At(nodes, at + 1) then At(nodes, at - 1) else old(n.prev))
    {
      assert entry.prev == At(nodes, at - 1) && entry.next == At(nodes, at + 1);
      if entry.prev != null {
        entry.prev.next := entry.next;
      } else {
        head := entry.next;
      }
      if entry.next != null {
        entry.next.prev := entry.prev;
      } else {
        tail := entry.prev;
      }
      entry.prev := null;
      entry.next := null;
    }

    method Unlink(entry: Node<K, V>, ghost at: nat)
      requires Linked() && at < |nodes| && nodes[at] == entry
      modifies this, nodes
      ensures Linked() && nodes == Removed(old(nodes), at)
      ensures Contents() == Removed(old(Contents()), at)
      ensures forall n :: n in old(nodes) ==> n.value == old(n.value)
      ensures entry !in nodes && entry in old(nodes) && forall n :: n in nodes ==> n in old(nodes)
    {
      hide At, Distinct;
      RemovedSubset(nodes, at);
      ghost var before := nodes;
      Bridge(entry, at);
      nodes := Removed(before, at);
      RemovedDistinct(before, at);
      forall i | 0 <= i < |nodes| ensures nodes[i].prev == At(nodes, i - 1) && nodes[i].next == At(nodes, i + 1) {
        Neighbours(before, at, i);
      }
      Ends(before, at);
    }

    method Store(entry: Node<K, V>, value: V, ghost at: nat)
      requires Linked() && at < |nodes| && nodes[at] == entry
      modifies entry`value
      ensures Linked() && entry.value == value
      ensures Contents() == old(Contents())[at := Entry(entry.key, value)]
    {
      entry.value := value;
    }

    lemma HeadWithin()
      requires Linked()
      ensures head == null || head in nodes
    {
    }

    lemma TailLast()
      requires Linked()
      ensures tail == null <==> nodes == []
      ensures nodes != [] ==> tail == nodes[|nodes| - 1] && Distinct(nodes)
    {
    }

    lemma HeadFirst(at: nat)
      requires Linked() && at < |nodes| && nodes[at] == head
      ensures at == 0
    {
    }

    method MoveToFront(entry: Node<K, V>, ghost at: nat)
      requires Linked() && at < |nodes| && nodes[at] == entry
      modifies this, nodes
      ensures Linked() && nodes == [entry] + Removed(old(nodes), at)
      ensures Contents() == [old(Contents())[at]] + Removed(old(Contents()), at)
      ensures forall n :: n in nodes ==> n.value == old(n.value)
    {
      hide Linked, Removed, Distinct, Contents;
      ghost var before := Contents();
      if head == entry {
        HeadFirst(at);
        Leading(nodes);
        Leading(before);
        return;
      }
      Unlink(entry, at);
      HeadWithin();
      PushFront(entry);
    }
  }
}
