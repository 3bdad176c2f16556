/** The cache of the source: a dictionary over a doubly linked list, most recently used first. */
module LruCache {
  import opened Common
  import opened Recency

  class Item<K, V> {
    const key: K
    var value: V
    var previous: Item?<K, V>
    var next: Item?<K, V>

    constructor (key: K, value: V)
      ensures this.key == key && this.value == value
    {
      this.key, this.value, previous, next := key, value, null, null;
    }
  }

  /** The dictionary holds exactly the listed items, each under its own key. */
  ghost predicate Indexes<K, V>(dict: map<K, Item<K, V>>, nodes: seq<Item<K, V>>) {
    && |dict| == |nodes|
    && (forall i, j :: 0 <= i < j < |nodes| ==> nodes[i].key != nodes[j].key)
    && (forall i :: 0 <= i < |nodes| ==> nodes[i].key in dict && dict[nodes[i].key] == nodes[i])
  }

  lemma AsMany<K, V>(dict: map<K, Item<K, V>>, nodes: seq<Item<K, V>>)
    requires Indexes(dict, nodes)
    ensures |dict| == |nodes|
  {
  }

  lemma IndexesWithoutLast<K, V>(dict: map<K, Item<K, V>>, nodes: seq<Item<K, V>>)
    requires Indexes(dict, nodes) && nodes != []
    ensures Indexes(dict - {nodes[|nodes| - 1].key}, nodes[..|nodes| - 1])
  {
    var last := |nodes| - 1;
    assert dict.Keys == (dict - {nodes[last].key}).Keys + {nodes[last].key};
  }

  lemma IndexesPlusFirst<K, V>(dict: map<K, Item<K, V>>, nodes: seq<Item<K, V>>, item: Item<K, V>)
    requires Indexes(dict, nodes) && item.key !in dict
    ensures Indexes(dict[item.key := item], [item] + nodes)
  {
  }

  lemma NotHeld<K, V>(dict: map<K, Item<K, V>>, nodes: seq<Item<K, V>>, key: K)
    requires Indexes(dict, nodes) && key !in dict
    ensures forall i :: 0 <= i < |nodes| ==> Pairs(nodes)[i].0 != key
  {
  }

  lemma IndexesMoved<K, V>(dict: map<K, Item<K, V>>, nodes: seq<Item<K, V>>, i: nat)
    requires Indexes(dict, nodes) && i < |nodes|
    ensures Indexes(dict, [nodes[i]] + nodes[..i] + nodes[i + 1..])
  {
  }

  /** Every key of the dictionary is the key of a listed item: there are as many of each. */
  lemma {:induction false} Listed<K, V>(dict: map<K, Item<K, V>>, nodes: seq<Item<K, V>>, k: K) returns (i: nat)
    requires Indexes(dict, nodes) && k in dict
    ensures i < |nodes| && nodes[i] == dict[k] && nodes[i].key == k
    decreases nodes
  {
    var last := |nodes| - 1;
    if last < 0 {
      assert false;
    } else if nodes[last].key == k {
      i := last;
    } else {
      IndexesWithoutLast(dict, nodes);
      i := Listed(dict - {nodes[last].key}, nodes[..last], k);
    }
  }

  ghost function Pairs<K, V>(nodes: seq<Item<K, V>>): (s: seq<(K, V)>)
    reads nodes
    ensures |s| == |nodes|
  {
    seq(|nodes|, i requires 0 <= i < |nodes| reads nodes => (nodes[i].key, nodes[i].value))
  }

  lemma PairsAre<K, V>(nodes: seq<Item<K, V>>)
    ensures forall j :: 0 <= j < |nodes| ==> Pairs(nodes)[j] == (nodes[j].key, nodes[j].value)
  {
  }

  lemma PairsWithout<K, V>(dict: map<K, Item<K, V>>, nodes: seq<Item<K, V>>, i: nat)
    requires Indexes(dict, nodes) && i < |nodes|
    ensures Without(Pairs(nodes), nodes[i].key) == Pairs(nodes)[..i] + Pairs(nodes)[i + 1..]
    ensures forall j :: 0 <= j < |nodes| && j != i ==> nodes[j] != nodes[i]
  {
    WithoutAt(Pairs(nodes), i);
  }

  /** The other pairs are as they were before. */
  lemma PairsMoved<K, V>(nodes: seq<Item<K, V>>, before: seq<(K, V)>, i: nat)
    requires i < |nodes| == |before|
    requires forall j :: 0 <= j < |nodes| && j != i ==> before[j] == (nodes[j].key, nodes[j].value)
    ensures Pairs([nodes[i]] + nodes[..i] + nodes[i + 1..])
         == [(nodes[i].key, nodes[i].value)] + (before[..i] + before[i + 1..])
  {
  }

  class LRUCache<K(==), V> {
    var dict: map<K, Item<K, V>>
    const capacity: nat
    var head: Item?<K, V>
    var tail: Item?<K, V>
    /** The linked items, from `head` to `tail`. */
    ghost var nodes: seq<Item<K, V>>
    /** Every successful use, the latest first. */
    ghost var history: seq<(K, V)>

    /** Forward links, backward links and both ends describe `nodes`. */
    ghost predicate Linked()
      reads `nodes, `head, `tail, nodes`next, nodes`previous
    {
      && (forall i, j :: 0 <= i < j < |nodes| ==> nodes[i] != nodes[j])
      && (forall i {:trigger nodes[i].next} :: 0 <= i < |nodes| ==>
            nodes[i].next == if i + 1 < |nodes| then nodes[i + 1] else null)
      && (forall i {:trigger nodes[i].previous} :: 0 <= i < |nodes| ==>
            nodes[i].previous == if i > 0 then nodes[i - 1] else null)
      && head == (if nodes == [] then null else nodes[0])
      && tail == (if nodes == [] then null else nodes[|nodes| - 1])
    }

    ghost function Contents(): seq<(K, V)>
      reads `nodes, nodes
    {
      Pairs(nodes)
    }

    /** The cache holds the `capacity` most recently used keys, in order of use. */
    ghost predicate Valid()
      reads this, nodes
    {
      Linked() && Indexes(dict, nodes) && Contents() == Take(Recent(history), capacity)
    }

    constructor (capacity: nat)
      ensures Valid() && Contents() == [] && history == [] && this.capacity == capacity && nodes == []
    {
      dict, this.capacity, head, tail, nodes, history := map[], capacity, null, null, [], [];
    }

    /** Takes an item that is not the first out of the list. */
    method Unlink(item: Item<K, V>, ghost i: nat)
      requires Linked() && 0 < i < |nodes| && nodes[i] == item
      modifies this`tail, this`nodes, nodes
      ensures Linked() && nodes == old(nodes)[..i] + old(nodes)[i + 1..]
      ensures forall n | n in old(nodes) :: n.value == old(n.value)
    {
      var previous := item.previous;
      assert previous == nodes[i - 1] && previous != item;
      previous.next := item.next;
      if item.next != null {
        assert item.next == nodes[i + 1];
        item.next.previous := previous;
      } else {
        tail := previous;
      }
      nodes := nodes[..i] + nodes[i + 1..];
    }

    /** Puts an item in front of the list. */
    method LinkFront(item: Item<K, V>)
      requires Linked() && item !in nodes
      modifies this`head, this`tail, this`nodes, item, nodes
      ensures Linked() && nodes == [item] + old(nodes)
      ensures item.value == old(item.value) && forall n | n in old(nodes) :: n.value == old(n.value)
      ensures Contents() == [(item.key, item.value)] + old(Contents())
    {
      item.previous := null;
      item.next := head;
      if head != null {
        head.previous := item;
      } else {
        tail := item;
      }
      head := item;
      nodes := [item] + nodes;
    }

    /** `_update_item`: the item moves to the front. */
    method UpdateItem(item: Item<K, V>, ghost i: nat)
      requires Linked() && i < |nodes| && nodes[i] == item
      modifies this`head, this`tail, this`nodes, nodes
      ensures Linked() && nodes == [item] + old(nodes)[..i] + old(nodes)[i + 1..]
      ensures forall n | n in old(nodes) :: n.value == old(n.value)
    {
      if head == item {
        assert i == 0;
        return;
      }
      Unlink(item, i);
      LinkFront(item);
    }

    method UnlinkTail()
      requires Linked() && nodes != []
      modifies this`head, this`tail, this`nodes, nodes
      ensures Linked() && nodes == old(nodes)[..|old(nodes)| - 1]
      ensures forall n | n in old(nodes) :: n.value == old(n.value)
    {
      ghost var last := |nodes| - 1;
      if tail != head {
        tail := tail.previous;
        assert tail == nodes[last - 1];
        tail.next := null;
      } else {
        assert last == 0;
        head, tail := null, null;
      }
      nodes := nodes[..last];
    }

    /** The last item leaves the list and the dictionary. */
    method DropTail()
      requires Linked() && Indexes(dict, nodes) && nodes != []
      modifies this`head, this`tail, this`nodes, this`dict, nodes
      ensures Linked() && Indexes(dict, nodes) && |dict| == |nodes| && nodes == old(nodes)[..|old(nodes)| - 1]
      ensures forall n | n in old(nodes) :: n.value == old(n.value)
    {
      IndexesWithoutLast(dict, nodes);
      dict := dict - {tail.key};
      UnlinkTail();
    }

    /** `_manage_size`: items leave from the tail until the rest fit. */
    method ManageSize()
      requires Linked() && Indexes(dict, nodes)
      modifies this`head, this`tail, this`nodes, this`dict, nodes
      ensures Linked() && Indexes(dict, nodes) && nodes == Take(old(nodes), capacity)
      ensures forall n | n in old(nodes) :: n.value == old(n.value)
      ensures Contents() == Take(old(Contents()), capacity)
    {
      hide Linked, Indexes, Pairs;
      AsMany(dict, nodes);
      PairsAre(nodes);
      while |dict| > capacity
        invariant Linked() && Indexes(dict, nodes) && |dict| == |nodes|
        invariant |nodes| <= |old(nodes)| && nodes == old(nodes)[..|nodes|]
        invariant |nodes| >= Min(capacity, |old(nodes)|)
        invariant forall n | n in old(nodes) :: n.value == old(n.value)
        decreases |nodes|
      {
        DropTail();
      }
      PairsAre(nodes);
    }

    /** Moves the item of a held key to the front, with the value given to it. */
    method Refresh(item: Item<K, V>, value: V, ghost i: nat)
      requires Linked() && Indexes(dict, nodes) && i < |nodes| && nodes[i] == item
      modifies this`head, this`tail, this`nodes, nodes
      ensures Linked() && Indexes(dict, nodes) && nodes == [item] + old(nodes)[..i] + old(nodes)[i + 1..]
      ensures Contents() == Use(old(Contents()), item.key, value)
    {
      hide Linked, Indexes, Pairs, Without;
      ghost var before, ns := Contents(), nodes;
      IndexesMoved(dict, ns, i);
      PairsWithout(dict, ns, i);
      PairsAre(ns);
      item.value := value;
      UpdateItem(item, i);
      PairsMoved(ns, before, i);
    }

    /** `cache[key]`: the value, its key now the most recently used; nothing when the key is not held. */
    method GetItem(key: K) returns (r: Option<V>)
      requires Valid()
      modifies this, nodes
      ensures Valid() && r == Lookup(old(Contents()), key)
      ensures r == None ==> Contents() == old(Contents()) && history == old(history)
      ensures r.Some? ==> Contents() == Use(old(Contents()), key, r.value) && history == [(key, r.value)] + old(history)
      ensures forall n | n in nodes :: n in old(nodes) || fresh(n)
    {
      hide Use, Recent, Lookup, Without;
      ghost var before := Contents();
      LookupAbsent(before, key);
      if key !in dict {
        return None;
      }
      var item := dict[key];
      ghost var i := Listed(dict, nodes, key);
      assert Lookup(before, key) == Some(item.value) by { WithoutAt(before, i); }
      UseKeepsRecent(before, history, capacity, key, item.value);
      r := Some(item.value);
      Refresh(item, item.value, i);
      history := [(key, r.value)] + history;
      UseFits(before, key, r.value, capacity);
    }

    /** `cache[key] = value`: the key becomes the most recently used, and what no longer fits leaves. */
    method SetItem(key: K, value: V)
      requires Valid()
      modifies this, nodes
      ensures Valid() && history == [(key, value)] + old(history)
      ensures Contents() == Take(Use(old(Contents()), key, value), capacity)
      ensures forall n | n in nodes :: n in old(nodes) || fresh(n)
    {
      hide Use, Recent, Linked, Indexes, Contents;
      UseKeepsRecent(Contents(), history, capacity, key, value);
      if key !in dict {
        InsertItem(key, value);
      } else {
        ReplaceItem(key, value);
      }
      history := [(key, value)] + history;
    }

    method ReplaceItem(key: K, value: V)
      requires Linked() && Indexes(dict, nodes) && key in dict
      modifies this`head, this`tail, this`nodes, this`dict, nodes
      ensures Linked() && Indexes(dict, nodes)
      ensures Contents() == Take(Use(old(Contents()), key, value), capacity)
      ensures forall n | n in nodes :: n in old(nodes)
    {
      var item := dict[key];
      ghost var i := Listed(dict, nodes, key);
      Refresh(item, value, i);
      ManageSize();
    }

    /** A new item enters at the front. */
    method AddItem(key: K, value: V) returns (ghost item: Item<K, V>)
      requires Linked() && Indexes(dict, nodes) && key !in dict
      modifies this`head, this`tail, this`nodes, this`dict, nodes
      ensures Linked() && Indexes(dict, nodes) && fresh(item) && nodes == [item] + old(nodes)
      ensures Contents() == Use(old(Contents()), key, value)
    {
      hide Linked, Indexes, Pairs, Without;
      NotHeld(dict, nodes, key);
      WithoutAbsent(Contents(), key);
      var it := new Item(key, value);
      item := it;
      IndexesPlusFirst(dict, nodes, it);
      dict := dict[key := it];
      assert it !in nodes;
      LinkFront(it);
    }

    method InsertItem(key: K, value: V)
      requires Linked() && Indexes(dict, nodes) && key !in dict
      modifies this`head, this`tail, this`nodes, this`dict, nodes
      ensures Linked() && Indexes(dict, nodes)
      ensures Contents() == Take(Use(old(Contents()), key, value), capacity)
      ensures forall n | n in nodes :: n in old(nodes) || fresh(n)
    {
      ghost var item := AddItem(key, value);
      ManageSize();
    }

    /** Iteration yields the keys, starting with the most recently used. */
    method Keys() returns (keys: seq<K>)
      requires Valid()
      ensures |keys| == |Contents()| && forall i :: 0 <= i < |keys| ==> keys[i] == Contents()[i].0
    {
      keys := [];
      var cur := head;
      while cur != null
        invariant |keys| <= |nodes| && cur == (if |keys| < |nodes| then nodes[|keys|] else null)
        invariant forall i :: 0 <= i < |keys| ==> keys[i] == nodes[i].key
        decreases |nodes| - |keys|
      {
        keys := keys + [cur.key];
        cur := cur.next;
      }
    }
  }

  /** A key already held takes no more room. */
  lemma UseFits<K, V>(held: seq<(K, V)>, key: K, value: V, capacity: nat)
    requires |held| <= capacity && Lookup(held, key).Some? && DistinctKeys(held)
    ensures Take(Use(held, key, value), capacity) == Use(held, key, value)
  {
    LookupAbsent(held, key);
    var i :| 0 <= i < |held| && held[i].0 == key;
    WithoutAt(held, i);
  }

  /** Eviction: setting a key not held in a full cache drops exactly the least recently used pair. */
  lemma EvictsOldest<K, V>(held: seq<(K, V)>, capacity: nat, key: K, value: V)
    requires |held| == capacity > 0 && Lookup(held, key) == None
    ensures Take(Use(held, key, value), capacity) == [(key, value)] + held[..|held| - 1]
  {
    LookupAbsent(held, key);
    WithoutAbsent(held, key);
  }
}
