/** LegacyLruCache (common/lru.h): a list of nodes and a hash map of positions in that
    list, both updated in place, proved to implement the recency order of LruSpec.
    A std::list iterator is the identity of a list node, so the map holds Node objects. */
module LruCache {
  import opened Optional
  import opened Sequences
  import opened LruSpec
  import opened Words

  class Node<K, V> {
    const key: K
    var value: V

    constructor (key: K, value: V)
      ensures this.key == key && this.value == value
    {
      this.key := key;
      this.value := value;
    }
  }

  /** Position of a node object in a list; what an iterator denotes. */
  function Position<T(==)>(list: seq<T>, x: T): (i: nat)
    requires x in list
    ensures i < |list| && list[i] == x
  {
    if list[0] == x then 0 else 1 + Position(list[1..], x)
  }

  ghost predicate Distinct<K, V>(list: seq<Node<K, V>>) {
    forall i, j :: 0 <= i < j < |list| ==> list[i].key != list[j].key
  }

  /** The map in which every key of the list points at its own node, and no other key occurs. */
  ghost function MapOf<K, V>(list: seq<Node<K, V>>): map<K, Node<K, V>> {
    if list == [] then map[] else MapOf(list[1..])[list[0].key := list[0]]
  }

  lemma {:induction false} MapAt<K, V>(list: seq<Node<K, V>>, i: nat)
    requires Distinct(list) && i < |list|
    ensures list[i].key in MapOf(list) && MapOf(list)[list[i].key] == list[i]
  {
    if i > 0 {
      MapAt(list[1..], i - 1);
    }
  }

  lemma {:induction false} MapBack<K, V>(list: seq<Node<K, V>>, k: K) returns (i: nat)
    requires k in MapOf(list)
    ensures i < |list| && list[i].key == k && list[i] == MapOf(list)[k]
  {
    if list[0].key == k {
      i := 0;
    } else {
      i := MapBack(list[1..], k);
      i := i + 1;
    }
  }

  lemma {:induction false} MapSize<K, V>(list: seq<Node<K, V>>)
    requires Distinct(list)
    ensures |MapOf(list)| == |list|
  {
    if list != [] {
      MapSize(list[1..]);
      if list[0].key in MapOf(list[1..]) {
        var i := MapBack(list[1..], list[0].key);
      }
      assert MapOf(list).Keys == MapOf(list[1..]).Keys + {list[0].key};
    }
  }

  lemma PushNode<K, V>(list: seq<Node<K, V>>, node: Node<K, V>)
    requires Distinct(list) && node.key !in MapOf(list)
    ensures Distinct([node] + list) && MapOf([node] + list) == MapOf(list)[node.key := node]
  {
    forall i | 0 <= i < |list| ensures list[i].key != node.key {
      MapAt(list, i);
    }
    assert ([node] + list)[1..] == list;
  }

  lemma {:induction false} MapErase<K, V>(list: seq<Node<K, V>>, at: nat)
    requires Distinct(list) && at < |list|
    ensures MapOf(EraseAt(list, at)) == MapOf(list) - {list[at].key}
  {
    var k := list[at].key;
    if at == 0 {
      assert EraseAt(list, 0) == list[1..];
      if k in MapOf(list[1..]) {
        var i := MapBack(list[1..], k);
      }
    } else {
      MapErase(list[1..], at - 1);
      assert EraseAt(list, at)[1..] == EraseAt(list[1..], at - 1);
    }
  }

  lemma MapSplice<K, V>(list: seq<Node<K, V>>, at: nat)
    requires Distinct(list) && at < |list|
    ensures MapOf([list[at]] + EraseAt(list, at)) == MapOf(list)
  {
    MapErase(list, at);
    MapAt(list, at);
    assert ([list[at]] + EraseAt(list, at))[1..] == EraseAt(list, at);
  }

  class Cache<K(==), V> {
    const capacity: nat
    var nodeList: seq<Node<K, V>>
    var lruMap: map<K, Node<K, V>>
    ghost var history: seq<Op<K, V>>

    /** Map and list hold the same keys once each, and each entry points at its own node. */
    ghost predicate Valid()
      reads this
    {
      && capacity > 0
      && |nodeList| <= capacity
      && Distinct(nodeList)
      && lruMap == MapOf(nodeList)
    }

    ghost function Contents(): (s: seq<(K, V)>)
      reads this, nodeList
      ensures |s| == |nodeList|
      ensures forall i :: 0 <= i < |s| ==> s[i] == (nodeList[i].key, nodeList[i].value)
    {
      seq(|nodeList|, i requires 0 <= i < |nodeList| reads this, nodeList => (nodeList[i].key, nodeList[i].value))
    }

    /** The contents are what the history of calls leads to. */
    ghost predicate Reached()
      reads this, nodeList
    {
      Valid() && Contents() == Run(history, capacity)
    }

    constructor (capacity: nat)
      requires capacity > 0
      ensures Reached() && Contents() == [] && history == [] && this.capacity == capacity
    {
      history := [];
      this.capacity := capacity;
      nodeList := [];
      lruMap := map[];
    }

    lemma Located(k: K)
      requires Valid()
      ensures k in lruMap <==> Has(Contents(), k)
      ensures k in lruMap ==> nodeList[Index(Contents(), k)] == lruMap[k]
    {
      var i := Index(Contents(), k);
      if k in lruMap {
        var j := MapBack(nodeList, k);
        assert Contents()[j].0 == k;
      }
      if i < |nodeList| {
        MapAt(nodeList, i);
      }
    }

    method Clear()
      requires Valid()
      modifies `nodeList, `lruMap
      ensures Valid() && Contents() == Apply(old(Contents()), capacity, Op.Clear)
    {
      lruMap := map[];
      nodeList := [];
    }

    method Find(key: K) returns (node: Node?<K, V>)
      requires Valid()
      modifies `nodeList
      ensures Valid() && Contents() == Apply(old(Contents()), capacity, Lookup(key))
      ensures node == if key in lruMap then lruMap[key] else null
      ensures node != null <==> Has(old(Contents()), key)
      ensures node != null ==> nodeList != [] && nodeList[0] == node && node.value == ValueOf(old(Contents()), key)
      ensures node != null ==> node in old(nodeList)
    {
      Located(key);
      if key !in lruMap {
        return null;
      }
      node := lruMap[key];
      SpliceToFront(Position(nodeList, node));
    }

    method SpliceToFront(at: nat)
      requires Valid() && at < |nodeList|
      modifies `nodeList
      ensures Valid() && nodeList == [old(nodeList)[at]] + EraseAt(old(nodeList), at)
      ensures Contents() == [old(Contents())[at]] + EraseAt(old(Contents()), at)
    {
      MapSplice(nodeList, at);
      nodeList := [nodeList[at]] + EraseAt(nodeList, at);
    }

    method Get(key: K, initial: V) returns (found: bool, value: V)
      requires Valid()
      modifies `nodeList, `lruMap
      ensures Valid() && Contents() == Apply(old(Contents()), capacity, Lookup(key))
      ensures found <==> Has(old(Contents()), key)
      ensures value == if found then ValueOf(old(Contents()), key) else initial
    {
      value := initial;
      var node := Find(key);
      if node == null {
        return false, value;
      }
      value := node.value;
      found := true;
    }

    method HasKey(key: K) returns (found: bool)
      requires Valid()
      modifies `nodeList, `lruMap
      ensures Valid() && Contents() == Apply(old(Contents()), capacity, Lookup(key))
      ensures found <==> Has(old(Contents()), key)
    {
      var node := Find(key);
      found := node != null;
    }

    /** A store through the pointer that Find returned, while its key is still resident. */
    method StoreThrough(node: Node<K, V>, value: V)
      requires Valid() && node in nodeList
      modifies node
      ensures Valid() && Contents() == Apply(old(Contents()), capacity, Overwrite(node.key, value))
    {
      Located(node.key);
      ghost var s, i := Contents(), Index(Contents(), node.key);
      node.value := value;
      assert Contents() == s[i := (node.key, value)];
    }

    method Put(key: K, value: V) returns (evicted: Option<(K, V)>)
      requires Valid()
      modifies `nodeList, `lruMap, nodeList
      ensures Valid() && Contents() == Apply(old(Contents()), capacity, Op.Put(key, value))
      ensures evicted == Evicted(old(Contents()), capacity, Op.Put(key, value))
    {
      ghost var s := Contents();
      var node := Find(key);
      if node != null {
        PutHit(s, capacity, key, value);
        StoreThrough(node, value);
        return None;
      }
      MapSize(nodeList);
      evicted := None;
      if |lruMap| == capacity {
        evicted := RemoveTail();
      }
      InsertFront(key, value);
    }

    method RemoveTail() returns (evicted: Option<(K, V)>)
      requires Valid() && nodeList != []
      modifies `nodeList, `lruMap
      ensures Valid() && Contents() == old(Contents())[..|old(Contents())| - 1]
      ensures evicted == Some(old(Contents())[|old(Contents())| - 1])
      ensures lruMap.Keys <= old(lruMap.Keys)
    {
      var back := nodeList[|nodeList| - 1];
      MapErase(nodeList, |nodeList| - 1);
      lruMap := lruMap - {back.key};
      evicted := Some((back.key, back.value));
      assert EraseAt(nodeList, |nodeList| - 1) == nodeList[..|nodeList| - 1];
      nodeList := nodeList[..|nodeList| - 1];
    }

    method InsertFront(key: K, value: V)
      requires Valid() && |nodeList| < capacity && key !in lruMap
      modifies `nodeList, `lruMap
      ensures Valid() && Contents() == [(key, value)] + old(Contents())
    {
      var node := new Node(key, value);
      PushNode(nodeList, node);
      nodeList := [node] + nodeList;
      lruMap := lruMap[key := node];
    }

    method Remove(key: K) returns (removed: bool)
      requires Valid()
      modifies `nodeList, `lruMap
      ensures Valid() && Contents() == Apply(old(Contents()), capacity, Op.Remove(key))
      ensures removed <==> Has(old(Contents()), key)
    {
      Located(key);
      if key !in lruMap {
        return false;
      }
      ghost var s, i := Contents(), Index(Contents(), key);
      var at := Position(nodeList, lruMap[key]);
      assert at == i;
      MapErase(nodeList, at);
      nodeList := EraseAt(nodeList, at);
      lruMap := lruMap - {key};
      assert Contents() == EraseAt(s, i);
      removed := true;
    }

    /** The count comes back exactly when it fits an int, as it does if the capacity does. */
    method Size() returns (size: int)
      requires Valid()
      ensures size == ToInt32(|Contents()|) && |Contents()| <= capacity
      ensures size == |Contents()| <==> |Contents()| < 0x8000_0000
    {
      MapSize(nodeList);
      size := ToInt32(|lruMap|);
    }

    /** Any call, on any cache reached by calls: what is proved of every run holds of it. */
    method Perform(op: Op<K, V>)
      requires Reached()
      modifies this, nodeList
      ensures Reached() && history == old(history) + [op]
    {
      RunSnoc(history, capacity, op);
      Dispatch(op);
      history := history + [op];
    }

    method Dispatch(op: Op<K, V>)
      requires Valid()
      modifies `nodeList, `lruMap, nodeList
      ensures Valid() && Contents() == Apply(old(Contents()), capacity, op)
    {
      match op {
        case Lookup(key) => var _ := Find(key);
        case Overwrite(key, value) =>
          Located(key);
          if key in lruMap {
            StoreThrough(lruMap[key], value);
          }
        case Put(key, value) => var _ := Put(key, value);
        case Remove(key) => var _ := Remove(key);
        case Clear => Clear();
      }
    }
  }
}
