/**
 The cache object of lib/util/lrucache.hpp: a linked list of items and an index
 from keys to list nodes. A node keeps its identity while the list changes, as a
 list iterator does.
 */
module LruCache {
  import opened LruSpec

  datatype Node<K, V> = Node(id: nat, item: Item<K, V>)

  function Items<K, V>(list: seq<Node<K, V>>): (items: seq<Item<K, V>>)
    ensures |items| == |list|
    ensures forall i | 0 <= i < |list| :: items[i] == list[i].item
  {
    seq(|list|, i requires 0 <= i < |list| => list[i].item)
  }

  /** Each node and each key once. */
  predicate Separate<K(==), V>(list: seq<Node<K, V>>) {
    forall i, j | 0 <= i < j < |list| :: list[i].id != list[j].id && list[i].item.key != list[j].item.key
  }

  /** The index leads from each key to its node. */
  predicate PointsTo<K(==), V>(list: seq<Node<K, V>>, index: map<K, nat>) {
    forall i | 0 <= i < |list| :: list[i].item.key in index && index[list[i].item.key] == list[i].id
  }

  predicate OnList<K(==), V>(list: seq<Node<K, V>>, key: K) {
    exists i | 0 <= i < |list| :: list[i].item.key == key
  }

  predicate Covers<K(==), V>(list: seq<Node<K, V>>, index: map<K, nat>) {
    forall k | k in index :: OnList(list, k)
  }

  /** The index and the list describe each other. */
  predicate Linked<K(==), V>(list: seq<Node<K, V>>, index: map<K, nat>) {
    Separate(list) && PointsTo(list, index) && Covers(list, index)
  }

  /** Where a node is in the list. */
  function Locate<K, V>(list: seq<Node<K, V>>, id: nat): (i: nat)
    ensures i <= |list|
    ensures i < |list| ==> list[i].id == id
    ensures forall j | 0 <= j < i :: list[j].id != id
  {
    if list == [] then 0 else if list[0].id == id then 0 else 1 + Locate(list[1..], id)
  }

  /** The index leads to the place where the key is. */
  lemma IndexFinds<K, V>(list: seq<Node<K, V>>, index: map<K, nat>, key: K)
    requires Linked(list, index)
    ensures key in index <==> Has(Items(list), key)
    ensures key in index ==> Locate(list, index[key]) == Find(Items(list), key) < |list|
  {
    hide Items;
    if Has(Items(list), key) {
      assert list[Find(Items(list), key)].item.key == key;
    }
    if key in index {
      assert OnList(list, key);
      var j :| 0 <= j < |list| && list[j].item.key == key;
      assert list[j].id == index[key];
      FoundAt(list, j);
    }
  }

  lemma FoundAt<K, V>(list: seq<Node<K, V>>, j: nat)
    requires Separate(list) && j < |list|
    ensures Find(Items(list), list[j].item.key) == j && Locate(list, list[j].id) == j
  {
    hide Items;
    var i, l := Find(Items(list), list[j].item.key), Locate(list, list[j].id);
    assert Items(list)[j].key == list[j].item.key;
    assert i <= j && l <= j;
    assert forall x | 0 <= x < j :: list[x].id != list[j].id && list[x].item.key != list[j].item.key;
  }

  lemma ItemsErase<K, V>(list: seq<Node<K, V>>, key: K)
    requires Has(Items(list), key)
    ensures var i := Find(Items(list), key);
            Items(list[..i] + list[i + 1..]) == Without(Items(list), key)
  {
  }

  function Erased<T>(list: seq<T>, i: nat): (r: seq<T>)
    requires i < |list|
    ensures |r| == |list| - 1
    ensures forall k | 0 <= k < i :: r[k] == list[k]
    ensures forall k | i <= k < |r| :: r[k] == list[k + 1]
  {
    list[..i] + list[i + 1..]
  }

  lemma EraseLinked<K, V>(list: seq<Node<K, V>>, index: map<K, nat>, i: nat)
    requires Linked(list, index) && i < |list|
    ensures Linked(list[..i] + list[i + 1..], index - {list[i].item.key})
  {
    hide Separate, PointsTo, Covers, Erased;
    EraseSeparate(list, i);
    ErasePoints(list, index, i);
    EraseCovers(list, index, i);
    assert list[..i] + list[i + 1..] == Erased(list, i);
  }

  lemma EraseSeparate<K, V>(list: seq<Node<K, V>>, i: nat)
    requires Separate(list) && i < |list|
    ensures Separate(Erased(list, i))
  {
    hide Erased;
  }

  lemma ErasePoints<K, V>(list: seq<Node<K, V>>, index: map<K, nat>, i: nat)
    requires Separate(list) && PointsTo(list, index) && i < |list|
    ensures PointsTo(Erased(list, i), index - {list[i].item.key})
  {
    hide Erased;
    var r := Erased(list, i);
    forall k | 0 <= k < |r|
      ensures r[k].item.key in index && r[k].item.key != list[i].item.key && index[r[k].item.key] == r[k].id
    {
      var j := if k < i then k else k + 1;
      assert r[k] == list[j];
    }
  }

  lemma EraseCovers<K, V>(list: seq<Node<K, V>>, index: map<K, nat>, i: nat)
    requires Covers(list, index) && i < |list|
    ensures Covers(Erased(list, i), index - {list[i].item.key})
  {
    hide Erased;
    var r := Erased(list, i);
    forall k | k in index - {list[i].item.key} ensures OnList(r, k) {
      assert OnList(list, k);
      var j :| 0 <= j < |list| && list[j].item.key == k;
      assert r[if j < i then j else j - 1].item.key == k;
    }
  }

  lemma PushLinked<K, V>(list: seq<Node<K, V>>, index: map<K, nat>, node: Node<K, V>)
    requires Linked(list, index) && node.item.key !in index
    requires forall i | 0 <= i < |list| :: list[i].id != node.id
    ensures Linked([node] + list, index[node.item.key := node.id])
  {
    hide Separate, Covers;
    PushSeparate(list, index, node);
    PushCovers(list, index, node);
  }

  lemma PushSeparate<K, V>(list: seq<Node<K, V>>, index: map<K, nat>, node: Node<K, V>)
    requires Separate(list) && PointsTo(list, index) && node.item.key !in index
    requires forall i | 0 <= i < |list| :: list[i].id != node.id
    ensures Separate([node] + list)
  {
  }

  lemma PushCovers<K, V>(list: seq<Node<K, V>>, index: map<K, nat>, node: Node<K, V>)
    requires Covers(list, index)
    ensures Covers([node] + list, index[node.item.key := node.id])
  {
    var list' := [node] + list;
    forall k | k in index[node.item.key := node.id] ensures OnList(list', k) {
      if k == node.item.key {
        assert list'[0].item.key == k;
      } else {
        assert OnList(list, k);
        var j :| 0 <= j < |list| && list[j].item.key == k;
        assert list'[j + 1].item.key == k;
      }
    }
  }

  /** As many keys in the index as nodes in the list. */
  lemma {:induction false} SameSize<K, V>(list: seq<Node<K, V>>, index: map<K, nat>)
    requires Linked(list, index)
    ensures |index| == |list|
    decreases |list|
  {
    if list == [] {
      assert index.Keys == {};
    } else {
      var last := |list| - 1;
      var key := list[last].item.key;
      EraseLinked(list, index, last);
      assert list[..last] + list[last + 1..] == list[..last];
      SameSize(list[..last], index - {key});
      OneKey(index, key);
    }
  }

  lemma OneKey<K>(index: map<K, nat>, key: K)
    requires key in index
    ensures |index| == |index - {key}| + 1
  {
    var rest := index - {key};
    assert index.Keys == rest.Keys + {key};
    assert |index.Keys| == |rest.Keys| + 1;
  }

  class Cache<K(==), V> {
    var list: seq<Node<K, V>>
    var index: map<K, nat>
    const capacity: nat
    var nextId: nat

    predicate Valid()
      reads this
    {
      && Linked(list, index)
      && |list| <= capacity
      && forall i | 0 <= i < |list| :: list[i].id < nextId
    }

    /** The items, most recently used first. */
    function Contents(): seq<Item<K, V>>
      reads this
    {
      Items(list)
    }

    constructor (capacity: nat)
      ensures Valid() && Contents() == [] && this.capacity == capacity
    {
      list, index, nextId := [], map[], 0;
      this.capacity := capacity;
    }

    method EraseIfExists(key: K)
      requires Valid()
      modifies this
      ensures Valid() && Contents() == Apply(old(Contents()), Op<K, V>.Erase(key), capacity)
    {
      hide Linked;
      IndexFinds(list, index, key);
      if key in index {
        var i := Locate(list, index[key]);
        ItemsErase(list, key);
        EraseLinked(list, index, i);
        list := list[..i] + list[i + 1..];
        index := index - {key};
      }
    }

    method Clear()
      requires Valid()
      modifies this
      ensures Valid() && Contents() == Apply(old(Contents()), Op<K, V>.Clear, capacity)
    {
      index := map[];
      list := [];
    }

    predicate Exists(key: K)
      reads this
      requires Valid()
      ensures Exists(key) <==> Has(Contents(), key)
    {
      IndexFinds(list, index, key);
      key in index
    }

    function Size(): (n: nat)
      reads this
      requires Valid()
      ensures n == |Contents()|
    {
      SameSize(list, index);
      |index|
    }

    method Put(key: K, value: V)
      requires Valid()
      modifies this
      ensures Valid() && Contents() == Apply(old(Contents()), Op.Put(key, value), capacity)
    {
      hide Linked;
      EraseIfExists(key);
      IndexFinds(list, index, key);
      Gone(old(Contents()), key, old(list), old(index));
      var node := Node(nextId, Item(key, value));
      PushLinked(list, index, node);
      list := [node] + list;
      index := index[key := nextId];
      nextId := nextId + 1;
      assert Contents() == [Item(key, value)] + Without(old(Contents()), key);
      SameSize(list, index);
      if |index| > capacity {
        var last := |list| - 1;
        EraseLinked(list, index, last);
        assert list[..last] + list[last + 1..] == list[..last];
        index := index - {list[last].item.key};
        list := list[..last];
      }
    }

    /** A look-up moves the item to the front; a missing key is an error and changes nothing. */
    method Get(key: K) returns (value: LruSpec.Option<V>)
      requires Valid()
      modifies this
      ensures Valid() && Contents() == Apply(old(Contents()), Op<K, V>.Get(key), capacity)
      ensures value == if Has(old(Contents()), key) then Some(old(Contents())[Find(old(Contents()), key)].value) else None
    {
      hide Linked;
      IndexFinds(list, index, key);
      if key !in index {
        return None;
      }
      var i := Locate(list, index[key]);
      var node := list[i];
      ItemsErase(list, key);
      MoveLinked(list, index, i);
      list := [node] + (list[..i] + list[i + 1..]);
      return Some(node.item.value);
    }
  }

  lemma MoveLinked<K, V>(list: seq<Node<K, V>>, index: map<K, nat>, i: nat)
    requires Linked(list, index) && i < |list|
    ensures Linked([list[i]] + (list[..i] + list[i + 1..]), index)
  {
    hide Covers, Erased;
    var node := list[i];
    EraseLinked(list, index, i);
    assert list[..i] + list[i + 1..] == Erased(list, i);
    forall k | 0 <= k < |Erased(list, i)| ensures Erased(list, i)[k].id != node.id {
      assert Erased(list, i)[k] == list[if k < i then k else k + 1];
    }
    PushLinked(Erased(list, i), index - {node.item.key}, node);
    assert (index - {node.item.key})[node.item.key := node.id] == index;
  }

  lemma Gone<K, V>(items: seq<Item<K, V>>, key: K, list: seq<Node<K, V>>, index: map<K, nat>)
    requires Linked(list, index) && items == Items(list)
    ensures !Has(Without(items, key), key)
  {
    WithoutKeeps(items, key);
  }

  /** Runs a sequence of operations: the cache is always what the specification says. */
  method Execute<K(==), V>(ops: seq<Op<K, V>>, capacity: nat) returns (cache: Cache<K, V>)
    ensures fresh(cache) && cache.Valid() && cache.capacity == capacity && cache.Contents() == Run(ops, capacity)
  {
    hide Apply, Linked;
    cache := new Cache(capacity);
    for i := 0 to |ops|
      invariant cache.Valid() && cache.capacity == capacity && cache.Contents() == Run(ops[..i], capacity)
      invariant fresh(cache)
    {
      assert ops[..i + 1][..i] == ops[..i];
      match ops[i] {
        case Put(key, value) => cache.Put(key, value);
        case Get(key) => var value := cache.Get(key);
        case Erase(key) => cache.EraseIfExists(key);
        case Clear => cache.Clear();
      }
    }
    assert ops[..|ops|] == ops;
  }
}
