/**
 The least-recently-used cache of lib/util/lrucache.hpp as a list of items, most
 recently used first, and what holds over every run of its operations.
 */
module LruSpec {

  datatype Item<K, V> = Item(key: K, value: V)

  datatype Op<K, V> = Put(key: K, value: V) | Get(key: K) | Erase(key: K) | Clear

  /** Where a key is in the list, or the length of the list. */
  function Find<K(==), V>(items: seq<Item<K, V>>, key: K): (i: nat)
    ensures i <= |items|
    ensures i < |items| ==> items[i].key == key
    ensures forall j | 0 <= j < i :: items[j].key != key
  {
    if items == [] then 0 else if items[0].key == key then 0 else 1 + Find(items[1..], key)
  }

  predicate Has<K(==), V>(items: seq<Item<K, V>>, key: K) {
    Find(items, key) < |items|
  }

  function Without<K(==), V>(items: seq<Item<K, V>>, key: K): (r: seq<Item<K, V>>)
    ensures |r| == |items| - (if Has(items, key) then 1 else 0)
  {
    var i := Find(items, key);
    if i < |items| then items[..i] + items[i + 1..] else items
  }

  /** At most one item is over the capacity after an insertion, and it is the last one. */
  function Trim<K, V>(items: seq<Item<K, V>>, capacity: nat): seq<Item<K, V>> {
    if |items| > capacity then items[..|items| - 1] else items
  }

  function Apply<K(==), V>(items: seq<Item<K, V>>, op: Op<K, V>, capacity: nat): seq<Item<K, V>> {
    match op
    case Put(key, value) => Trim([Item(key, value)] + Without(items, key), capacity)
    case Get(key) => if Has(items, key) then [items[Find(items, key)]] + Without(items, key) else items
    case Erase(key) => Without(items, key)
    case Clear => []
  }

  /** The list after a run of operations on an empty cache. */
  function Run<K(==), V>(ops: seq<Op<K, V>>, capacity: nat): seq<Item<K, V>> {
    if ops == [] then [] else Apply(Run(ops[..|ops| - 1], capacity), ops[|ops| - 1], capacity)
  }

  predicate Distinct<K(==), V>(items: seq<Item<K, V>>) {
    forall i, j | 0 <= i < j < |items| :: items[i].key != items[j].key
  }

  lemma FindIs<K, V>(items: seq<Item<K, V>>, i: nat)
    requires Distinct(items) && i < |items|
    ensures Find(items, items[i].key) == i
  {
    var j := Find(items, items[i].key);
    assert forall k | 0 <= k < i :: items[k].key != items[i].key;
  }

  /** The position in the list without a key. */
  lemma WithoutAt<K, V>(items: seq<Item<K, V>>, key: K, i: nat)
    requires i < |Without(items, key)|
    ensures var j := if i < Find(items, key) then i else i + 1;
            Has(items, key) ==> j < |items| && Without(items, key)[i] == items[j]
    ensures !Has(items, key) ==> Without(items, key) == items
  {
    hide Find;
  }

  lemma WithoutKeeps<K, V>(items: seq<Item<K, V>>, key: K)
    requires Distinct(items)
    ensures Distinct(Without(items, key))
    ensures forall i | 0 <= i < |Without(items, key)| :: Without(items, key)[i].key != key
    ensures forall i | 0 <= i < |Without(items, key)| :: Without(items, key)[i] in items
    ensures forall i | 0 <= i < |items| && items[i].key != key :: items[i] in Without(items, key)
  {
    var r, at := Without(items, key), Find(items, key);
    if at < |items| {
      forall i | 0 <= i < |items| && items[i].key != key ensures items[i] in r {
        assert i < at ==> r[i] == items[i];
        assert i > at ==> r[i - 1] == items[i];
      }
      forall i | 0 <= i < |r| ensures r[i].key != key && r[i] in items {
        WithoutAt(items, key, i);
        var j := if i < at then i else i + 1;
        assert i < at ==> items[i].key != items[at].key;
        assert i >= at ==> items[at].key != items[i + 1].key;
      }
    }
  }

  // --- the invariant of every run ---------------------------------------------------------

  lemma ApplyKeeps<K, V>(items: seq<Item<K, V>>, op: Op<K, V>, capacity: nat)
    requires Distinct(items) && |items| <= capacity
    ensures Distinct(Apply(items, op, capacity)) && |Apply(items, op, capacity)| <= capacity
  {
    hide Find, Without, Distinct;
    if op.Clear? {
      NothingTwice<K, V>();
    } else {
      WithoutKeeps(items, op.key);
      if op.Put? {
        FrontDistinct(Item(op.key, op.value), Without(items, op.key));
      } else if op.Get? && Has(items, op.key) {
        FrontDistinct(items[Find(items, op.key)], Without(items, op.key));
      }
    }
  }

  lemma NothingTwice<K, V>()
    ensures Distinct<K, V>([])
  {
  }

  lemma FrontDistinct<K, V>(x: Item<K, V>, w: seq<Item<K, V>>)
    requires Distinct(w) && forall i | 0 <= i < |w| :: w[i].key != x.key
    ensures Distinct([x] + w) && Distinct(([x] + w)[..|w|])
  {
  }

  /** No key twice, and never over capacity. */
  lemma {:induction false} RunKeeps<K, V>(ops: seq<Op<K, V>>, capacity: nat)
    ensures Distinct(Run(ops, capacity)) && |Run(ops, capacity)| <= capacity
    decreases |ops|
  {
    hide Apply;
    if ops != [] {
      RunKeeps(ops[..|ops| - 1], capacity);
      ApplyKeeps(Run(ops[..|ops| - 1], capacity), ops[|ops| - 1], capacity);
    }
  }

  // --- a hit returns the last value put ------------------------------------------------------

  datatype Option<V> = None | Some(get: V)

  /** The last value put under a key and not erased since, whatever the capacity. */
  function LastPut<K(==), V>(ops: seq<Op<K, V>>, key: K): Option<V> {
    if ops == [] then None
    else
      match ops[|ops| - 1]
      case Put(k, v) => if k == key then Some(v) else LastPut(ops[..|ops| - 1], key)
      case Erase(k) => if k == key then None else LastPut(ops[..|ops| - 1], key)
      case Clear => None
      case Get(_) => LastPut(ops[..|ops| - 1], key)
  }

  /** Whatever is in the cache is the last value put under its key. */
  lemma {:induction false} HitIsLastPut<K, V>(ops: seq<Op<K, V>>, capacity: nat, i: nat)
    requires i < |Run(ops, capacity)|
    ensures var item := Run(ops, capacity)[i]; LastPut(ops, item.key) == Some(item.value)
    decreases |ops|
  {
    hide Find, Without;
    var before, op := ops[..|ops| - 1], ops[|ops| - 1];
    var items, item := Run(before, capacity), Run(ops, capacity)[i];
    RunKeeps(before, capacity);
    if !op.Clear? {
      WithoutKeeps(items, op.key);
      Where(items, op, capacity, i);
      if item in items {
        var j :| 0 <= j < |items| && items[j] == item;
        HitIsLastPut(before, capacity, j);
      }
    }
  }

  /** Every item after an operation was there before, or was just put. */
  lemma Where<K, V>(items: seq<Item<K, V>>, op: Op<K, V>, capacity: nat, i: nat)
    requires Distinct(items) && !op.Clear? && i < |Apply(items, op, capacity)|
    ensures var item := Apply(items, op, capacity)[i];
            && (op.Put? && item.key == op.key ==> item == Item(op.key, op.value))
            && (op.Put? && item.key != op.key ==> item in items)
            && (op.Get? ==> item in items)
            && (op.Erase? ==> item in items && item.key != op.key)
  {
    hide Find, Without;
    var w := Without(items, op.key);
    WithoutKeeps(items, op.key);
    if op.Get? && !Has(items, op.key) {
    } else if !op.Erase? {
      assert i > 0 ==> Apply(items, op, capacity)[i] == w[i - 1];
    } else {
      assert Apply(items, op, capacity)[i] == w[i];
    }
  }

  // --- the order is the order of use ------------------------------------------------------------

  /** When a key was last put or found, counting operations from 1; 0 if never. */
  function LastUse<K(==), V>(ops: seq<Op<K, V>>, capacity: nat, key: K): (n: nat)
    ensures n <= |ops|
  {
    if ops == [] then 0
    else
      var before, op := ops[..|ops| - 1], ops[|ops| - 1];
      if op.Put? && op.key == key then |ops|
      else if op.Get? && op.key == key && Has(Run(before, capacity), key) then |ops|
      else LastUse(before, capacity, key)
  }

  /** After an operation that puts or finds a key, that key is in front and the others follow. */
  lemma Front<K, V>(items: seq<Item<K, V>>, op: Op<K, V>, capacity: nat, i: nat)
    requires Distinct(items) && (op.Put? || (op.Get? && Has(items, op.key))) && i < |Apply(items, op, capacity)|
    ensures i == 0 ==> Apply(items, op, capacity)[i].key == op.key
    ensures i > 0 ==>
              && i - 1 < |Without(items, op.key)|
              && Apply(items, op, capacity)[i] == Without(items, op.key)[i - 1]
              && Apply(items, op, capacity)[i].key != op.key
  {
    hide Find, Without, Distinct;
    var w := Without(items, op.key);
    WithoutKeeps(items, op.key);
    if op.Put? {
      Ahead(Item(op.key, op.value), w, capacity, i);
    } else {
      Ahead(items[Find(items, op.key)], w, |w| + 1, i);
    }
  }

  /** A list with a new front, once it is trimmed. */
  lemma Ahead<K, V>(x: Item<K, V>, w: seq<Item<K, V>>, capacity: nat, i: nat)
    requires i < |Trim([x] + w, capacity)|
    ensures Trim([x] + w, capacity)[i] == if i == 0 then x else w[i - 1]
    ensures |w| < capacity ==> Trim([x] + w, capacity) == [x] + w
  {
  }

  /** The list is sorted by last use, the latest first. */
  lemma {:induction false} SortedByUse<K, V>(ops: seq<Op<K, V>>, capacity: nat, i: nat, j: nat)
    requires i < j < |Run(ops, capacity)|
    ensures LastUse(ops, capacity, Run(ops, capacity)[i].key) > LastUse(ops, capacity, Run(ops, capacity)[j].key)
    decreases |ops|, 0
  {
    hide Find, Without, Has, Trim;
    var before, op := ops[..|ops| - 1], ops[|ops| - 1];
    var items := Run(before, capacity);
    RunKeeps(before, capacity);
    if op.Erase? {
      WithoutSorted(before, capacity, op.key, i, j);
    } else if op.Put? || (op.Get? && Has(items, op.key)) {
      Front(items, op, capacity, i);
      Front(items, op, capacity, j);
      if i > 0 {
        WithoutSorted(before, capacity, op.key, i - 1, j - 1);
      }
    } else if op.Get? {
      SortedByUse(before, capacity, i, j);
    }
  }

  lemma WithoutSorted<K, V>(ops: seq<Op<K, V>>, capacity: nat, key: K, i: nat, j: nat)
    requires i < j < |Without(Run(ops, capacity), key)|
    ensures var w := Without(Run(ops, capacity), key);
            LastUse(ops, capacity, w[i].key) > LastUse(ops, capacity, w[j].key)
    decreases |ops|, 1
  {
    hide LastUse, Run, Find;
    var items := Run(ops, capacity);
    var at := Find(items, key);
    WithoutAt(items, key, i);
    WithoutAt(items, key, j);
    if Has(items, key) {
      SortedByUse(ops, capacity, if i < at then i else i + 1, if j < at then j else j + 1);
    } else {
      SortedByUse(ops, capacity, i, j);
    }
  }

  /** A put pushes out at most one other key, and it is the one whose last use is longest ago. */
  lemma EvictsLeastRecent<K, V>(ops: seq<Op<K, V>>, capacity: nat, key: K, value: V, i: nat)
    requires var items := Run(ops, capacity);
             i < |items| && items[i].key != key && !Has(Apply(items, Put(key, value), capacity), items[i].key)
    ensures var items := Run(ops, capacity);
            forall j | 0 <= j < |items| && j != i && items[j].key != key ::
              && LastUse(ops, capacity, items[j].key) > LastUse(ops, capacity, items[i].key)
              && Has(Apply(items, Put(key, value), capacity), items[j].key)
  {
    hide LastUse, Run, Find;
    var items := Run(ops, capacity);
    RunKeeps(ops, capacity);
    var w := Without(items, key);
    var after := Apply(items, Put(key, value), capacity);
    WithoutKeeps(items, key);
    forall j | 0 <= j < |items| && j != i && items[j].key != key
      ensures LastUse(ops, capacity, items[j].key) > LastUse(ops, capacity, items[i].key)
      ensures Has(after, items[j].key)
    {
      var a := Shifted(items, key, i);
      var b := Shifted(items, key, j);
      assert a != b;
      if a < |w| - 1 {
        KeptByPut(items, key, value, capacity, a);
      }
      KeptByPut(items, key, value, capacity, b);
      WithoutSorted(ops, capacity, key, b, a);
    }
  }

  /** A put can push out the last item only. */
  lemma KeptByPut<K, V>(items: seq<Item<K, V>>, key: K, value: V, capacity: nat, a: nat)
    requires a < |Without(items, key)| - 1
    ensures Has(Apply(items, Put(key, value), capacity), Without(items, key)[a].key)
  {
    hide Find, Without;
    var after := Apply(items, Put(key, value), capacity);
    assert after[a + 1] == Without(items, key)[a];
    Present(after, Without(items, key)[a].key);
  }

  /** Where an item is once another key is gone. */
  lemma Shifted<K, V>(items: seq<Item<K, V>>, key: K, i: nat) returns (k: nat)
    requires Distinct(items) && i < |items| && items[i].key != key
    ensures k < |Without(items, key)| && Without(items, key)[k] == items[i]
    ensures k == if i < Find(items, key) || !Has(items, key) then i else i - 1
  {
    var at := Find(items, key);
    k := if i < at || at == |items| then i else i - 1;
  }

  lemma Present<K, V>(items: seq<Item<K, V>>, key: K)
    ensures Has(items, key) <==> exists i | 0 <= i < |items| :: items[i].key == key
  {
  }
}
