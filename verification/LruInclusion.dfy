/**
 Two caches of lib/util/lrucache.hpp of different sizes that see the same operations:
 the larger one holds everything the smaller one holds, in the same order.
 */
module LruInclusion {
  import opened LruSpec

  function DropLast<T>(s: seq<T>): seq<T>
    requires s != []
  {
    s[..|s| - 1]
  }

  function Last<T>(s: seq<T>): T
    requires s != []
  {
    s[|s| - 1]
  }

  /** b with some of its items left out is a. */
  ghost predicate Within<T>(a: seq<T>, b: seq<T>)
    decreases |b|
  {
    if a == [] then true
    else if b == [] then false
    else if Last(a) == Last(b) then Within(DropLast(a), DropLast(b))
    else Within(a, DropLast(b))
  }

  // --- leaving items out of either side -----------------------------------------------------

  lemma {:induction false} WithinShorter<T>(a: seq<T>, b: seq<T>)
    requires Within(a, b) && a != []
    ensures Within(DropLast(a), b) && b != [] && Within(DropLast(a), DropLast(b))
    decreases |b|, 1
  {
    if Last(a) == Last(b) {
      WithinLonger(DropLast(a), b);
    } else {
      WithinShorter(a, DropLast(b));
      WithinLonger(DropLast(a), b);
    }
  }

  lemma {:induction false} WithinLonger<T>(a: seq<T>, b: seq<T>)
    requires b != [] && Within(a, DropLast(b))
    ensures Within(a, b)
    decreases |b|, 0
  {
    if a != [] && Last(a) == Last(b) {
      WithinShorter(a, DropLast(b));
    }
  }

  lemma {:induction false} WithinMember<T>(a: seq<T>, b: seq<T>, i: nat)
    requires Within(a, b) && i < |a|
    ensures a[i] in b
    decreases |b|
  {
    if Last(a) != Last(b) {
      WithinMember(a, DropLast(b), i);
    } else if i < |a| - 1 {
      WithinMember(DropLast(a), DropLast(b), i);
    }
  }

  /** A new front on both sides, or on the longer side. */
  lemma {:induction false} WithinAhead<T>(a: seq<T>, b: seq<T>, x: T)
    requires Within(a, b)
    ensures Within([x] + a, [x] + b) && Within(a, [x] + b)
    decreases |b|
  {
    if b != [] {
      assert DropLast([x] + b) == [x] + DropLast(b) && Last([x] + b) == Last(b);
      if a == [] {
        WithinAhead(a, DropLast(b), x);
        WithinLonger([x] + a, [x] + b);
      } else {
        assert DropLast([x] + a) == [x] + DropLast(a) && Last([x] + a) == Last(a);
        WithinAhead(if Last(a) == Last(b) then DropLast(a) else a, DropLast(b), x);
      }
    }
  }

  // --- removing a key from both sides ------------------------------------------------------

  lemma {:induction false} WithoutBehind<K, V>(s: seq<Item<K, V>>, key: K)
    requires s != [] && Distinct(s)
    ensures Without(s, key) == if Last(s).key == key then DropLast(s) else Without(DropLast(s), key) + [Last(s)]
    ensures Last(s).key == key ==> Without(DropLast(s), key) == DropLast(s)
  {
    hide Find;
    var t := DropLast(s);
    var i, j := Find(s, key), Find(t, key);
    if i < |t| {
      assert t[i] == s[i];
      FindIs(t, i);
    } else {
      NotInFront(t, s, key);
    }
  }

  lemma NotInFront<K, V>(t: seq<Item<K, V>>, s: seq<Item<K, V>>, key: K)
    requires t <= s && Find(s, key) >= |t|
    ensures Find(t, key) == |t|
  {
    assert forall k | 0 <= k < |t| :: t[k] == s[k];
  }

  lemma {:induction false} WithinWithout<K, V>(a: seq<Item<K, V>>, b: seq<Item<K, V>>, key: K)
    requires Within(a, b) && Distinct(a) && Distinct(b)
    ensures Within(Without(a, key), Without(b, key))
    decreases |b|
  {
    hide Without;
    if a == [] {
      WithoutKeeps(a, key);
    } else {
      WithoutBehind(b, key);
      var rest := if Last(a) == Last(b) then DropLast(a) else a;
      WithinWithout(rest, DropLast(b), key);
      if Last(a) == Last(b) {
        WithoutBehind(a, key);
      }
      if Last(b).key != key {
        var w := Without(DropLast(b), key) + [Last(b)];
        assert DropLast(w) == Without(DropLast(b), key);
        if Last(a) == Last(b) {
          assert DropLast(Without(DropLast(a), key) + [Last(b)]) == Without(DropLast(a), key);
        } else {
          WithinLonger(Without(a, key), w);
        }
      }
    }
  }

  // --- one operation ---------------------------------------------------------------------

  /** The larger cache holds more, but not by more than it is larger. */
  ghost predicate Covers<K, V>(a: seq<Item<K, V>>, b: seq<Item<K, V>>, small: nat, large: nat) {
    && Within(a, b) && |b| - |a| <= large - small
    && Distinct(a) && Distinct(b) && |a| <= small && |b| <= large
  }

  /** A key of the smaller cache is in the larger one, with the same item. */
  lemma SameItem<K, V>(a: seq<Item<K, V>>, b: seq<Item<K, V>>, key: K)
    requires Within(a, b) && Distinct(b) && Has(a, key)
    ensures Has(b, key) && a[Find(a, key)] == b[Find(b, key)]
  {
    hide Find, Within;
    WithinMember(a, b, Find(a, key));
    var i :| 0 <= i < |b| && b[i] == a[Find(a, key)];
    FindIs(b, i);
  }

  lemma WithinTrim<T>(a: seq<T>, b: seq<T>, x: T)
    requires Within(a, b)
    ensures var c, d := [x] + a, [x] + b; Within(c, d) && Within(DropLast(c), d) && Within(DropLast(c), DropLast(d))
  {
    hide Within;
    WithinAhead(a, b, x);
    WithinShorter([x] + a, [x] + b);
  }

  /** Both caches lose the key, or only the larger one does. */
  lemma CoversWithout<K, V>(a: seq<Item<K, V>>, b: seq<Item<K, V>>, key: K, small: nat, large: nat)
    requires Covers(a, b, small, large)
    ensures Within(Without(a, key), Without(b, key))
    ensures |Without(b, key)| - |Without(a, key)| <= |b| - |a|
    ensures if Has(a, key) then Has(b, key) && a[Find(a, key)] == b[Find(b, key)] else Without(a, key) == a
  {
    hide Find, Without, Within, Distinct;
    WithinWithout(a, b, key);
    if Has(a, key) {
      SameItem(a, b, key);
    } else {
      NothingToRemove(a, key);
    }
  }

  lemma NothingToRemove<K, V>(a: seq<Item<K, V>>, key: K)
    requires !Has(a, key)
    ensures Without(a, key) == a
  {
  }

  lemma PutWithin<K, V>(a: seq<Item<K, V>>, b: seq<Item<K, V>>, x: Item<K, V>, small: nat, large: nat)
    requires Within(a, b) && |b| - |a| <= large - small && |a| <= small <= large && |b| <= large
    ensures var c, d := Trim([x] + a, small), Trim([x] + b, large); Within(c, d) && |d| - |c| <= large - small
  {
    hide Within;
    WithinTrim(a, b, x);
  }

  lemma ApplyWithin<K, V>(a: seq<Item<K, V>>, b: seq<Item<K, V>>, op: Op<K, V>, small: nat, large: nat)
    requires Covers(a, b, small, large) && small <= large
    ensures var c, d := Apply(a, op, small), Apply(b, op, large); Within(c, d) && |d| - |c| <= large - small
  {
    hide Find, Without, Distinct;
    if !op.Clear? {
      CoversWithout(a, b, op.key, small, large);
      var c, d := Without(a, op.key), Without(b, op.key);
      hide Within;
      if op.Put? {
        PutWithin(c, d, Item(op.key, op.value), small, large);
      } else if op.Get? && Has(b, op.key) {
        WithinAhead(c, d, b[Find(b, op.key)]);
      }
    }
  }

  // --- every run -------------------------------------------------------------------------

  /** After any operations the larger cache holds everything the smaller one holds, in the same order. */
  lemma {:induction false} Inclusion<K, V>(ops: seq<Op<K, V>>, small: nat, large: nat)
    requires small <= large
    ensures Within(Run(ops, small), Run(ops, large))
    ensures |Run(ops, large)| - |Run(ops, small)| <= large - small
    decreases |ops|
  {
    hide Apply, Within;
    if ops == [] {
      WithinNothing<Item<K, V>>([]);
    } else {
      var before, op := ops[..|ops| - 1], ops[|ops| - 1];
      Inclusion(before, small, large);
      RunKeeps(before, small);
      RunKeeps(before, large);
      ApplyWithin(Run(before, small), Run(before, large), op, small, large);
    }
  }

  lemma WithinNothing<T>(b: seq<T>)
    ensures Within([], b)
  {
  }

  /** A look-up that succeeds in the smaller cache returns the same value from the larger one. */
  lemma HitsInclude<K, V>(ops: seq<Op<K, V>>, small: nat, large: nat, key: K)
    requires small <= large && Has(Run(ops, small), key)
    ensures var a, b := Run(ops, small), Run(ops, large);
            Has(b, key) && b[Find(b, key)].value == a[Find(a, key)].value
  {
    hide Run, Find, Within;
    Inclusion(ops, small, large);
    RunKeeps(ops, large);
    SameItem(Run(ops, small), Run(ops, large), key);
  }

  // --- while every look-up hits, the smaller cache is the front of the larger one ---------

  lemma WithoutPrefix<K, V>(a: seq<Item<K, V>>, b: seq<Item<K, V>>, key: K)
    requires a <= b && Distinct(b)
    ensures Without(a, key) <= Without(b, key)
  {
    hide Find;
    var i := Find(a, key);
    if i < |a| {
      assert a[i] == b[i];
      FindIs(b, i);
      CutPrefix(a, b, i);
    } else {
      NotInLonger(a, b, key);
      if Has(b, key) {
        CutPrefix(a, b, Find(b, key));
      }
    }
  }

  lemma CutPrefix<T>(a: seq<T>, b: seq<T>, i: nat)
    requires a <= b && i < |b|
    ensures if i < |a| then a[..i] + a[i + 1..] <= b[..i] + b[i + 1..] else a <= b[..i] + b[i + 1..]
  {
    if i < |a| {
      assert b[i + 1..] == a[i + 1..] + b[|a|..];
      assert b[..i] + b[i + 1..] == a[..i] + a[i + 1..] + b[|a|..];
    } else {
      assert b[..i] == a + b[|a|..i];
    }
  }

  lemma NotInLonger<K, V>(t: seq<Item<K, V>>, s: seq<Item<K, V>>, key: K)
    requires t <= s && !Has(t, key)
    ensures Find(s, key) >= |t|
  {
    hide Find;
    assert forall k | 0 <= k < |t| :: t[k] == s[k] && t[k].key != key;
  }

  lemma ApplyPrefix<K, V>(a: seq<Item<K, V>>, b: seq<Item<K, V>>, op: Op<K, V>, small: nat, large: nat)
    requires a <= b && Distinct(b) && small <= large && |a| <= small && |b| <= large
    requires op.Get? ==> Has(a, op.key)
    ensures Apply(a, op, small) <= Apply(b, op, large)
  {
    hide Find, Without;
    if !op.Clear? {
      WithoutPrefix(a, b, op.key);
      if op.Get? {
        SameFind(a, b, op.key);
      }
    }
  }

  lemma SameFind<K, V>(a: seq<Item<K, V>>, b: seq<Item<K, V>>, key: K)
    requires a <= b && Distinct(b) && Has(a, key)
    ensures Find(a, key) == Find(b, key)
  {
    var i := Find(a, key);
    assert a[i] == b[i];
    FindIs(b, i);
  }

  /** Every key that is looked up is in the smaller cache. */
  predicate GetsHit<K(==), V>(ops: seq<Op<K, V>>, small: nat) {
    forall i | 0 <= i < |ops| && ops[i].Get? :: Has(Run(ops[..i], small), ops[i].key)
  }

  /** As long as look-ups hit, what the smaller cache holds is the front of what the larger one holds. */
  lemma {:induction false} PrefixWhileHits<K, V>(ops: seq<Op<K, V>>, small: nat, large: nat)
    requires small <= large && GetsHit(ops, small)
    ensures Run(ops, small) <= Run(ops, large)
    decreases |ops|
  {
    hide Apply, Has;
    if ops != [] {
      var before, op := ops[..|ops| - 1], ops[|ops| - 1];
      assert forall i | 0 <= i < |before| :: before[i] == ops[i] && before[..i] == ops[..i];
      PrefixWhileHits(before, small, large);
      RunKeeps(before, small);
      RunKeeps(before, large);
      ApplyPrefix(Run(before, small), Run(before, large), op, small, large);
    }
  }
}
