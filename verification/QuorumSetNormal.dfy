/**
 Normalisation and sanity of quorum sets (normalizeQSet and isQuorumSetSane in
 src/scp/LocalNode.cpp).
 */
module QuorumSetNormal {
  import opened QuorumSets

  ghost predicate SameMeaning(a: QSet, b: QSet) {
    forall s: set<NodeId> :: Slice(a, s) == Slice(b, s) && VBlocking(a, s) == VBlocking(b, s)
  }

  /** A set that stands for one node. */
  predicate Singleton(q: QSet) {
    q.threshold == 1 && |q.validators| == 1 && |q.inner| == 0
  }

  /** A set that stands for its only inner set. */
  predicate Wrapper(q: QSet) {
    q.threshold == 1 && |q.validators| == 0 && |q.inner| == 1
  }

  /** Nothing is left to simplify. */
  predicate Normal(q: QSet)
    decreases q
  {
    !Wrapper(q) && AllNormal(q.inner)
  }

  predicate AllNormal(qs: seq<QSet>)
    decreases qs
  {
    qs == [] || (AllNormal(qs[..|qs| - 1]) && Normal(qs[|qs| - 1]) && !Singleton(qs[|qs| - 1]))
  }

  /** v and kept count for as much as the validators and the first k inner sets of q. */
  ghost predicate SameHits(v: seq<NodeId>, kept: seq<QSet>, q: QSet, k: nat)
    requires k <= |q.inner|
  {
    && |v| + |kept| == |q.validators| + k
    && forall s: set<NodeId> ::
         && Count(v, s) + SlicesIn(kept, s) == Count(q.validators, s) + SlicesIn(q.inner[..k], s)
         && Count(v, s) + BlockedIn(kept, s) == Count(q.validators, s) + BlockedIn(q.inner[..k], s)
  }

  lemma OneMore(qs: seq<QSet>, x: QSet, s: set<NodeId>)
    ensures SlicesIn(qs + [x], s) == SlicesIn(qs, s) + (if Slice(x, s) then 1 else 0)
    ensures BlockedIn(qs + [x], s) == BlockedIn(qs, s) + (if VBlocking(x, s) then 1 else 0)
  {
    assert (qs + [x])[..|qs|] == qs;
  }

  lemma OneMoreNode(nodes: seq<NodeId>, n: NodeId, s: set<NodeId>)
    ensures Count(nodes + [n], s) == Count(nodes, s) + (if n in s then 1 else 0)
  {
    assert (nodes + [n])[..|nodes|] == nodes;
  }

  lemma SingletonMeaning(q: QSet, s: set<NodeId>)
    requires Singleton(q)
    ensures Slice(q, s) == VBlocking(q, s) == (q.validators[0] in s)
  {
    assert q.validators[..0] == [];
    assert Count(q.validators, s) == (if q.validators[0] in s then 1 else 0);
  }

  lemma WrapperMeaning(q: QSet, s: set<NodeId>)
    requires Wrapper(q)
    ensures Slice(q, s) == Slice(q.inner[0], s) && VBlocking(q, s) == VBlocking(q.inner[0], s)
  {
    assert q.inner == [] + [q.inner[0]];
    OneMore([], q.inner[0], s);
  }

  lemma KeepOne(v: seq<NodeId>, kept: seq<QSet>, q: QSet, k: nat, x: QSet)
    requires k < |q.inner| && SameHits(v, kept, q, k) && SameMeaning(x, q.inner[k])
    ensures SameHits(v, kept + [x], q, k + 1)
  {
    hide Slice, VBlocking, Count, SlicesIn, BlockedIn;
    forall s: set<NodeId>
      ensures Count(v, s) + SlicesIn(kept + [x], s) == Count(q.validators, s) + SlicesIn(q.inner[..k + 1], s)
      ensures Count(v, s) + BlockedIn(kept + [x], s) == Count(q.validators, s) + BlockedIn(q.inner[..k + 1], s)
    {
      OneMore(kept, x, s);
      SlicesStep(q.inner, k, s);
    }
  }

  lemma MergeOne(v: seq<NodeId>, kept: seq<QSet>, q: QSet, k: nat, x: QSet)
    requires k < |q.inner| && SameHits(v, kept, q, k) && SameMeaning(x, q.inner[k]) && Singleton(x)
    ensures SameHits(v + [x.validators[0]], kept, q, k + 1)
  {
    hide Slice, VBlocking, Count, SlicesIn, BlockedIn;
    var v' := v + [x.validators[0]];
    forall s: set<NodeId>
      ensures Count(v', s) + SlicesIn(kept, s) == Count(q.validators, s) + SlicesIn(q.inner[..k + 1], s)
      ensures Count(v', s) + BlockedIn(kept, s) == Count(q.validators, s) + BlockedIn(q.inner[..k + 1], s)
    {
      OneMoreNode(v, x.validators[0], s);
      SingletonMeaning(x, s);
      SlicesStep(q.inner, k, s);
    }
  }

  lemma Finished(v: seq<NodeId>, kept: seq<QSet>, q: QSet)
    requires SameHits(v, kept, q, |q.inner|)
    ensures SameMeaning(QSet(q.threshold, v, kept), q)
  {
    hide Count, SlicesIn, BlockedIn;
    assert q.inner[..|q.inner|] == q.inner;
    var r := QSet(q.threshold, v, kept);
    forall s: set<NodeId> ensures Slice(r, s) == Slice(q, s) && VBlocking(r, s) == VBlocking(q, s) {
      assert Count(v, s) + SlicesIn(kept, s) == Count(q.validators, s) + SlicesIn(q.inner, s);
      assert Count(v, s) + BlockedIn(kept, s) == Count(q.validators, s) + BlockedIn(q.inner, s);
    }
  }

  lemma Unwrapped(r: QSet, q: QSet)
    requires SameMeaning(r, q) && Wrapper(r)
    ensures SameMeaning(r.inner[0], q)
  {
    hide Slice, VBlocking;
    forall s: set<NodeId> ensures Slice(r.inner[0], s) == Slice(q, s) && VBlocking(r.inner[0], s) == VBlocking(q, s) {
      WrapperMeaning(r, s);
    }
  }

  lemma NormalAppend(qs: seq<QSet>, x: QSet)
    requires AllNormal(qs) && Normal(x) && !Singleton(x)
    ensures AllNormal(qs + [x])
  {
    assert (qs + [x])[..|qs|] == qs;
  }

  lemma {:induction false} AllNormalAt(qs: seq<QSet>, k: nat)
    requires AllNormal(qs) && k < |qs|
    ensures Normal(qs[k]) && !Singleton(qs[k])
    decreases |qs|
  {
    if k < |qs| - 1 {
      AllNormalAt(qs[..|qs| - 1], k);
    }
  }

  lemma StartSame(q: QSet)
    ensures SameHits(q.validators, [], q, 0)
  {
    hide Count;
    assert q.inner[..0] == [];
  }

  /** Simplifies without changing what the set means, and leaves nothing to simplify. */
  method NormalizeQSet(q: QSet) returns (r: QSet)
    ensures SameMeaning(r, q)
    ensures Normal(r)
    ensures Normal(q) ==> r == q
    decreases q
  {
    hide SameHits, SameMeaning, Normal, AllNormal;
    var v, i := q.validators, q.inner;
    var it := 0;
    ghost var k, kept: seq<QSet> := 0, [];
    StartSame(q);
    NoneNormal();
    assert i == kept + q.inner[0..] && kept == q.inner[..0];
    while it < |i|
      invariant 0 <= it == |kept| && k <= |q.inner| && i == kept + q.inner[k..]
      invariant SameHits(v, kept, q, k)
      invariant AllNormal(kept)
      invariant Normal(q) ==> v == q.validators && kept == q.inner[..k]
      decreases |i| - it
    {
      assert i[it] == q.inner[k];
      NormalInside(q, k);
      var x := NormalizeQSet(i[it]);
      if x.threshold == 1 && |x.validators| == 1 && |x.inner| == 0 {
        MergeOne(v, kept, q, k, x);
        Erased(kept, q.inner, k);
        v := v + [x.validators[0]];
        i := i[..it] + i[it + 1..];
      } else {
        KeepOne(v, kept, q, k, x);
        NormalAppend(kept, x);
        Replaced(kept, q.inner, k, x);
        i := i[it := x];
        kept := kept + [x];
        it := it + 1;
      }
      k := k + 1;
    }
    Exhausted(i, kept, q.inner, k);
    r := QSet(q.threshold, v, i);
    Finished(v, i, q);
    NormalOuter(r);
    NormalOuter(q);
    if q.threshold == 1 && |v| == 0 && |i| == 1 {
      Unwrapped(r, q);
      AllNormalAt(i, 0);
      r := i[|i| - 1];
    }
  }

  lemma Erased(kept: seq<QSet>, qs: seq<QSet>, k: nat)
    requires k < |qs|
    ensures (kept + qs[k..])[..|kept|] + (kept + qs[k..])[|kept| + 1..] == kept + qs[k + 1..]
  {
  }

  lemma Replaced(kept: seq<QSet>, qs: seq<QSet>, k: nat, x: QSet)
    requires k < |qs|
    ensures (kept + qs[k..])[|kept| := x] == kept + [x] + qs[k + 1..]
    ensures qs[..k + 1] == qs[..k] + [qs[k]]
  {
  }

  lemma Exhausted(i: seq<QSet>, kept: seq<QSet>, qs: seq<QSet>, k: nat)
    requires k <= |qs| && i == kept + qs[k..] && |i| <= |kept|
    ensures k == |qs| && i == kept && qs[..k] == qs
  {
    assert |kept + qs[k..]| == |kept| + (|qs| - k);
  }

  lemma NoneNormal()
    ensures AllNormal([])
  {
  }

  lemma NormalOuter(q: QSet)
    ensures Normal(q) <==> !Wrapper(q) && AllNormal(q.inner)
  {
  }

  lemma NormalInside(q: QSet, k: nat)
    requires k < |q.inner|
    ensures Normal(q) ==> Normal(q.inner[k]) && !Singleton(q.inner[k])
  {
    if Normal(q) {
      AllNormalAt(q.inner, k);
    }
  }

  // --- sanity ---------------------------------------------------------------------------

  /** All validators, those of the inner sets included, in the order they are met. */
  function Flat(q: QSet): seq<NodeId>
    decreases q
  {
    q.validators + AllFlat(q.inner)
  }

  function AllFlat(qs: seq<QSet>): seq<NodeId>
    decreases qs
  {
    if qs == [] then [] else AllFlat(qs[..|qs| - 1]) + Flat(qs[|qs| - 1])
  }

  predicate Distinct(nodes: seq<NodeId>) {
    forall i, j | 0 <= i < j < |nodes| :: nodes[i] != nodes[j]
  }

  /** Thresholds within the number of entries; with the extra checks also a majority. */
  predicate ThresholdsOk(q: QSet, extraChecks: bool)
    decreases q
  {
    && 1 <= q.threshold <= q.Entries()
    && (extraChecks ==> q.threshold >= q.Entries() - q.threshold + 1)
    && AllThresholdsOk(q.inner, extraChecks)
  }

  predicate AllThresholdsOk(qs: seq<QSet>, extraChecks: bool)
    decreases qs
  {
    qs == [] || (AllThresholdsOk(qs[..|qs| - 1], extraChecks) && ThresholdsOk(qs[|qs| - 1], extraChecks))
  }

  /** The nodes come once each and none of them is known yet. */
  predicate New(nodes: seq<NodeId>, known: set<NodeId>) {
    Distinct(nodes) && forall n | n in nodes :: n !in known
  }

  lemma NewJoin(a: seq<NodeId>, b: seq<NodeId>, known: set<NodeId>)
    ensures New(a + b, known) <==> New(a, known) && New(b, known + AsSet(a))
  {
    if New(a + b, known) {
      forall i, j | 0 <= i < j < |a| ensures a[i] != a[j] {
        assert (a + b)[i] != (a + b)[j];
      }
      forall i, j | 0 <= i < j < |b| ensures b[i] != b[j] {
        assert (a + b)[|a| + i] != (a + b)[|a| + j];
      }
      forall n | n in b ensures n !in known + AsSet(a) {
        assert n in a + b;
        var j :| 0 <= j < |b| && b[j] == n;
        forall i | 0 <= i < |a| ensures a[i] != n {
          assert (a + b)[i] != (a + b)[|a| + j];
        }
      }
      forall n | n in a ensures n !in known {
        assert n in a + b;
      }
    }
    if New(a, known) && New(b, known + AsSet(a)) {
      forall i, j | 0 <= i < j < |a + b| ensures (a + b)[i] != (a + b)[j] {
        if i < |a| <= j {
          assert a[i] in AsSet(a) && b[j - |a|] in b;
        }
      }
    }
  }

  lemma AsSetJoin(a: seq<NodeId>, b: seq<NodeId>)
    ensures AsSet(a + b) == AsSet(a) + AsSet(b)
  {
  }

  method IsQuorumSetSaneInternal(q: QSet, knownNodes: set<NodeId>, extraChecks: bool)
    returns (sane: bool, known: set<NodeId>)
    ensures sane <==> ThresholdsOk(q, extraChecks) && New(Flat(q), knownNodes)
    ensures sane ==> known == knownNodes + AsSet(Flat(q))
    decreases q
  {
    hide New, ThresholdsOk, AllThresholdsOk, Flat, AllFlat, AsSet;
    known := knownNodes;
    ThresholdsOuter(q, extraChecks);
    FlatOuter(q);
    var totEntries := |q.validators| + |q.inner|;
    if 1 <= q.threshold <= totEntries && (!extraChecks || q.threshold >= totEntries - q.threshold + 1) {
      NothingNew(known);
      for k := 0 to |q.validators|
        invariant New(q.validators[..k], knownNodes) && known == knownNodes + AsSet(q.validators[..k])
      {
        var n := q.validators[k];
        NewNode(q.validators, k, knownNodes, AllFlat(q.inner));
        if n in known {
          return false, known;
        }
        known := known + {n};
      }
      assert q.validators[..|q.validators|] == q.validators;
      ghost var base := known;
      NewJoin(q.validators, AllFlat(q.inner), knownNodes);
      AsSetJoin(q.validators, AllFlat(q.inner));
      NothingInside(q.inner, extraChecks, base);
      for k := 0 to |q.inner|
        invariant AllThresholdsOk(q.inner[..k], extraChecks)
        invariant New(AllFlat(q.inner[..k]), base) && known == base + AsSet(AllFlat(q.inner[..k]))
      {
        var ok;
        ghost var before := known;
        NextInner(q.inner, k, extraChecks, base);
        ok, known := IsQuorumSetSaneInternal(q.inner[k], known, extraChecks);
        if !ok {
          return false, known;
        }
        AsSetJoin(AllFlat(q.inner[..k]), Flat(q.inner[k]));
        Grow(base, AsSet(AllFlat(q.inner[..k])), AsSet(Flat(q.inner[k])));
      }
      assert q.inner[..|q.inner|] == q.inner;
      Grow(knownNodes, AsSet(q.validators), AsSet(AllFlat(q.inner)));
      return true, known;
    } else {
      return false, known;
    }
  }

  lemma Grow(a: set<NodeId>, b: set<NodeId>, c: set<NodeId>)
    ensures a + b + c == a + (b + c)
  {
  }

  lemma ThresholdsOuter(q: QSet, extraChecks: bool)
    ensures ThresholdsOk(q, extraChecks) <==>
            && 1 <= q.threshold <= q.Entries()
            && (extraChecks ==> q.threshold >= q.Entries() - q.threshold + 1)
            && AllThresholdsOk(q.inner, extraChecks)
  {
  }

  lemma FlatOuter(q: QSet)
    ensures Flat(q) == q.validators + AllFlat(q.inner)
  {
  }

  lemma NothingNew(known: set<NodeId>)
    ensures New([], known) && known == known + AsSet([])
  {
  }

  lemma NothingInside(qs: seq<QSet>, extraChecks: bool, base: set<NodeId>)
    ensures AllThresholdsOk(qs[..0], extraChecks) && New(AllFlat(qs[..0]), base) && base == base + AsSet(AllFlat(qs[..0]))
  {
  }

  /** A node that is known already spoils everything; a new one joins the known ones. */
  lemma NewNode(nodes: seq<NodeId>, k: nat, known: set<NodeId>, rest: seq<NodeId>)
    requires k < |nodes| && New(nodes[..k], known)
    ensures nodes[k] in known + AsSet(nodes[..k]) ==> !New(nodes + rest, known)
    ensures nodes[k] !in known + AsSet(nodes[..k]) ==> New(nodes[..k + 1], known)
    ensures known + AsSet(nodes[..k]) + {nodes[k]} == known + AsSet(nodes[..k + 1])
  {
    var n := nodes[k];
    assert nodes[..k + 1] == nodes[..k] + [n];
    NewJoin(nodes[..k], [n], known);
    assert nodes + rest == nodes[..k + 1] + (nodes[k + 1..] + rest);
    NewJoin(nodes[..k + 1], nodes[k + 1..] + rest, known);
    if n in known + AsSet(nodes[..k]) {
      assert n in [n];
      assert !New([n], known + AsSet(nodes[..k]));
    }
  }

  lemma {:induction false} AllFlatSplit(qs: seq<QSet>, k: nat, extraChecks: bool)
    requires k <= |qs|
    ensures AllFlat(qs) == AllFlat(qs[..k]) + AllFlat(qs[k..])
    ensures AllThresholdsOk(qs, extraChecks) ==> AllThresholdsOk(qs[..k], extraChecks)
    decreases |qs|
  {
    hide Flat, ThresholdsOk;
    if k == |qs| {
      assert qs[..k] == qs && qs[k..] == [];
    } else {
      var front := qs[..|qs| - 1];
      AllFlatSplit(front, k, extraChecks);
      assert front[..k] == qs[..k] && front[k..] == qs[k..][..|qs[k..]| - 1];
      assert qs[k..][|qs[k..]| - 1] == qs[|qs| - 1];
    }
  }

  lemma NextInner(qs: seq<QSet>, k: nat, extraChecks: bool, base: set<NodeId>)
    requires k < |qs|
    requires AllThresholdsOk(qs[..k], extraChecks) && New(AllFlat(qs[..k]), base)
    ensures AllFlat(qs[..k + 1]) == AllFlat(qs[..k]) + Flat(qs[k])
    ensures ThresholdsOk(qs[k], extraChecks) ==> AllThresholdsOk(qs[..k + 1], extraChecks)
    ensures New(Flat(qs[k]), base + AsSet(AllFlat(qs[..k]))) ==> New(AllFlat(qs[..k + 1]), base)
    ensures !(ThresholdsOk(qs[k], extraChecks) && New(Flat(qs[k]), base + AsSet(AllFlat(qs[..k]))))
        ==> !(AllThresholdsOk(qs, extraChecks) && New(AllFlat(qs), base))
  {
    hide Flat, ThresholdsOk, New, AsSet;
    assert qs[..k + 1][..k] == qs[..k];
    NewJoin(AllFlat(qs[..k]), Flat(qs[k]), base);
    AllFlatSplit(qs, k + 1, extraChecks);
    NewJoin(AllFlat(qs[..k + 1]), AllFlat(qs[k + 1..]), base);
  }

  method IsQuorumSetSane(q: QSet, extraChecks: bool) returns (sane: bool)
    ensures sane <==> ThresholdsOk(q, extraChecks) && Distinct(Flat(q))
  {
    hide ThresholdsOk, Flat;
    var known;
    sane, known := IsQuorumSetSaneInternal(q, {}, extraChecks);
  }

  // --- what the extra checks are for ----------------------------------------------------------

  lemma {:induction false} CountApart(nodes: seq<NodeId>, u1: set<NodeId>, u2: set<NodeId>)
    requires u1 * u2 == {}
    ensures Count(nodes, u1) + Count(nodes, u2) <= |nodes|
    decreases |nodes|
  {
    if nodes != [] {
      CountApart(nodes[..|nodes| - 1], u1, u2);
      var n := nodes[|nodes| - 1];
      assert n in u1 && n in u2 ==> n in u1 * u2;
    }
  }

  lemma {:induction false} SlicesApart(qs: seq<QSet>, u1: set<NodeId>, u2: set<NodeId>)
    requires AllThresholdsOk(qs, true) && u1 * u2 == {}
    ensures SlicesIn(qs, u1) + SlicesIn(qs, u2) <= |qs|
    decreases qs, 1
  {
    hide Slice;
    if qs != [] {
      SlicesApart(qs[..|qs| - 1], u1, u2);
      var q := qs[|qs| - 1];
      if Slice(q, u1) && Slice(q, u2) {
        MajorityIntersects(q, u1, u2);
      }
    }
  }

  /** With the extra checks, any two sets that contain a slice have a node in common. */
  lemma {:induction false} MajorityIntersects(q: QSet, u1: set<NodeId>, u2: set<NodeId>)
    requires ThresholdsOk(q, true) && Slice(q, u1) && Slice(q, u2)
    ensures u1 * u2 != {}
    decreases q, 0
  {
    if u1 * u2 == {} {
      CountApart(q.validators, u1, u2);
      SlicesApart(q.inner, u1, u2);
    }
  }

  lemma {:induction false} CountAtLeast(nodes: seq<NodeId>, u: set<NodeId>, a: nat, b: nat)
    requires a <= b <= |nodes| && forall i | a <= i < b :: nodes[i] in u
    ensures Count(nodes, u) >= b - a
    decreases |nodes|
  {
    if nodes != [] {
      var last := |nodes| - 1;
      CountAtLeast(nodes[..last], u, if a <= last then a else last, if b <= last then b else last);
    }
  }

  /** Without inner sets that is exactly what they check. */
  lemma FlatMajority(q: QSet)
    requires q.inner == [] && 1 <= q.threshold <= |q.validators|
    requires Distinct(q.validators)
    ensures ThresholdsOk(q, true)
       <==> forall u1: set<NodeId>, u2: set<NodeId> | Slice(q, u1) && Slice(q, u2) :: u1 * u2 != {}
  {
    var v, t: nat := q.validators, q.threshold;
    assert AllThresholdsOk([], true);
    if ThresholdsOk(q, true) {
      forall u1: set<NodeId>, u2: set<NodeId> | Slice(q, u1) && Slice(q, u2) ensures u1 * u2 != {} {
        MajorityIntersects(q, u1, u2);
      }
    } else {
      var u1, u2 := set i | 0 <= i < t :: v[i], set i | t <= i < 2 * t :: v[i];
      CountAtLeast(v, u1, 0, t);
      CountAtLeast(v, u2, t, 2 * t);
      assert Slice(q, u1) && Slice(q, u2) && u1 * u2 == {};
    }
  }
}
