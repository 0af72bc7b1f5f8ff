/**
 Quorum sets of the consensus protocol (src/scp/LocalNode.cpp): a threshold over
 validators and inner sets, the slices that meet it and the sets that block it.
 */
module QuorumSets {

  /** Public keys; the algorithms only compare them. */
  type NodeId = nat

  const WORD := 0x1_0000_0000

  type Uint32 = x: int | 0 <= x < 0x1_0000_0000

  datatype QSet = QSet(threshold: Uint32, validators: seq<NodeId>, inner: seq<QSet>)
  {
    function Entries(): nat { |validators| + |inner| }
  }

  // --- what the tests mean -------------------------------------------------------

  /** Positions of `nodes` that hold a member of s. */
  function Count(nodes: seq<NodeId>, s: set<NodeId>): (n: nat)
    ensures n <= |nodes|
  {
    if nodes == [] then 0
    else Count(nodes[..|nodes| - 1], s) + (if nodes[|nodes| - 1] in s then 1 else 0)
  }

  function SlicesIn(qs: seq<QSet>, s: set<NodeId>): (n: nat)
    ensures n <= |qs|
    decreases qs
  {
    if qs == [] then 0
    else SlicesIn(qs[..|qs| - 1], s) + (if Slice(qs[|qs| - 1], s) then 1 else 0)
  }

  /** A threshold of zero wraps around when the 32-bit counter is decreased. */
  function Need(threshold: Uint32): (n: nat)
    ensures n >= 1
  {
    if threshold == 0 then WORD else threshold
  }

  /** s contains a quorum slice of q. */
  predicate Slice(q: QSet, s: set<NodeId>)
    decreases q
  {
    Count(q.validators, s) + SlicesIn(q.inner, s) >= Need(q.threshold)
  }

  /** The conversion of a size to a 32-bit int. */
  function ToInt(n: int): (i: int)
    ensures -0x8000_0000 <= i < 0x8000_0000
    ensures -0x8000_0000 <= n < 0x8000_0000 ==> i == n
  {
    (n + 0x8000_0000) % WORD - 0x8000_0000
  }

  function BlockedIn(qs: seq<QSet>, s: set<NodeId>): (n: nat)
    ensures n <= |qs|
    decreases qs
  {
    if qs == [] then 0
    else BlockedIn(qs[..|qs| - 1], s) + (if VBlocking(qs[|qs| - 1], s) then 1 else 0)
  }

  function LeftTillBlock(q: QSet): int {
    ToInt(1 + q.Entries() - q.threshold)
  }

  /** s is v-blocking for q, as the code decides it. */
  predicate VBlocking(q: QSet, s: set<NodeId>)
    decreases q
  {
    && q.threshold != 0
    && var hits := Count(q.validators, s) + BlockedIn(q.inner, s);
       hits >= 1 && hits >= LeftTillBlock(q)
  }

  function Members(qs: seq<QSet>): (s: set<NodeId>)
    decreases qs
  {
    if qs == [] then {} else Members(qs[..|qs| - 1]) + Nodes(qs[|qs| - 1])
  }

  /** Every node that q mentions. */
  function Nodes(q: QSet): (s: set<NodeId>)
    decreases q
  {
    (set v | v in q.validators) + Members(q.inner)
  }

  /**
   All thresholds, of q and of its inner sets, lie between 1 and the number of
   entries, and the number of entries to block fits an int.
   */
  predicate InRange(q: QSet)
    decreases q
  {
    && 1 <= q.threshold <= q.Entries()
    && 1 + q.Entries() - q.threshold < 0x8000_0000
    && AllInRange(q.inner)
  }

  predicate AllInRange(qs: seq<QSet>)
    decreases qs
  {
    qs == [] || (AllInRange(qs[..|qs| - 1]) && InRange(qs[|qs| - 1]))
  }

  // --- monotonicity ------------------------------------------------------------------

  lemma {:induction false} CountMonotone(nodes: seq<NodeId>, s: set<NodeId>, t: set<NodeId>)
    requires s <= t
    ensures Count(nodes, s) <= Count(nodes, t)
  {
    if nodes != [] {
      CountMonotone(nodes[..|nodes| - 1], s, t);
    }
  }

  /** A superset of a slice contains the slice. */
  lemma {:induction false} SliceMonotone(q: QSet, s: set<NodeId>, t: set<NodeId>)
    requires s <= t
    ensures Slice(q, s) ==> Slice(q, t)
    decreases q
  {
    CountMonotone(q.validators, s, t);
    SlicesMonotone(q.inner, s, t);
  }

  /** A superset of a blocking set blocks. */
  lemma {:induction false} BlockingMonotone(q: QSet, s: set<NodeId>, t: set<NodeId>)
    requires s <= t
    ensures VBlocking(q, s) ==> VBlocking(q, t)
    decreases q
  {
    CountMonotone(q.validators, s, t);
    BlockedMonotone(q.inner, s, t);
  }

  lemma {:induction false} BlockedMonotone(qs: seq<QSet>, s: set<NodeId>, t: set<NodeId>)
    requires s <= t
    ensures BlockedIn(qs, s) <= BlockedIn(qs, t)
    decreases qs
  {
    hide VBlocking;
    if qs != [] {
      BlockedMonotone(qs[..|qs| - 1], s, t);
      BlockingMonotone(qs[|qs| - 1], s, t);
    }
  }

  lemma {:induction false} SlicesMonotone(qs: seq<QSet>, s: set<NodeId>, t: set<NodeId>)
    requires s <= t
    ensures SlicesIn(qs, s) <= SlicesIn(qs, t)
    decreases qs
  {
    if qs != [] {
      SlicesMonotone(qs[..|qs| - 1], s, t);
      SliceMonotone(qs[|qs| - 1], s, t);
    }
  }

  // --- only the nodes of q matter ----------------------------------------------------

  lemma {:induction false} CountLocal(nodes: seq<NodeId>, s: set<NodeId>, t: set<NodeId>)
    requires forall n | n in nodes :: n in s <==> n in t
    ensures Count(nodes, s) == Count(nodes, t)
  {
    if nodes != [] {
      CountLocal(nodes[..|nodes| - 1], s, t);
    }
  }

  lemma {:induction false} SliceLocal(q: QSet, s: set<NodeId>, t: set<NodeId>)
    requires s * Nodes(q) == t * Nodes(q)
    ensures Slice(q, s) == Slice(q, t)
    decreases q
  {
    forall n | n in q.validators ensures n in s <==> n in t {
      assert n in s * Nodes(q) <==> n in t * Nodes(q);
    }
    CountLocal(q.validators, s, t);
    Narrow(s, t, Nodes(q), Members(q.inner));
    SlicesLocal(q.inner, s, t);
  }

  lemma {:induction false} SlicesLocal(qs: seq<QSet>, s: set<NodeId>, t: set<NodeId>)
    requires s * Members(qs) == t * Members(qs)
    ensures SlicesIn(qs, s) == SlicesIn(qs, t)
    decreases qs
  {
    if qs != [] {
      Narrow(s, t, Members(qs), Members(qs[..|qs| - 1]));
      Narrow(s, t, Members(qs), Nodes(qs[|qs| - 1]));
      SlicesLocal(qs[..|qs| - 1], s, t);
      SliceLocal(qs[|qs| - 1], s, t);
    }
  }

  lemma Narrow(s: set<NodeId>, t: set<NodeId>, wide: set<NodeId>, narrow: set<NodeId>)
    requires s * wide == t * wide && narrow <= wide
    ensures s * narrow == t * narrow
  {
    forall n | n in narrow ensures n in s <==> n in t {
      assert n in s * wide <==> n in t * wide;
    }
  }

  // --- blocking and slices are dual -----------------------------------------------------

  /** On the nodes of q, c is the complement of s. */
  predicate Opposite(nodes: set<NodeId>, s: set<NodeId>, c: set<NodeId>) {
    forall n | n in nodes :: n in c <==> n !in s
  }

  lemma {:induction false} CountOpposite(nodes: seq<NodeId>, s: set<NodeId>, c: set<NodeId>)
    requires forall n | n in nodes :: n in c <==> n !in s
    ensures Count(nodes, s) + Count(nodes, c) == |nodes|
  {
    if nodes != [] {
      CountOpposite(nodes[..|nodes| - 1], s, c);
      assert nodes[|nodes| - 1] in nodes;
    }
  }

  /** A set blocks q exactly when no slice of q avoids it. */
  lemma {:induction false} Duality(q: QSet, s: set<NodeId>, c: set<NodeId>)
    requires InRange(q) && Opposite(Nodes(q), s, c)
    ensures VBlocking(q, s) <==> !Slice(q, c)
    decreases q
  {
    CountOpposite(q.validators, s, c);
    AllDual(q.inner, s, c);
  }

  lemma {:induction false} AllDual(qs: seq<QSet>, s: set<NodeId>, c: set<NodeId>)
    requires AllInRange(qs) && Opposite(Members(qs), s, c)
    ensures BlockedIn(qs, s) + SlicesIn(qs, c) == |qs|
    decreases qs
  {
    if qs != [] {
      AllDual(qs[..|qs| - 1], s, c);
      Duality(qs[|qs| - 1], s, c);
    }
  }

  /** The definition of the protocol: a v-blocking set meets every slice. */
  lemma BlockingMeetsEverySlice(q: QSet, s: set<NodeId>)
    requires InRange(q)
    ensures VBlocking(q, s) <==> forall slice: set<NodeId> | Slice(q, slice) :: slice * s != {}
  {
    hide Slice, VBlocking, InRange, Nodes;
    var c := Nodes(q) - s;
    Duality(q, s, c);
    assert c * s == {};
    if VBlocking(q, s) {
      forall slice: set<NodeId> | Slice(q, slice) ensures slice * s != {} {
        if slice * s == {} {
          assert forall n | n in slice :: n in s ==> n in slice * s;
          SliceLocal(q, slice, slice * Nodes(q));
          SliceMonotone(q, slice * Nodes(q), c);
        }
      }
    }
  }

  lemma {:induction false} NothingInside(q: QSet)
    requires AllInRange(q.inner)
    ensures Count(q.validators, {}) == 0 && SlicesIn(q.inner, {}) == 0 && BlockedIn(q.inner, {}) == 0
    decreases q
  {
    NoneCounted(q.validators);
    NoneInside(q.inner);
  }

  lemma {:induction false} NoneCounted(nodes: seq<NodeId>)
    ensures Count(nodes, {}) == 0
  {
    if nodes != [] {
      NoneCounted(nodes[..|nodes| - 1]);
    }
  }

  lemma {:induction false} NoneInside(qs: seq<QSet>)
    requires AllInRange(qs)
    ensures SlicesIn(qs, {}) == 0 && BlockedIn(qs, {}) == 0
    decreases qs
  {
    if qs != [] {
      NoneInside(qs[..|qs| - 1]);
      NothingInside(qs[|qs| - 1]);
    }
  }

  /** With sane inner sets, duality holds for all sets exactly when the threshold is in range. */
  lemma DualityNeedsRange(q: QSet)
    requires AllInRange(q.inner) && q.Entries() < 0x8000_0000
    ensures (forall s: set<NodeId> :: VBlocking(q, s) <==> !Slice(q, Nodes(q) - s))
        <==> 1 <= q.threshold <= q.Entries()
  {
    hide Nodes, VBlocking, Slice, AllInRange;
    if 1 <= q.threshold <= q.Entries() {
      assert InRange(q);
      forall s: set<NodeId> ensures VBlocking(q, s) <==> !Slice(q, Nodes(q) - s) {
        Duality(q, s, Nodes(q) - s);
      }
    } else {
      OutOfRange(q);
    }
  }

  lemma OutOfRange(q: QSet)
    requires AllInRange(q.inner) && !(1 <= q.threshold <= q.Entries())
    ensures var s := if q.threshold == 0 then Nodes(q) else {};
            !VBlocking(q, s) && !Slice(q, Nodes(q) - s)
  {
    NothingInside(q);
    assert Nodes(q) - Nodes(q) == {};
  }

  // --- the tests of the code -------------------------------------------------------------

  function AsSet(nodes: seq<NodeId>): set<NodeId> {
    set n | n in nodes
  }

  lemma CountStep(nodes: seq<NodeId>, i: nat, s: set<NodeId>)
    requires i < |nodes|
    ensures Count(nodes[..i + 1], s) == Count(nodes[..i], s) + (if nodes[i] in s then 1 else 0)
  {
    assert nodes[..i + 1][..i] == nodes[..i];
  }

  lemma SlicesStep(qs: seq<QSet>, i: nat, s: set<NodeId>)
    requires i < |qs|
    ensures SlicesIn(qs[..i + 1], s) == SlicesIn(qs[..i], s) + (if Slice(qs[i], s) then 1 else 0)
    ensures BlockedIn(qs[..i + 1], s) == BlockedIn(qs[..i], s) + (if VBlocking(qs[i], s) then 1 else 0)
  {
    assert qs[..i + 1][..i] == qs[..i];
  }

  lemma {:induction false} CountPrefix(nodes: seq<NodeId>, i: nat, s: set<NodeId>)
    requires i <= |nodes|
    ensures Count(nodes[..i], s) <= Count(nodes, s)
    decreases |nodes|
  {
    if i < |nodes| {
      CountPrefix(nodes[..|nodes| - 1], i, s);
      assert nodes[..|nodes| - 1][..i] == nodes[..i];
    } else {
      assert nodes[..i] == nodes;
    }
  }

  lemma {:induction false} SlicesPrefix(qs: seq<QSet>, i: nat, s: set<NodeId>)
    requires i <= |qs|
    ensures SlicesIn(qs[..i], s) <= SlicesIn(qs, s) && BlockedIn(qs[..i], s) <= BlockedIn(qs, s)
    decreases |qs|
  {
    if i < |qs| {
      SlicesPrefix(qs[..|qs| - 1], i, s);
      assert qs[..|qs| - 1][..i] == qs[..i];
    } else {
      assert qs[..i] == qs;
    }
  }

  /** The 32-bit counter when n more hits are needed. */
  function Counter(n: int): int {
    if n == WORD then 0 else n
  }

  lemma NeedFits(threshold: Uint32)
    ensures Need(threshold) <= WORD && threshold == Counter(Need(threshold))
  {
  }

  lemma Decrease(n: int)
    requires 1 <= n <= WORD
    ensures (Counter(n) - 1) % WORD == n - 1 == Counter(n - 1)
  {
  }

  method IsQuorumSlice(q: QSet, nodeSet: seq<NodeId>) returns (result: bool)
    ensures result == Slice(q, AsSet(nodeSet))
    decreases q
  {
    hide Count, SlicesIn, BlockedIn, Need, Counter;
    ghost var s := AsSet(nodeSet);
    NeedFits(q.threshold);
    var thresholdLeft: int := q.threshold;
    var i := 0;
    NothingYet(q, s);
    while i < |q.validators|
      invariant 0 <= i <= |q.validators|
      invariant Count(q.validators[..i], s) < Need(q.threshold)
      invariant thresholdLeft == Counter(Need(q.threshold) - Count(q.validators[..i], s))
    {
      CountStep(q.validators, i, s);
      if q.validators[i] in nodeSet {
        Decrease(Need(q.threshold) - Count(q.validators[..i], s));
        thresholdLeft := (thresholdLeft - 1) % WORD;
        if thresholdLeft <= 0 {
          CountPrefix(q.validators, i + 1, s);
          return true;
        }
      }
      i := i + 1;
    }
    assert q.validators[..i] == q.validators;
    i := 0;
    while i < |q.inner|
      invariant 0 <= i <= |q.inner|
      invariant Count(q.validators, s) + SlicesIn(q.inner[..i], s) < Need(q.threshold)
      invariant thresholdLeft == Counter(Need(q.threshold) - (Count(q.validators, s) + SlicesIn(q.inner[..i], s)))
    {
      SlicesStep(q.inner, i, s);
      var met := IsQuorumSlice(q.inner[i], nodeSet);
      if met {
        Decrease(Need(q.threshold) - (Count(q.validators, s) + SlicesIn(q.inner[..i], s)));
        thresholdLeft := (thresholdLeft - 1) % WORD;
        if thresholdLeft <= 0 {
          SlicesPrefix(q.inner, i + 1, s);
          return true;
        }
      }
      i := i + 1;
    }
    assert q.inner[..i] == q.inner;
    return false;
  }

  lemma NothingYet(q: QSet, s: set<NodeId>)
    ensures Count(q.validators[..0], s) == 0 && SlicesIn(q.inner[..0], s) == 0 && BlockedIn(q.inner[..0], s) == 0
  {
  }

  method IsVBlocking(q: QSet, nodeSet: seq<NodeId>) returns (result: bool)
    ensures result == VBlocking(q, AsSet(nodeSet))
    decreases q
  {
    hide Count, SlicesIn, BlockedIn;
    ghost var s := AsSet(nodeSet);
    if q.threshold == 0 {
      return false;
    }
    var leftTillBlock := LeftTillBlock(q);
    var i := 0;
    NothingYet(q, s);
    while i < |q.validators|
      invariant 0 <= i <= |q.validators|
      invariant leftTillBlock == LeftTillBlock(q) - Count(q.validators[..i], s)
      invariant Count(q.validators[..i], s) == 0 || leftTillBlock > 0
    {
      CountStep(q.validators, i, s);
      if q.validators[i] in nodeSet {
        leftTillBlock := leftTillBlock - 1;
        if leftTillBlock <= 0 {
          CountPrefix(q.validators, i + 1, s);
          return true;
        }
      }
      i := i + 1;
    }
    assert q.validators[..i] == q.validators;
    i := 0;
    while i < |q.inner|
      invariant 0 <= i <= |q.inner|
      invariant leftTillBlock == LeftTillBlock(q) - (Count(q.validators, s) + BlockedIn(q.inner[..i], s))
      invariant Count(q.validators, s) + BlockedIn(q.inner[..i], s) == 0 || leftTillBlock > 0
    {
      SlicesStep(q.inner, i, s);
      var blocked := IsVBlocking(q.inner[i], nodeSet);
      if blocked {
        leftTillBlock := leftTillBlock - 1;
        if leftTillBlock <= 0 {
          SlicesPrefix(q.inner, i + 1, s);
          return true;
        }
      }
      i := i + 1;
    }
    assert q.inner[..i] == q.inner;
    return false;
  }
}
