/**
 Where findClosestVBlocking of src/scp/LocalNode.cpp fails with an excluded node: an
 inner set that the excluded node meets alone can look blocked to the search.
 */
module VBlockingAlone {
  import opened QuorumSets
  import opened QuorumSetNormal
  import opened ThresholdNetwork
  import opened VBlockingDistance
  import opened VBlockingExcluded
  import opened VBlockingFlat
  import opened VBlockingSearch

  // --- no nodes and all nodes ----------------------------------------------------------------

  lemma {:induction false} NoNodesNoSlice(q: QSet)
    ensures !Slice(q, {})
    decreases q
  {
    NoneCounted(q.validators);
    NoNodesNoSlices(q.inner);
  }

  lemma {:induction false} NoNodesNoSlices(qs: seq<QSet>)
    ensures SlicesIn(qs, {}) == 0
    decreases qs
  {
    hide Slice;
    if qs != [] {
      NoNodesNoSlices(qs[..|qs| - 1]);
      NoNodesNoSlice(qs[|qs| - 1]);
    }
  }

  lemma {:induction false} AllNodesSlice(q: QSet, s: set<NodeId>)
    requires ThresholdsOk(q, false) && Nodes(q) <= s
    ensures Slice(q, s)
    decreases q
  {
    assert q.validators[..|q.validators|] == q.validators;
    TakenCount(q.validators, |q.validators|, s);
    AllNodesSlices(q.inner, s);
  }

  lemma {:induction false} AllNodesSlices(qs: seq<QSet>, s: set<NodeId>)
    requires AllThresholdsOk(qs, false) && Members(qs) <= s
    ensures SlicesIn(qs, s) == |qs|
    decreases qs
  {
    hide Slice, Nodes, ThresholdsOk;
    if qs != [] {
      AllNodesSlices(qs[..|qs| - 1], s);
      AllNodesSlice(qs[|qs| - 1], s);
    }
  }

  // --- sets that do not list the node -----------------------------------------------------------

  lemma {:induction false} DropAbsent(vs: seq<NodeId>, e: NodeId)
    requires e !in vs
    ensures Drop(vs, Only(e)) == vs
    decreases |vs|
  {
    if vs != [] {
      DropAbsent(vs[..|vs| - 1], e);
    }
  }

  lemma {:induction false} StrippedAbsent(q: QSet, e: NodeId)
    requires e !in Nodes(q)
    ensures Stripped(q, Only(e)) == q
    decreases q
  {
    DropAbsent(q.validators, e);
    AllStrippedAbsent(q.inner, e);
  }

  lemma {:induction false} AllStrippedAbsent(qs: seq<QSet>, e: NodeId)
    requires e !in Members(qs)
    ensures AllStripped(qs, Only(e)) == qs
    decreases qs
  {
    hide Stripped, Nodes;
    if qs != [] {
      AllStrippedAbsent(qs[..|qs| - 1], e);
      StrippedAbsent(qs[|qs| - 1], e);
    }
  }

  lemma {:induction false} AloneListed(q: QSet, e: NodeId)
    requires !NeverAlone(q, e)
    ensures e in Nodes(q)
    decreases q
  {
    if e !in q.validators {
      var i := SomeAlone(q.inner, e);
      AloneListed(q.inner[i], e);
      MemberNodes(q.inner, i);
    }
  }

  lemma {:induction false} SomeAlone(qs: seq<QSet>, e: NodeId) returns (i: nat)
    requires !AllNeverAlone(qs, e)
    ensures i < |qs| && !NeverAlone(qs[i], e)
    decreases |qs|
  {
    hide NeverAlone;
    if NeverAlone(qs[|qs| - 1], e) {
      i := SomeAlone(qs[..|qs| - 1], e);
    } else {
      i := |qs| - 1;
    }
  }

  // --- entries that are there and entries that are not --------------------------------------------

  /** The nodes of the chosen inner sets. */
  function NodesOf(qs: seq<QSet>, chosen: set<nat>): set<NodeId>
    requires forall j | j in chosen :: j < |qs|
  {
    set j, x | j in chosen && x in Nodes(qs[j]) :: x
  }

  lemma Pick(s: set<nat>, k: nat) returns (r: set<nat>)
    requires k <= |s|
    ensures r <= s && |r| == k
    decreases |s|
  {
    if k == |s| {
      r := s;
    } else {
      var x :| x in s;
      r := Pick(s - {x}, k);
    }
  }

  function Below(n: nat): (r: set<nat>)
    ensures |r| == n && forall j: nat :: j in r <==> j < n
  {
    if n == 0 then {} else Below(n - 1) + {n - 1}
  }

  function Others(n: nat, i: nat): (r: set<nat>)
    ensures i < n ==> |r| == n - 1
    ensures forall j | j in r :: j < n && j != i
  {
    Below(n) - {i}
  }

  /** Some entries besides inner set i, and the nodes chosen for that set. */
  datatype Choice = Choice(take: nat, chosen: set<nat>, part: set<NodeId>)

  ghost predicate Chooses(q: QSet, i: nat, e: NodeId, c: Choice) {
    && i < |q.inner| && e in Nodes(q.inner[i])
    && c.take <= |q.validators| && c.chosen <= Others(|q.inner|, i) && c.part <= Nodes(q.inner[i])
  }

  ghost function ChosenNodes(q: QSet, i: nat, e: NodeId, c: Choice): set<NodeId>
    requires Chooses(q, i, e, c)
  {
    AsSet(q.validators[..c.take]) + NodesOf(q.inner, c.chosen) + c.part
  }

  /** What an inner set sees of the chosen nodes. */
  lemma SeenInside(q: QSet, i: nat, e: NodeId, c: Choice, j: nat)
    requires Sane(q) && Chooses(q, i, e, c) && j < |q.inner|
    ensures var here := Nodes(q.inner[j]);
            ChosenNodes(q, i, e, c) * here == if j == i then c.part else if j in c.chosen then here else {}
  {
    hide Nodes, Sane, Members, AllFlat;
    SaneParts(q);
    MemberNodes(q.inner, j);
    forall k | k in c.chosen && k != j ensures Nodes(q.inner[k]) !! Nodes(q.inner[j]) {
      Apart(q.inner, j, k);
    }
    if j != i {
      Apart(q.inner, i, j);
    }
  }

  lemma Apart(qs: seq<QSet>, i: nat, j: nat)
    requires Distinct(AllFlat(qs)) && i < |qs| && j < |qs| && i != j
    ensures Nodes(qs[i]) !! Nodes(qs[j])
  {
    hide *;
    if i < j {
      InnerApart(qs, i, j);
    } else {
      InnerApart(qs, j, i);
    }
  }

  lemma SeenValidators(q: QSet, i: nat, e: NodeId, c: Choice, more: set<NodeId>)
    requires Sane(q) && Chooses(q, i, e, c) && more <= {e}
    ensures Count(q.validators, ChosenNodes(q, i, e, c) + more) == c.take && e !in q.validators
  {
    hide Nodes, Sane, Members, AllFlat, Count;
    SaneParts(q);
    var vs, s := q.validators, ChosenNodes(q, i, e, c) + more;
    hide Distinct, AsSet, NodesOf;
    MemberNodes(q.inner, i);
    ChosenMembers(q.inner, c.chosen);
    PrefixNodes(vs[..c.take], vs);
    FirstPart(AsSet(vs[..c.take]), NodesOf(q.inner, c.chosen) + c.part + more, AsSet(vs));
    assert s == AsSet(vs[..c.take]) + (NodesOf(q.inner, c.chosen) + c.part + more);
    CountIsSize(vs, s);
    NotListed(vs, e);
  }

  lemma FirstPart(a: set<NodeId>, b: set<NodeId>, v: set<NodeId>)
    requires a <= v && b !! v
    ensures (a + b) * v == a
  {
  }

  lemma NotListed(vs: seq<NodeId>, e: NodeId)
    requires e !in AsSet(vs)
    ensures e !in vs
  {
  }

  lemma ChosenMembers(qs: seq<QSet>, chosen: set<nat>)
    requires forall j | j in chosen :: j < |qs|
    ensures NodesOf(qs, chosen) <= Members(qs)
  {
    hide Nodes, Members;
    forall j | j in chosen ensures Nodes(qs[j]) <= Members(qs) {
      MemberNodes(qs, j);
    }
  }

  /** Inner set i is there because of the excluded node, and the chosen ones are there. */
  lemma AliveWith(q: QSet, i: nat, e: NodeId, c: Choice, j: nat)
    requires Sane(q) && Chooses(q, i, e, c) && Slice(q.inner[i], c.part + {e}) && j < |q.inner|
    ensures Slice(q.inner[j], ChosenNodes(q, i, e, c) + {e}) <==> j in c.chosen || j == i
  {
    hide Nodes, Sane, Slice, ChosenNodes, AllFlat, ThresholdsOk;
    var s, here := ChosenNodes(q, i, e, c) + {e}, Nodes(q.inner[j]);
    SeenInside(q, i, e, c, j);
    SaneParts(q);
    InnerSane(q.inner, j);
    if j == i {
      SliceLocal(q.inner[j], s, c.part + {e});
    } else {
      Apart(q.inner, i, j);
      assert s * here == ChosenNodes(q, i, e, c) * here;
      if j in c.chosen {
        SaneSlice(q.inner[j]);
        SliceLocal(q.inner[j], s, here);
      } else {
        NoNodesNoSlice(q.inner[j]);
        SliceLocal(q.inner[j], s, {});
      }
    }
  }

  lemma SaneSlice(q: QSet)
    requires Sane(q)
    ensures Slice(q, Nodes(q))
  {
    hide Slice, Nodes;
    AllNodesSlice(q, Nodes(q));
  }

  /** The search does not see inner set i. */
  lemma AliveWithout(q: QSet, i: nat, e: NodeId, c: Choice, j: nat)
    requires Sane(q) && Chooses(q, i, e, c) && !Slice(Stripped(q.inner[i], Only(e)), c.part) && j < |q.inner|
    ensures Slice(Stripped(q.inner[j], Only(e)), ChosenNodes(q, i, e, c)) <==> j in c.chosen
  {
    hide Nodes, Sane, Slice, ChosenNodes, AllFlat, Stripped;
    var s, here := ChosenNodes(q, i, e, c), Nodes(q.inner[j]);
    SeenInside(q, i, e, c, j);
    SaneParts(q);
    InnerSane(q.inner, j);
    if j == i {
      NodesStripped(q.inner[j], e);
      SliceLocal(Stripped(q.inner[j], Only(e)), s, c.part);
    } else {
      Apart(q.inner, i, j);
      StrippedAbsent(q.inner[j], e);
      if j in c.chosen {
        SaneSlice(q.inner[j]);
        SliceLocal(q.inner[j], s, here);
      } else {
        NoNodesNoSlice(q.inner[j]);
        SliceLocal(q.inner[j], s, {});
      }
    }
  }

  /** With one entry less than the threshold besides set i, the search sees no slice where there is one. */
  lemma Overlooked(q: QSet, i: nat, e: NodeId, c: Choice)
    requires Sane(q) && Chooses(q, i, e, c) && c.take + |c.chosen| == q.threshold - 1
    requires Slice(q.inner[i], c.part + {e}) && !Slice(Stripped(q.inner[i], Only(e)), c.part)
    ensures var s := ChosenNodes(q, i, e, c); Slice(q, s + {e}) && !Slice(Stripped(q, Only(e)), s)
  {
    hide Nodes, Sane, ChosenNodes, Chooses, Stripped, Slice, SlicesIn, Count;
    var s, p := ChosenNodes(q, i, e, c), Stripped(q, Only(e));
    forall j: nat | j < |q.inner|
      ensures Slice(q.inner[j], s + {e}) <==> j in c.chosen + {i}
      ensures Slice(AllStripped(q.inner, Only(e))[j], s) <==> j in c.chosen
    {
      AliveWith(q, i, e, c, j);
      AliveWithout(q, i, e, c, j);
      StrippedAt(q.inner, Only(e), j);
    }
    InnerRange(q, i, e, c);
    assert Alive(q.inner, s + {e}) == c.chosen + {i};
    assert Alive(AllStripped(q.inner, Only(e)), s) == c.chosen;
    AliveCount(q.inner, s + {e});
    AliveCount(AllStripped(q.inner, Only(e)), s);
    SeenValidators(q, i, e, c, {});
    SeenValidators(q, i, e, c, {e});
    assert s + {} == s;
    SliceByCount(q, e, s, c.take, |c.chosen|);
  }

  lemma InnerRange(q: QSet, i: nat, e: NodeId, c: Choice)
    requires Chooses(q, i, e, c)
    ensures i !in c.chosen && i < |q.inner| && forall j | j in c.chosen :: j < |q.inner|
  {
    hide Nodes;
  }

  lemma SliceByCount(q: QSet, e: NodeId, s: set<NodeId>, a: nat, b: nat)
    requires e !in q.validators && a + b == q.threshold - 1
    requires Count(q.validators, s) == a == Count(q.validators, s + {e})
    requires SlicesIn(q.inner, s + {e}) == b + 1 && SlicesIn(AllStripped(q.inner, Only(e)), s) == b
    ensures Slice(q, s + {e}) && !Slice(Stripped(q, Only(e)), s)
  {
    hide Count, SlicesIn, AllStripped;
    DropAbsent(q.validators, e);
  }

  // --- the failing family -------------------------------------------------------------------------

  /** Nodes for which the search sees no slice although there is one. */
  lemma {:induction false} Misjudged(q: QSet, e: NodeId) returns (nodes: set<NodeId>)
    requires Sane(q) && !NeverAlone(q, e)
    ensures nodes <= Nodes(q) && Slice(q, nodes + {e}) && !Slice(Stripped(q, Only(e)), nodes)
    decreases q
  {
    hide Slice, Stripped, Sane, Nodes;
    if Slice(q, {e}) {
      nodes := {};
      assert {} + {e} == {e};
      NoNodesNoSlice(Stripped(q, Only(e)));
    } else {
      SaneParts(q);
      ListedAlone(q, e);
      var i := SomeAlone(q.inner, e);
      InnerSane(q.inner, i);
      var part := Misjudged(q.inner[i], e);
      AloneListed(q.inner[i], e);
      var take := Min(|q.validators|, q.threshold - 1);
      var chosen := Pick(Others(|q.inner|, i), q.threshold - 1 - take);
      var c := Choice(take, chosen, part);
      Overlooked(q, i, e, c);
      nodes := ChosenNodes(q, i, e, c);
      ChosenInside(q, i, e, c);
    }
  }

  lemma ListedAlone(q: QSet, e: NodeId)
    requires q.threshold >= 1 && !Slice(q, {e}) && !NeverAlone(q, e)
    ensures !AllNeverAlone(q.inner, e)
  {
    hide SlicesIn;
    if e in q.validators {
      var k: nat :| k < |q.validators| && q.validators[k] == e;
      CountOnce(q.validators, k, {e});
    }
  }

  lemma ChosenInside(q: QSet, i: nat, e: NodeId, c: Choice)
    requires Chooses(q, i, e, c)
    ensures ChosenNodes(q, i, e, c) <= Nodes(q)
  {
    hide Members, NodesOf;
    MemberNodes(q.inner, i);
    ChosenMembers(q.inner, c.chosen);
  }

  /**
   With an excluded node the search is right for all nodes exactly when no set lists that
   node with threshold one; otherwise it can report a blocked set where there is a slice.
   */
  lemma AloneFails(q: QSet, e: NodeId)
    requires Sane(q) && !Slice(q, {e})
    ensures NeverAlone(q, e) <==>
            forall nodes: set<NodeId>, res: seq<NodeId> | Found(q, nodes, Only(e), res) :: ClosestAvoiding(q, nodes, e, res)
    ensures !NeverAlone(q, e) ==>
            exists nodes: set<NodeId> :: Slice(q, nodes + {e}) && forall res | Found(q, nodes, Only(e), res) :: res == []
  {
    hide Slice, Stripped, Sane, NeverAlone, Found, ClosestAvoiding;
    if NeverAlone(q, e) {
      forall nodes: set<NodeId>, res: seq<NodeId> | Found(q, nodes, Only(e), res) ensures ClosestAvoiding(q, nodes, e, res) {
        WhatIsFound(q, nodes, Only(e), res);
      }
    } else {
      var nodes := Misjudged(q, e);
      forall res | Found(q, nodes, Only(e), res) ensures res == [] {
        FoundNothing(q, nodes, e, res);
      }
      NothingFound(q, nodes, e);
    }
  }

  lemma FoundNothing(q: QSet, nodes: set<NodeId>, e: NodeId, res: seq<NodeId>)
    requires Sane(q) && Found(q, nodes, Only(e), res) && !Slice(Stripped(q, Only(e)), nodes)
    ensures res == []
  {
    hide Slice, Stripped, Sane, Fits, Closest;
  }

  lemma NothingFound(q: QSet, nodes: set<NodeId>, e: NodeId)
    requires Sane(q) && Slice(q, nodes + {e}) && !Slice(Stripped(q, Only(e)), nodes)
    ensures Found(q, nodes, Only(e), []) && !ClosestAvoiding(q, nodes, e, [])
  {
    hide Stripped, Sane, Fits, Closest, Flattened, FlatResult;
    var p := Stripped(q, Only(e));
    if Sane(p) { BlockedSane(p, nodes); }
    if Flattened(p) { BlockedFlat(p, nodes); }
  }

  lemma BlockedSane(p: QSet, nodes: set<NodeId>)
    requires Sane(p) && !Slice(p, nodes)
    ensures Closest(p, nodes, [])
  {
    hide Sane, Closest;
    ThresholdPositive(p);
    NoSlice(p, nodes);
  }

  lemma BlockedFlat(p: QSet, nodes: set<NodeId>)
    requires Flattened(p) && !Slice(p, nodes)
    ensures FlatResult(p, nodes, [])
  {
    hide Count, FlatResult, Present;
    FlatTaken(p, nodes, []);
  }
}
