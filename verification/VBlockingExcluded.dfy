/**
 The excluded node of findClosestVBlocking (src/scp/LocalNode.cpp): it counts as
 present and is never part of the result. Searching around it is searching in the
 quorum set without it, whose thresholds are met by one entry less.
 */
module VBlockingExcluded {
  import opened QuorumSets
  import opened QuorumSetNormal
  import opened VBlockingDistance

  /** The excluded node, if there is one. */
  datatype Excluded = Nobody | Only(node: NodeId)
  {
    predicate Is(n: NodeId) { Only? && node == n }
  }

  function Drop(vs: seq<NodeId>, e: Excluded): (r: seq<NodeId>)
    ensures |r| <= |vs|
  {
    if vs == [] then []
    else
      var front := Drop(vs[..|vs| - 1], e);
      if e.Is(vs[|vs| - 1]) then front else front + [vs[|vs| - 1]]
  }

  /** The quorum set without the excluded node, as the search sees it: no threshold falls to zero. */
  function Stripped(q: QSet, e: Excluded): (r: QSet)
    decreases q
  {
    var vs := Drop(q.validators, e);
    var gone := |q.validators| - |vs|;
    QSet(if gone == 0 || q.threshold > gone then q.threshold - gone else 1, vs, AllStripped(q.inner, e))
  }

  function AllStripped(qs: seq<QSet>, e: Excluded): (r: seq<QSet>)
    ensures |r| == |qs|
    decreases qs
  {
    if qs == [] then [] else AllStripped(qs[..|qs| - 1], e) + [Stripped(qs[|qs| - 1], e)]
  }

  lemma {:induction false} StrippedAt(qs: seq<QSet>, e: Excluded, i: nat)
    requires i < |qs|
    ensures AllStripped(qs, e)[i] == Stripped(qs[i], e)
    decreases |qs|
  {
    hide Stripped;
    if i < |qs| - 1 {
      StrippedAt(qs[..|qs| - 1], e, i);
    }
  }

  lemma {:induction false} DropNobody(vs: seq<NodeId>)
    ensures Drop(vs, Nobody) == vs
    decreases |vs|
  {
    if vs != [] {
      DropNobody(vs[..|vs| - 1]);
    }
  }

  lemma {:induction false} StrippedNobody(q: QSet)
    ensures Stripped(q, Nobody) == q
    decreases q
  {
    DropNobody(q.validators);
    AllStrippedNobody(q.inner);
  }

  lemma {:induction false} AllStrippedNobody(qs: seq<QSet>)
    ensures AllStripped(qs, Nobody) == qs
    decreases qs
  {
    hide Stripped;
    if qs != [] {
      AllStrippedNobody(qs[..|qs| - 1]);
      StrippedNobody(qs[|qs| - 1]);
    }
  }

  // --- dropping a node --------------------------------------------------------------------

  lemma {:induction false} DropJoin(a: seq<NodeId>, b: seq<NodeId>, e: Excluded)
    ensures Drop(a + b, e) == Drop(a, e) + Drop(b, e)
    decreases |b|
  {
    if b == [] {
      assert a + b == a;
    } else {
      assert (a + b)[..|a + b| - 1] == a + b[..|b| - 1];
      DropJoin(a, b[..|b| - 1], e);
    }
  }

  lemma DropStep(vs: seq<NodeId>, i: nat, e: Excluded)
    requires i < |vs|
    ensures Drop(vs[..i + 1], e) == Drop(vs[..i], e) + (if e.Is(vs[i]) then [] else [vs[i]])
    ensures Drop(vs[..i + 1], e) <= Drop(vs, e)
  {
    assert vs[..i + 1][..i] == vs[..i];
    assert vs == vs[..i + 1] + vs[i + 1..];
    DropJoin(vs[..i + 1], vs[i + 1..], e);
  }

  lemma {:induction false} DropMembers(vs: seq<NodeId>, e: NodeId)
    ensures AsSet(Drop(vs, Only(e))) == AsSet(vs) - {e}
    decreases |vs|
  {
    if vs != [] {
      var front, last := vs[..|vs| - 1], vs[|vs| - 1];
      DropMembers(front, e);
      AsSetJoin(front, [last]);
      AsSetJoin(Drop(front, Only(e)), [last]);
      assert vs == front + [last];
    }
  }

  lemma {:induction false} DropDistinct(vs: seq<NodeId>, e: NodeId)
    requires Distinct(vs)
    ensures Distinct(Drop(vs, Only(e)))
    ensures |Drop(vs, Only(e))| == |vs| - (if e in vs then 1 else 0)
    decreases |vs|
  {
    if vs != [] {
      var front, last := vs[..|vs| - 1], vs[|vs| - 1];
      DropDistinct(front, e);
      DropMembers(front, e);
      assert last !in front;
      assert last !in AsSet(Drop(front, Only(e)));
      if !Only(e).Is(last) {
        JoinDistinct(Drop(front, Only(e)), [last]);
      }
    }
  }

  lemma {:induction false} FlatStripped(q: QSet, e: Excluded)
    ensures Flat(Stripped(q, e)) == Drop(Flat(q), e)
    decreases q
  {
    AllFlatStripped(q.inner, e);
    DropJoin(q.validators, AllFlat(q.inner), e);
  }

  lemma {:induction false} AllFlatStripped(qs: seq<QSet>, e: Excluded)
    ensures AllFlat(AllStripped(qs, e)) == Drop(AllFlat(qs), e)
    decreases qs
  {
    hide Flat, Stripped, Drop;
    if qs == [] {
      DropNothing(e);
    } else {
      var front, last := qs[..|qs| - 1], qs[|qs| - 1];
      AllFlatStripped(front, e);
      FlatStripped(last, e);
      DropJoin(AllFlat(front), Flat(last), e);
      assert AllStripped(qs, e)[..|qs| - 1] == AllStripped(front, e);
    }
  }

  lemma DropNothing(e: Excluded)
    ensures Drop([], e) == []
  {
  }

  // --- the slices of the stripped set -------------------------------------------------------

  /** No set that lists the excluded node is met by one entry. */
  predicate NeverAlone(q: QSet, e: NodeId)
    decreases q
  {
    (e in q.validators ==> q.threshold >= 2) && AllNeverAlone(q.inner, e)
  }

  predicate AllNeverAlone(qs: seq<QSet>, e: NodeId)
    decreases qs
  {
    qs == [] || (AllNeverAlone(qs[..|qs| - 1], e) && NeverAlone(qs[|qs| - 1], e))
  }

  /** Every threshold is above the number of times its set lists the excluded node. */
  predicate Fits(q: QSet, e: Excluded)
    decreases q
  {
    |q.validators| - |Drop(q.validators, e)| < q.threshold && AllFit(q.inner, e)
  }

  predicate AllFit(qs: seq<QSet>, e: Excluded)
    decreases qs
  {
    qs == [] || (AllFit(qs[..|qs| - 1], e) && Fits(qs[|qs| - 1], e))
  }

  lemma {:induction false} NobodyFits(q: QSet)
    requires ThresholdsOk(q, false)
    ensures Fits(q, Nobody)
    decreases q
  {
    DropNobody(q.validators);
    AllNobodyFit(q.inner);
  }

  lemma {:induction false} AllNobodyFit(qs: seq<QSet>)
    requires AllThresholdsOk(qs, false)
    ensures AllFit(qs, Nobody)
    decreases qs
  {
    hide Fits, ThresholdsOk;
    if qs != [] {
      AllNobodyFit(qs[..|qs| - 1]);
      NobodyFits(qs[|qs| - 1]);
    }
  }

  lemma {:induction false} FitsAt(qs: seq<QSet>, e: Excluded, i: nat)
    requires AllFit(qs, e) && i < |qs|
    ensures Fits(qs[i], e)
    decreases |qs|
  {
    hide Fits;
    if i < |qs| - 1 {
      FitsAt(qs[..|qs| - 1], e, i);
    }
  }

  lemma {:induction false} CountDrop(vs: seq<NodeId>, e: NodeId, s: set<NodeId>)
    requires e !in s
    ensures Count(vs, s + {e}) == Count(Drop(vs, Only(e)), s) + (|vs| - |Drop(vs, Only(e))|)
    decreases |vs|
  {
    if vs != [] {
      var front, last := vs[..|vs| - 1], vs[|vs| - 1];
      CountDrop(front, e, s);
      var d := Drop(front, Only(e));
      assert (d + [last])[..|d|] == d;
    }
  }

  lemma {:induction false} SliceStripped(q: QSet, e: NodeId, s: set<NodeId>)
    requires Fits(q, Only(e)) && e !in s
    ensures Slice(q, s + {e}) <==> Slice(Stripped(q, Only(e)), s)
    decreases q
  {
    hide Drop, Count;
    CountDrop(q.validators, e, s);
    SlicesStripped(q.inner, e, s);
  }

  lemma {:induction false} SlicesStripped(qs: seq<QSet>, e: NodeId, s: set<NodeId>)
    requires AllFit(qs, Only(e)) && e !in s
    ensures SlicesIn(qs, s + {e}) == SlicesIn(AllStripped(qs, Only(e)), s)
    decreases qs
  {
    hide Stripped, Slice, Fits;
    if qs != [] {
      var front, last := qs[..|qs| - 1], qs[|qs| - 1];
      SlicesStripped(front, e, s);
      SliceStripped(last, e, s);
      assert AllStripped(qs, Only(e))[..|qs| - 1] == AllStripped(front, Only(e));
    }
  }

  // --- the stripped set is sane ----------------------------------------------------------------

  lemma {:induction false} ThresholdsStripped(q: QSet, e: NodeId)
    requires ThresholdsOk(q, false) && Distinct(Flat(q)) && NeverAlone(q, e)
    ensures Fits(q, Only(e)) && ThresholdsOk(Stripped(q, Only(e)), false)
    decreases q
  {
    hide Drop, Count, Distinct, Slice;
    DistinctParts(q.validators, AllFlat(q.inner));
    DropDistinct(q.validators, e);
    AllThresholdsStripped(q.inner, e);
  }

  lemma {:induction false} AllThresholdsStripped(qs: seq<QSet>, e: NodeId)
    requires AllThresholdsOk(qs, false) && Distinct(AllFlat(qs)) && AllNeverAlone(qs, e)
    ensures AllFit(qs, Only(e)) && AllThresholdsOk(AllStripped(qs, Only(e)), false)
    decreases qs
  {
    hide Stripped, ThresholdsOk, NeverAlone, Fits, Distinct, Flat;
    if qs != [] {
      var front, last := qs[..|qs| - 1], qs[|qs| - 1];
      DistinctParts(AllFlat(front), Flat(last));
      AllThresholdsStripped(front, e);
      ThresholdsStripped(last, e);
      assert AllStripped(qs, Only(e))[..|qs| - 1] == AllStripped(front, Only(e));
    }
  }

  lemma SaneStripped(q: QSet, e: NodeId)
    requires Sane(q) && NeverAlone(q, e)
    ensures Fits(q, Only(e)) && Sane(Stripped(q, Only(e)))
  {
    hide Flat, ThresholdsOk, Distinct, NeverAlone, Fits;
    ThresholdsStripped(q, e);
    FlatStripped(q, Only(e));
    DropDistinct(Flat(q), e);
  }

  // --- cuts that avoid the excluded node ----------------------------------------------------------

  /** What the search finds when a node is excluded: nothing more than needed without that node. */
  ghost predicate ClosestAvoiding(q: QSet, nodes: set<NodeId>, e: NodeId, res: seq<NodeId>) {
    && AsSet(res) <= nodes * Nodes(q) - {e} && Distinct(res)
    && Cuts(q, nodes + {e}, AsSet(res))
    && (res == [] <==> !Slice(q, nodes + {e}))
    && forall t: set<NodeId> | e !in t && Cuts(q, nodes + {e}, t) :: |res| <= |t|
  }

  lemma NodesStripped(q: QSet, e: NodeId)
    ensures Nodes(Stripped(q, Only(e))) == Nodes(q) - {e}
  {
    hide Nodes, Flat, Stripped, Drop;
    FlatNodes(q);
    FlatNodes(Stripped(q, Only(e)));
    FlatStripped(q, Only(e));
    DropMembers(Flat(q), e);
  }

  lemma CutsStripped(q: QSet, nodes: set<NodeId>, e: NodeId, t: set<NodeId>)
    requires Fits(q, Only(e)) && e !in t
    ensures Cuts(q, nodes + {e}, t) <==> Cuts(Stripped(q, Only(e)), nodes - {e}, t)
  {
    hide Slice, Stripped, Fits;
    assert nodes + {e} - t == nodes - {e} - t + {e};
    SliceStripped(q, e, nodes - {e} - t);
  }

  /** The stripped set does not mention the excluded node. */
  lemma CutsWithout(q: QSet, nodes: set<NodeId>, e: NodeId, t: set<NodeId>)
    ensures Cuts(Stripped(q, Only(e)), nodes, t) <==> Cuts(Stripped(q, Only(e)), nodes - {e}, t)
  {
    hide Slice, Stripped, Nodes;
    NodesStripped(q, e);
    SliceLocal(Stripped(q, Only(e)), nodes - t, nodes - {e} - t);
  }

  /** A closest cut of the stripped set is a closest cut that avoids the excluded node. */
  lemma ClosestStripped(q: QSet, nodes: set<NodeId>, e: NodeId, res: seq<NodeId>)
    requires Fits(q, Only(e)) && Closest(Stripped(q, Only(e)), nodes, res)
    ensures ClosestAvoiding(q, nodes, e, res)
  {
    hide Fits, Stripped, Nodes, Cuts, Slice, Distinct;
    NodesStripped(q, e);
    assert e !in AsSet(res);
    SameCuts(q, nodes, e, AsSet(res));
    SameSlice(q, nodes, e);
    forall t: set<NodeId> | e !in t && Cuts(q, nodes + {e}, t) ensures |res| <= |t| {
      SameCuts(q, nodes, e, t);
    }
  }

  lemma SameCuts(q: QSet, nodes: set<NodeId>, e: NodeId, t: set<NodeId>)
    requires Fits(q, Only(e)) && e !in t
    ensures Cuts(q, nodes + {e}, t) <==> Cuts(Stripped(q, Only(e)), nodes, t)
  {
    hide Fits, Stripped, Cuts;
    CutsStripped(q, nodes, e, t);
    CutsWithout(q, nodes, e, t);
  }

  lemma SameSlice(q: QSet, nodes: set<NodeId>, e: NodeId)
    requires Fits(q, Only(e))
    ensures Slice(q, nodes + {e}) <==> Slice(Stripped(q, Only(e)), nodes)
  {
    hide Fits, Stripped, Slice;
    SameCuts(q, nodes, e, {});
    assert nodes + {e} - {} == nodes + {e} && nodes - {} == nodes;
  }

  /** A cut that avoids the excluded node exists exactly when that node alone is no slice. */
  lemma CutExists(q: QSet, nodes: set<NodeId>, e: NodeId)
    ensures (exists t: set<NodeId> :: e !in t && Cuts(q, nodes + {e}, t)) <==> !Slice(q, {e})
  {
    hide Slice;
    var all := nodes - {e};
    assert nodes + {e} - all == {e};
    assert !Slice(q, {e}) ==> Cuts(q, nodes + {e}, all);
    forall t: set<NodeId> | e !in t && Cuts(q, nodes + {e}, t) ensures !Slice(q, {e}) {
      SliceMonotone(q, {e}, nodes + {e} - t);
    }
  }
}
