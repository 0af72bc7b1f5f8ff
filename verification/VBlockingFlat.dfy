/**
 Quorum sets without inner sets: when is the number of entries that
 findClosestVBlocking (src/scp/LocalNode.cpp) returns the least number of nodes?
 */
module VBlockingFlat {
  import opened QuorumSets
  import opened QuorumSetNormal
  import opened ThresholdNetwork
  import opened VBlockingDistance

  /** No inner sets, and a threshold that can be met and missed. */
  predicate Flattened(q: QSet) {
    q.inner == [] && 1 <= q.threshold <= q.Entries()
  }

  /** The validators to take away, repeated ones counted as often as they are listed. */
  function FlatSize(q: QSet, nodes: set<NodeId>): nat {
    if Count(q.validators, nodes) < q.threshold then 0 else Count(q.validators, nodes) - q.threshold + 1
  }

  /** No cut has fewer than k nodes. */
  ghost predicate Least(q: QSet, nodes: set<NodeId>, k: nat) {
    forall t: set<NodeId> | Cuts(q, nodes, t) :: k <= |t|
  }

  // --- counting ------------------------------------------------------------------------------

  lemma {:induction false} CountPresent(vs: seq<NodeId>, nodes: set<NodeId>, s: set<NodeId>)
    requires s <= nodes
    ensures Count(vs, s) == Count(Present(vs, nodes), s)
    decreases |vs|
  {
    if vs != [] {
      var front, last := vs[..|vs| - 1], vs[|vs| - 1];
      CountPresent(front, nodes, s);
      var p := Present(front, nodes);
      assert (p + [last])[..|p|] == p;
    }
  }

  lemma {:induction false} CountSplit(p: seq<NodeId>, nodes: set<NodeId>, t: set<NodeId>)
    requires AsSet(p) <= nodes
    ensures Count(p, nodes - t) + Count(p, t) == |p|
    decreases |p|
  {
    if p != [] {
      assert p[|p| - 1] in AsSet(p);
      assert AsSet(p[..|p| - 1]) <= AsSet(p);
      CountSplit(p[..|p| - 1], nodes, t);
    }
  }

  /** What a set of nodes takes away from a flat set. */
  lemma FlatCuts(q: QSet, nodes: set<NodeId>, t: set<NodeId>)
    requires Flattened(q)
    ensures Cuts(q, nodes, t) <==> Count(q.validators, nodes) - Count(Present(q.validators, nodes), t) < q.threshold
  {
    hide Count, Present;
    CountPresent(q.validators, nodes, nodes - t);
    CountSplit(Present(q.validators, nodes), nodes, t);
  }

  /** Nodes that are listed once each take away no more entries than there are nodes. */
  lemma DistinctCount(p: seq<NodeId>, t: set<NodeId>)
    requires Distinct(p)
    ensures Count(p, t) <= |t|
  {
    hide Count, AsSet;
    CountIsSize(p, t);
    SubsetSize(t * AsSet(p), t);
  }

  // --- the size is the least ---------------------------------------------------------------------

  lemma SizeLeast(q: QSet, nodes: set<NodeId>)
    requires Flattened(q)
    requires Count(q.validators, nodes) <= q.threshold || Distinct(Present(q.validators, nodes))
    ensures Least(q, nodes, FlatSize(q, nodes))
  {
    hide Count, Present, Distinct, Cuts;
    var p := Present(q.validators, nodes);
    forall t: set<NodeId> | Cuts(q, nodes, t) ensures FlatSize(q, nodes) <= |t| {
      FlatCuts(q, nodes, t);
      if Distinct(p) {
        DistinctCount(p, t);
      } else if t == {} {
        NoneCounted(p);
      }
    }
  }

  // --- the size is not the least ---------------------------------------------------------------

  lemma {:induction false} CountOnce(p: seq<NodeId>, i: nat, t: set<NodeId>)
    requires i < |p| && p[i] in t
    ensures Count(p, t) >= 1
    decreases |p|
  {
    if i < |p| - 1 {
      CountOnce(p[..|p| - 1], i, t);
    }
  }

  lemma {:induction false} CountTwice(p: seq<NodeId>, i: nat, j: nat, t: set<NodeId>)
    requires i < j < |p| && p[i] in t && p[j] in t
    ensures Count(p, t) >= 2
    decreases |p|
  {
    if j < |p| - 1 {
      CountTwice(p[..|p| - 1], i, j, t);
    } else {
      CountOnce(p[..|p| - 1], i, t);
    }
  }

  lemma {:induction false} Missed(p: seq<NodeId>, t: set<NodeId>) returns (x: NodeId)
    requires Count(p, t) < |p|
    ensures x !in t && Count(p, t + {x}) > Count(p, t)
    decreases |p|
  {
    var front, last := p[..|p| - 1], p[|p| - 1];
    if last !in t {
      x := last;
      CountMonotone(front, t, t + {x});
    } else {
      x := Missed(front, t);
    }
  }

  /** Fewer than k nodes take away k entries when one of them is listed twice. */
  lemma {:induction false} CheapCut(p: seq<NodeId>, i: nat, j: nat, k: nat) returns (t: set<NodeId>)
    requires i < j < |p| && p[i] == p[j] && 2 <= k <= |p|
    ensures |t| < k <= Count(p, t)
    decreases k
  {
    if k == 2 {
      t := {p[i]};
      CountTwice(p, i, j, t);
    } else {
      t := CheapCut(p, i, j, k - 1);
      if Count(p, t) < k {
        var x := Missed(p, t);
        t := t + {x};
      }
    }
  }

  lemma SizeNotLeast(q: QSet, nodes: set<NodeId>)
    requires Flattened(q)
    requires Count(q.validators, nodes) > q.threshold && !Distinct(Present(q.validators, nodes))
    ensures !Least(q, nodes, FlatSize(q, nodes))
  {
    hide Count, Present, Cuts;
    var p := Present(q.validators, nodes);
    var i: nat, j: nat :| i < j < |p| && p[i] == p[j];
    var t := CheapCut(p, i, j, FlatSize(q, nodes));
    FlatCuts(q, nodes, t);
  }

  /**
   The number of entries found is the least number of nodes exactly when too few
   entries are there, when one suffices, or when no node is listed twice.
   */
  lemma FlatLeast(q: QSet, nodes: set<NodeId>)
    requires Flattened(q)
    ensures Least(q, nodes, FlatSize(q, nodes))
       <==> Count(q.validators, nodes) <= q.threshold || Distinct(Present(q.validators, nodes))
  {
    hide *;
    if Count(q.validators, nodes) <= q.threshold || Distinct(Present(q.validators, nodes)) {
      SizeLeast(q, nodes);
    } else {
      SizeNotLeast(q, nodes);
    }
  }

  lemma {:induction false} TakenCount(p: seq<NodeId>, k: nat, t: set<NodeId>)
    requires k <= |p| && AsSet(p[..k]) <= t
    ensures Count(p, t) >= k
    decreases |p|
  {
    if k < |p| {
      assert p[..|p| - 1][..k] == p[..k];
      TakenCount(p[..|p| - 1], k, t);
    } else if p != [] {
      assert p[|p| - 1] in AsSet(p[..k]);
      assert AsSet(p[..|p| - 1]) <= AsSet(p[..k]);
      TakenCount(p[..|p| - 1], k - 1, t);
    }
  }

  /** The entries taken do cut, repeated or not. */
  lemma FlatFound(q: QSet, nodes: set<NodeId>)
    requires Flattened(q)
    ensures FlatSize(q, nodes) <= Count(q.validators, nodes)
    ensures Cuts(q, nodes, AsSet(Present(q.validators, nodes)[..FlatSize(q, nodes)]))
  {
    hide Count, Present, Cuts, AsSet;
    var p, k := Present(q.validators, nodes), FlatSize(q, nodes);
    TakenCount(p, k, AsSet(p[..k]));
    FlatCuts(q, nodes, AsSet(p[..k]));
  }
}
