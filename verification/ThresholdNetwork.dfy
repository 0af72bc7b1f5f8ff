/**
 The classical network: of 3f + 1 nodes that all ask for any 2f + 1 of them, at
 most f misbehave. It meets the assumptions under which agreement is proved.
 */
module ThresholdNetwork {
  import opened QuorumSets
  import opened QuorumSetNormal
  import opened Agreement

  lemma {:induction false} SubsetSize(a: set<NodeId>, b: set<NodeId>)
    requires a <= b
    ensures |a| <= |b|
  {
    assert b == a + (b - a);
  }

  lemma {:induction false} CountIsSize(nodes: seq<NodeId>, s: set<NodeId>)
    requires Distinct(nodes)
    ensures Count(nodes, s) == |s * AsSet(nodes)| && |AsSet(nodes)| == |nodes|
    decreases |nodes|
  {
    if nodes == [] {
      assert s * AsSet(nodes) == {};
    } else {
      var front, last := nodes[..|nodes| - 1], nodes[|nodes| - 1];
      CountIsSize(front, s);
      assert last !in front;
      hide Distinct;
      assert AsSet(nodes) == AsSet(front) + {last};
      OneMore(AsSet(front), last, s);
    }
  }

  lemma OneMore(a: set<NodeId>, x: NodeId, s: set<NodeId>)
    requires x !in a
    ensures |a + {x}| == |a| + 1 && |s * (a + {x})| == |s * a| + (if x in s then 1 else 0)
  {
    assert s * (a + {x}) == if x in s then s * a + {x} else s * a;
  }

  /** Two large parts of a set share more than they leave out. */
  lemma Overlap(a: set<NodeId>, b: set<NodeId>, all: set<NodeId>)
    requires a <= all && b <= all
    ensures |a * b| >= |a| + |b| - |all|
  {
    SubsetSize(a + b, all);
  }

  lemma SliceIsMajority(nodes: seq<NodeId>, threshold: Uint32, u: set<NodeId>)
    requires Distinct(nodes) && threshold > 0
    ensures Slice(QSet(threshold, nodes, []), u) <==> |u * AsSet(nodes)| >= threshold
  {
    CountIsSize(nodes, u);
  }

  lemma QuorumsShareIntact(nodes: set<NodeId>, f: nat, intact: set<NodeId>, u1: set<NodeId>, u2: set<NodeId>)
    requires |nodes| == 3 * f + 1 && intact <= nodes && |intact| >= 2 * f + 1
    requires |u1 * nodes| >= 2 * f + 1 && |u2 * nodes| >= 2 * f + 1
    ensures u1 * u2 * intact != {}
  {
    var a, b := u1 * nodes, u2 * nodes;
    Overlap(a, b, nodes);
    Overlap(a * b, intact, nodes);
    assert a * b * intact <= u1 * u2 * intact;
    assert |a * b * intact| > 0;
  }

  /** f faults among 3f + 1 nodes are tolerated. */
  lemma ToleratesFaults(f: nat, nodes: seq<NodeId>, net: Network)
    requires Distinct(nodes) && |nodes| == 3 * f + 1 < 0x8000_0000
    requires net.intact <= AsSet(nodes) && |net.intact| >= 2 * f + 1
    requires net.intact <= net.qset.Keys
    requires forall v | v in net.intact :: net.qset[v] == QSet(2 * f + 1, nodes, [])
    ensures net.Sound()
  {
    hide Slice, VBlocking;
    var q := QSet(2 * f + 1, nodes, []);
    assert InRange(q);
    CountIsSize(nodes, net.intact);
    assert net.intact * AsSet(nodes) == net.intact;
    SliceIsMajority(nodes, 2 * f + 1, net.intact);
    IntactBlocks(f, nodes, net.intact);
    forall u1, u2 | net.Closed(u1) && net.Closed(u2) ensures u1 * u2 * net.intact != {} {
      var z1 :| z1 in u1 * net.intact;
      var z2 :| z2 in u2 * net.intact;
      assert net.qset[z1] == q && net.qset[z2] == q;
      SliceIsMajority(nodes, 2 * f + 1, u1);
      SliceIsMajority(nodes, 2 * f + 1, u2);
      QuorumsShareIntact(AsSet(nodes), f, net.intact, u1, u2);
    }
  }

  lemma IntactBlocks(f: nat, nodes: seq<NodeId>, intact: set<NodeId>)
    requires |nodes| == 3 * f + 1 < 0x8000_0000 && Count(nodes, intact) >= 2 * f + 1
    ensures VBlocking(QSet(2 * f + 1, nodes, []), intact)
  {
  }
}
