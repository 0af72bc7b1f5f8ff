/**
 Quorums among the latest statements of the nodes (isQuorum in
 src/scp/LocalNode.cpp) and the federated voting steps built on them
 (src/scp/Slot.cpp).
 */
module Quorums {
  import opened QuorumSets

  /** The nodes whose latest statement passes the filter. */
  function Claiming<St>(envs: map<NodeId, St>, filter: St -> bool): (s: set<NodeId>) {
    set n | n in envs && filter(envs[n])
  }

  /** Each member has a slice of its own, as given in its statement, inside u. */
  predicate SelfSufficient<St>(u: set<NodeId>, envs: map<NodeId, St>, qfun: St -> QSet) {
    forall n | n in u :: n in envs && Slice(qfun(envs[n]), u)
  }

  ghost predicate IsQuorumIn<St>(u: set<NodeId>, q: QSet, envs: map<NodeId, St>, qfun: St -> QSet, filter: St -> bool) {
    u <= Claiming(envs, filter) && SelfSufficient(u, envs, qfun) && Slice(q, u)
  }

  /** Some of the filtered nodes form a quorum that contains a slice of q. */
  ghost predicate HasQuorum<St(!new)>(q: QSet, envs: map<NodeId, St>, qfun: St -> QSet, filter: St -> bool) {
    exists u: set<NodeId> :: IsQuorumIn(u, q, envs, qfun, filter)
  }

  lemma QuorumMembers<St>(u: set<NodeId>, q: QSet, envs: map<NodeId, St>, qfun: St -> QSet, filter: St -> bool)
    requires IsQuorumIn(u, q, envs, qfun, filter)
    ensures forall n | n in u :: n in envs && filter(envs[n])
    ensures SelfSufficient(u, envs, qfun) && Slice(q, u)
  {
    hide Slice;
    assert forall n | n in u :: n in Claiming(envs, filter);
  }

  method Filtered<St>(envs: map<NodeId, St>, filter: St -> bool) returns (nodes: seq<NodeId>)
    ensures AsSet(nodes) == Claiming(envs, filter)
  {
    nodes := [];
    var rest := envs.Keys;
    while rest != {}
      invariant rest <= envs.Keys
      invariant forall n :: n in nodes <==> n in Claiming(envs, filter) && n !in rest
      decreases rest
    {
      var n :| n in rest;
      rest := rest - {n};
      if filter(envs[n]) {
        nodes := nodes + [n];
      }
    }
  }

  /** The nodes that have a slice inside s, in order. */
  function Supported<St>(nodes: seq<NodeId>, s: set<NodeId>, envs: map<NodeId, St>, qfun: St -> QSet): (r: seq<NodeId>)
    ensures |r| <= |nodes|
  {
    if nodes == [] then []
    else
      var front, last := Supported(nodes[..|nodes| - 1], s, envs, qfun), nodes[|nodes| - 1];
      if last in envs && Slice(qfun(envs[last]), s) then front + [last] else front
  }

  lemma SupportedStep<St>(nodes: seq<NodeId>, i: nat, s: set<NodeId>, envs: map<NodeId, St>, qfun: St -> QSet)
    requires i < |nodes|
    ensures Supported(nodes[..i + 1], s, envs, qfun)
         == Supported(nodes[..i], s, envs, qfun) + (if nodes[i] in envs && Slice(qfun(envs[nodes[i]]), s) then [nodes[i]] else [])
  {
    hide Slice;
    assert nodes[..i + 1][..i] == nodes[..i];
  }

  lemma NoneSupported<St>(nodes: seq<NodeId>, envs: map<NodeId, St>, qfun: St -> QSet)
    ensures Supported(nodes[..0], AsSet(nodes), envs, qfun) == []
  {
  }

  /** Keeps the nodes that have a slice among all of them, in their order. */
  method KeepSupported<St>(nodes: seq<NodeId>, envs: map<NodeId, St>, qfun: St -> QSet) returns (kept: seq<NodeId>)
    requires AsSet(nodes) <= envs.Keys
    ensures forall n :: n in kept <==> n in nodes && n in envs && Slice(qfun(envs[n]), AsSet(nodes))
    ensures kept == Supported(nodes, AsSet(nodes), envs, qfun)
    ensures |kept| == |nodes| ==> kept == nodes
  {
    hide Slice, Supported;
    kept := [];
    NoneSupported(nodes, envs, qfun);
    for i := 0 to |nodes|
      invariant forall n :: n in kept <==> n in nodes[..i] && n in envs && Slice(qfun(envs[n]), AsSet(nodes))
      invariant kept == Supported(nodes[..i], AsSet(nodes), envs, qfun)
      invariant |kept| == i ==> kept == nodes[..i]
    {
      assert nodes[i] in AsSet(nodes);
      assert nodes[..i + 1] == nodes[..i] + [nodes[i]];
      SupportedStep(nodes, i, AsSet(nodes), envs, qfun);
      var supported := IsQuorumSlice(qfun(envs[nodes[i]]), nodes);
      if supported {
        kept := kept + [nodes[i]];
      }
    }
    assert nodes[..|nodes|] == nodes;
  }

  /** The loop removes unsupported nodes only: no quorum among the nodes loses a member. */
  lemma QuorumSurvives<St>(u: set<NodeId>, nodes: seq<NodeId>, kept: seq<NodeId>, envs: map<NodeId, St>, qfun: St -> QSet)
    requires SelfSufficient(u, envs, qfun) && u <= AsSet(nodes)
    requires forall n :: n in kept <==> n in nodes && n in envs && Slice(qfun(envs[n]), AsSet(nodes))
    ensures u <= AsSet(kept)
  {
    hide Slice;
    forall n | n in u ensures n in kept {
      SliceMonotone(qfun(envs[n]), u, AsSet(nodes));
    }
  }

  /** Every quorum among the filtered nodes lies inside the candidates. */
  ghost predicate Covers<St(!new)>(nodes: seq<NodeId>, envs: map<NodeId, St>, qfun: St -> QSet, filter: St -> bool) {
    && AsSet(nodes) <= Claiming(envs, filter)
    && forall u: set<NodeId> | u <= Claiming(envs, filter) && SelfSufficient(u, envs, qfun) :: u <= AsSet(nodes)
  }

  lemma StillCovers<St(!new)>(nodes: seq<NodeId>, kept: seq<NodeId>, envs: map<NodeId, St>, qfun: St -> QSet, filter: St -> bool)
    requires Covers(nodes, envs, qfun, filter)
    requires forall n :: n in kept <==> n in nodes && n in envs && Slice(qfun(envs[n]), AsSet(nodes))
    ensures Covers(kept, envs, qfun, filter)
  {
    hide Slice, SelfSufficient;
    assert AsSet(kept) <= AsSet(nodes);
    forall u: set<NodeId> | u <= Claiming(envs, filter) && SelfSufficient(u, envs, qfun) ensures u <= AsSet(kept) {
      QuorumSurvives(u, nodes, kept, envs, qfun);
    }
  }

  /** What is left in the end is the largest quorum of all. */
  lemma GreatestQuorum<St(!new)>(q: QSet, nodes: seq<NodeId>, envs: map<NodeId, St>, qfun: St -> QSet, filter: St -> bool)
    requires Covers(nodes, envs, qfun, filter)
    requires forall n | n in nodes :: n in envs && Slice(qfun(envs[n]), AsSet(nodes))
    ensures Slice(q, AsSet(nodes)) <==> HasQuorum(q, envs, qfun, filter)
  {
    hide Slice;
    if Slice(q, AsSet(nodes)) {
      assert IsQuorumIn(AsSet(nodes), q, envs, qfun, filter);
    }
    if HasQuorum(q, envs, qfun, filter) {
      var u :| IsQuorumIn(u, q, envs, qfun, filter);
      SliceMonotone(q, u, AsSet(nodes));
    }
  }

  method IsQuorum<St(!new)>(q: QSet, envs: map<NodeId, St>, qfun: St -> QSet, filter: St -> bool) returns (result: bool)
    ensures result <==> HasQuorum(q, envs, qfun, filter)
  {
    hide Slice, HasQuorum, SelfSufficient;
    var pNodes := Filtered(envs, filter);
    var count := |pNodes|;
    var previous := pNodes;
    pNodes := KeepSupported(previous, envs, qfun);
    StillCovers(previous, pNodes, envs, qfun, filter);
    while count != |pNodes|
      invariant |pNodes| <= count == |previous|
      invariant Covers(pNodes, envs, qfun, filter)
      invariant forall n :: n in pNodes <==> n in previous && n in envs && Slice(qfun(envs[n]), AsSet(previous))
      invariant |pNodes| == |previous| ==> pNodes == previous
      decreases count
    {
      count := |pNodes|;
      previous := pNodes;
      pNodes := KeepSupported(previous, envs, qfun);
      StillCovers(previous, pNodes, envs, qfun, filter);
    }
    GreatestQuorum(q, pNodes, envs, qfun, filter);
    result := IsQuorumSlice(q, pNodes);
  }

  /** A statement is accepted: by a blocking set, or by a quorum that voted for it or accepted it. */
  ghost predicate Acceptable<St(!new)>(q: QSet, envs: map<NodeId, St>, qfun: St -> QSet,
                                       voted: St -> bool, accepted: St -> bool)
  {
    || VBlocking(q, Claiming(envs, accepted))
    || HasQuorum(q, envs, qfun, st => accepted(st) || voted(st))
  }

  /** A quorum whose members all voted or accepted. */
  lemma AcceptedByQuorum<St(!new)>(u: set<NodeId>, q: QSet, envs: map<NodeId, St>, qfun: St -> QSet,
                                   voted: St -> bool, accepted: St -> bool)
    requires forall n | n in u :: n in envs && (accepted(envs[n]) || voted(envs[n]))
    requires SelfSufficient(u, envs, qfun) && Slice(q, u)
    ensures Acceptable(q, envs, qfun, voted, accepted)
  {
    hide Slice, VBlocking;
    var filter := st => accepted(st) || voted(st);
    assert IsQuorumIn(u, q, envs, qfun, filter);
  }

  method FederatedAccept<St(!new)>(q: QSet, envs: map<NodeId, St>, qfun: St -> QSet, voted: St -> bool, accepted: St -> bool)
    returns (result: bool)
    ensures result <==> Acceptable(q, envs, qfun, voted, accepted)
  {
    hide VBlocking, HasQuorum;
    var nodes := Filtered(envs, accepted);
    var blocked := IsVBlocking(q, nodes);
    if blocked {
      return true;
    }
    var ratifyFilter := st => accepted(st) || voted(st);
    result := IsQuorum(q, envs, qfun, ratifyFilter);
  }

  method FederatedRatify<St(!new)>(q: QSet, envs: map<NodeId, St>, qfun: St -> QSet, voted: St -> bool) returns (result: bool)
    ensures result <==> HasQuorum(q, envs, qfun, voted)
  {
    result := IsQuorum(q, envs, qfun, voted);
  }
}
