/**
 What a node object does on a message is a piece of a run of the network, so the
 agreement theorem covers it.
 */
module NodeRuns {
  import opened QuorumSets
  import opened Ballots
  import opened Agreement
  import BallotProtocol

  /** Worlds that follow each other. */
  ghost predicate Path(net: Network, run: seq<World>) {
    |run| > 0 && forall i | 0 < i < |run| :: Follows(net, run[i - 1], run[i])
  }

  lemma PathExtends(net: Network, run: seq<World>, w: World)
    requires Path(net, run) && run[0] == w
    ensures forall before: World | Follows(net, before, w) :: Path(net, [before] + run)
  {
    hide Follows;
    forall before: World | Follows(net, before, w) ensures Path(net, [before] + run) {
      var longer := [before] + run;
      forall i | 0 < i < |longer| ensures Follows(net, longer[i - 1], longer[i]) {
        assert i > 1 ==> longer[i - 1] == run[i - 2] && longer[i] == run[i - 1];
      }
    }
  }

  /** A chain of steps of one node is a path of the network to the node's new state. */
  lemma {:induction false} ChainIsPath(net: Network, w: World, v: NodeId, envs: Envelopes, actions: seq<Action>,
                                       s': State, envs': Envelopes)
    returns (run: seq<World>)
    requires v in net.intact && v in net.qset && v in w.state && v in w.said && Received(net, w.said, envs)
    requires BallotProtocol.Chain(v, net.qset[v], w.state[v], envs, actions, s', envs')
    ensures Path(net, run) && run[0] == w
    ensures var end := run[|run| - 1];
            && v in end.state && v in end.said && end.state[v] == s' && Received(net, end.said, envs')
            && (forall z | z != v :: (z in end.state <==> z in w.state) && (z in w.state ==> end.state[z] == w.state[z]))
    decreases |actions|
  {
    hide Steps, CanSpeak, PledgesOf, Follows;
    if actions == [] {
      run := [w];
    } else {
      var w1, envs1 := OneStep(net, w, v, envs, actions, s', envs');
      var rest := ChainIsPath(net, w1, v, envs1, actions[1..], s', envs');
      PathExtends(net, rest, w1);
      run := [w] + rest;
    }
  }

  lemma OneStep(net: Network, w: World, v: NodeId, envs: Envelopes, actions: seq<Action>, s': State, envs': Envelopes)
    returns (w1: World, envs1: Envelopes)
    requires v in net.intact && v in net.qset && v in w.state && v in w.said && Received(net, w.said, envs)
    requires actions != [] && BallotProtocol.Chain(v, net.qset[v], w.state[v], envs, actions, s', envs')
    ensures Follows(net, w, w1)
    ensures v in w1.state && v in w1.said && Received(net, w1.said, envs1)
    ensures BallotProtocol.Chain(v, net.qset[v], w1.state[v], envs1, actions[1..], s', envs')
    ensures forall z | z != v :: (z in w1.state <==> z in w.state) && (z in w.state ==> w1.state[z] == w.state[z])
  {
    hide Enabled, Apply;
    var q := net.qset[v];
    var s1 :| Steps(q, w.state[v], envs, actions[0], s1)
           && BallotProtocol.Chain(v, q, s1, envs[v := Statement(v, q, PledgesOf(s1))], actions[1..], s', envs');
    var st := Statement(v, q, PledgesOf(s1));
    w1 := World(w.state[v := s1], Say(w.said, v, st));
    envs1 := envs[v := st];
    assert Next(net, w, v, envs, actions[0], w1);
  }

  /**
   Two nodes that each advanced on their messages, one after the other, from any
   world of a run, agree on what they externalise.
   */
  lemma NodesAgree(net: Network, run: seq<World>, more: seq<World>, z1: NodeId, z2: NodeId)
    requires net.Sound() && IsRun(net, run) && Path(net, more) && more[0] == run[|run| - 1]
    requires z1 in net.intact && z2 in net.intact
    requires var end := more[|more| - 1];
             && z1 in end.state && z2 in end.state
             && end.state[z1].phase == EXTERNALIZE && end.state[z2].phase == EXTERNALIZE
    ensures var end := more[|more| - 1];
            && end.state[z1].c.Some? && end.state[z2].c.Some?
            && end.state[z1].c.get.value == end.state[z2].c.get.value
  {
    hide Follows, Starts;
    var whole := run + more[1..];
    forall i | 0 < i < |whole| ensures Follows(net, whole[i - 1], whole[i]) {
      if i >= |run| {
        assert whole[i] == more[i - |run| + 1] && whole[i - 1] == more[i - |run|];
      }
    }
    assert IsRun(net, whole);
    assert whole[|whole| - 1] == more[|more| - 1];
    Agree(net, whole, |whole| - 1, |whole| - 1, z1, z2);
  }
}
