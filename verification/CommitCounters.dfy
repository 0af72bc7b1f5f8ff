/**
 Counter 0 stands for "no interval" in findExtendedInterval of
 src/scp/BallotProtocol.cpp. No well-behaved node says that it committed a ballot with
 counter 0, so in a sound network the search for an interval never runs into it.
 */
module CommitCounters {
  import opened QuorumSets
  import opened Quorums
  import opened Ballots
  import opened Agreement
  import opened BallotCandidates

  predicate Positive(p: Pledges) {
    match p
    case Prepare(_, _, _, _, _) => true
    case Confirm(_, _, nCommit, _) => nCommit > 0
    case Externalize(commit, _) => commit.counter > 0
  }

  predicate PositiveState(s: State) {
    s.c.Some? ==> s.c.get.counter > 0
  }

  ghost predicate SaidPositive(net: Network, t: Talk) {
    net.intact <= t.Keys && forall z, st | z in net.intact && st in t[z] :: Positive(st.pledges)
  }

  ghost predicate AllPositive(net: Network, w: World) {
    && net.intact <= w.state.Keys && (forall z | z in net.intact :: PositiveState(w.state[z]))
    && SaidPositive(net, w.said)
  }

  lemma StepPositive(q: QSet, s: State, envs: Envelopes, action: Action, s': State)
    requires Steps(q, s, envs, action, s') && PositiveState(s)
    ensures PositiveState(s') && CanSpeak(s') && Positive(PledgesOf(s'))
  {
    hide Ratified, CommitRatified, PreparedAcceptable, CommitAcceptable;
  }

  lemma NextPositive(net: Network, w: World, v: NodeId, envs: Envelopes, action: Action, w': World)
    requires Next(net, w, v, envs, action, w') && AllPositive(net, w)
    ensures AllPositive(net, w')
  {
    hide Steps, CanSpeak, PledgesOf, Positive, PositiveState, Received;
    StepPositive(net.qset[v], w.state[v], envs, action, w'.state[v]);
  }

  lemma {:induction false} RunPositive(net: Network, run: seq<World>, i: nat)
    requires IsRun(net, run) && i < |run|
    ensures AllPositive(net, run[i])
  {
    hide Next;
    if i > 0 {
      RunPositive(net, run, i - 1);
      assert Follows(net, run[i - 1], run[i]);
      var v: NodeId, envs: Envelopes, action: Action :| Next(net, run[i - 1], v, envs, action, run[i]);
      NextPositive(net, run[i - 1], v, envs, action, run[i]);
    }
  }

  /** Only a statement that names counter 0 speaks for an interval from 0. */
  lemma SpeaksForZero(value: Value, top: Uint32, st: Statement)
    requires VotesCommit(value, Interval(0, top), st) || CommitPredicate(value, Interval(0, top), st)
    ensures !Positive(st.pledges)
  {
  }

  /** No intact node speaks for an interval from 0. */
  lemma SilentOnZero(net: Network, t: Talk, envs: Envelopes, z: NodeId, value: Value, cur: Interval)
    requires SaidPositive(net, t) && Received(net, t, envs) && cur.first == 0 && z in net.intact && z in envs
    ensures !VotesCommit(value, cur, envs[z]) && !CommitPredicate(value, cur, envs[z])
  {
    hide VotesCommit, CommitPredicate, Positive;
    assert envs[z] in t[z];
    if VotesCommit(value, cur, envs[z]) || CommitPredicate(value, cur, envs[z]) {
      SpeaksForZero(value, cur.second, envs[z]);
    }
  }

  lemma ZeroNotRatified(net: Network, t: Talk, v: NodeId, envs: Envelopes, value: Value, cur: Interval)
    requires net.Sound() && v in net.intact && SaidPositive(net, t) && Received(net, t, envs) && cur.first == 0
    ensures !CommitRatified(net.qset[v], envs, value, cur)
  {
    hide Slice, CommitPredicate, SaidPositive, Received, VBlocking, InRange;
    var q := net.qset[v];
    if CommitRatified(q, envs, value, cur) {
      var u :| IsQuorumIn(u, q, envs, QuorumSetOf, st => CommitPredicate(value, cur, st));
      QuorumMembers(u, q, envs, QuorumSetOf, st => CommitPredicate(value, cur, st));
      SliceHasIntact(net, v, u);
      var z :| z in u * net.intact;
      SilentOnZero(net, t, envs, z, value, cur);
    }
  }

  lemma ZeroNotAcceptable(net: Network, t: Talk, v: NodeId, envs: Envelopes, value: Value, cur: Interval)
    requires net.Sound() && v in net.intact && SaidPositive(net, t) && Received(net, t, envs) && cur.first == 0
    ensures !CommitAcceptable(net.qset[v], envs, value, cur)
  {
    hide Slice, VBlocking, CommitPredicate, VotesCommit, SaidPositive, Received, InRange;
    var q := net.qset[v];
    if VBlocking(q, Claiming(envs, st => CommitPredicate(value, cur, st))) {
      BlockedByIntact(net, v, Claiming(envs, st => CommitPredicate(value, cur, st)));
      var z :| z in Claiming(envs, st => CommitPredicate(value, cur, st)) * net.intact;
      SilentOnZero(net, t, envs, z, value, cur);
    } else if CommitAcceptable(q, envs, value, cur) {
      var u :| IsQuorumIn(u, q, envs, QuorumSetOf, st => CommitPredicate(value, cur, st) || VotesCommit(value, cur, st));
      QuorumMembers(u, q, envs, QuorumSetOf, st => CommitPredicate(value, cur, st) || VotesCommit(value, cur, st));
      SliceHasIntact(net, v, u);
      var z :| z in u * net.intact;
      SilentOnZero(net, t, envs, z, value, cur);
    }
  }

  lemma ZeroNotCommittable(net: Network, t: Talk, v: NodeId, envs: Envelopes, confirm: bool, value: Value, top: Uint32)
    requires net.Sound() && v in net.intact && SaidPositive(net, t) && Received(net, t, envs)
    ensures !Committable(net.qset[v], envs, confirm, value, Interval(0, top))
  {
    hide CommitAcceptable, CommitRatified, SaidPositive, Received;
    ZeroNotAcceptable(net, t, v, envs, value, Interval(0, top));
    ZeroNotRatified(net, t, v, envs, value, Interval(0, top));
  }

  /** On what an intact node receives in a run, no interval from counter 0 can be committed. */
  lemma NeverReachesZero(net: Network, run: seq<World>, i: nat, v: NodeId, envs: Envelopes, confirm: bool, value: Value)
    requires net.Sound() && IsRun(net, run) && i < |run| && v in net.intact && Received(net, run[i].said, envs)
    ensures !ReachesZero(net.qset[v], envs, confirm, value)
  {
    hide Committable, IsRun, Received;
    RunPositive(net, run, i);
    forall top: Uint32 ensures !Committable(net.qset[v], envs, confirm, value, Interval(0, top)) {
      ZeroNotCommittable(net, run[i].said, v, envs, confirm, value, top);
    }
  }
}
