/**
 In the CONFIRM phase src/scp/BallotProtocol.cpp takes it for granted that p and c have one value. That holds if
 and only if p had the value of the commit when it was accepted.
 */
module BallotStray {
  import opened QuorumSets
  import opened Quorums
  import opened Ballots
  import opened BallotCandidates
  import opened BallotMeaning
  import BallotChecks
  import BallotProtocol

  lemma FitsExactly(q: QSet, s: State, envs: Envelopes, action: Action, s': State)
    requires s == INITIAL || CanSpeak(s)
    requires Steps(q, s, envs, action, s') && s'.phase == CONFIRM
    ensures PreparedFits(s') <==> if s.phase == PREPARE then action.AcceptCommit? && OfValue(action.low, s.p) else PreparedFits(s)
  {
    hide PreparedAcceptable, Ratified, CommitAcceptable, CommitRatified;
  }

  /** However long the node stays in the phase. */
  lemma {:induction false} FitsForGood(id: NodeId, q: QSet, s: State, envs: Envelopes, actions: seq<Action>,
                                       s': State, envs': Envelopes)
    requires s.phase == CONFIRM && CanSpeak(s) && s'.phase == CONFIRM
    requires BallotProtocol.Chain(id, q, s, envs, actions, s', envs')
    ensures PreparedFits(s') <==> PreparedFits(s)
    decreases |actions|
  {
    hide Enabled, Apply, PreparedFits, CanSpeak, PledgesOf;
    if actions != [] {
      var s1 :| Steps(q, s, envs, actions[0], s1)
             && BallotProtocol.Chain(id, q, s1, envs[id := Statement(id, q, PledgesOf(s1))], actions[1..], s', envs');
      NeverBack(q, s, envs, actions[0], s1);
      if s1.phase == CONFIRM {
        FitsExactly(q, s, envs, actions[0], s1);
        FitsForGood(id, q, s1, envs[id := Statement(id, q, PledgesOf(s1))], actions[1..], s', envs');
      } else {
        Over(id, q, s1, envs[id := Statement(id, q, PledgesOf(s1))], actions[1..], s', envs');
      }
    }
  }

  lemma NeverBack(q: QSet, s: State, envs: Envelopes, action: Action, s': State)
    requires s.phase == CONFIRM && Steps(q, s, envs, action, s')
    ensures s'.phase != PREPARE
  {
    hide PreparedAcceptable, Ratified, CommitAcceptable, CommitRatified;
  }

  lemma Over(id: NodeId, q: QSet, s: State, envs: Envelopes, actions: seq<Action>, s': State, envs': Envelopes)
    requires s.phase == EXTERNALIZE && BallotProtocol.Chain(id, q, s, envs, actions, s', envs')
    ensures s' == s
  {
    hide PreparedAcceptable, Ratified, CommitAcceptable, CommitRatified, CanSpeak, PledgesOf;
  }

  // --- a commit accepted while p has another value -------------------------------------------

  const PAIR := QSet(2, [8, 9], [])

  /** What node 9 says first, and what it says later. */
  const EARLY := Statement(9, BallotChecks.Alone(9), Prepare(Ballot(1, 5), Some(Ballot(1, 5)), None, 0, 0))
  const LATE := Statement(9, BallotChecks.Alone(9), Confirm(Ballot(2, 3), 1, 2, 2))

  /** What node 8 knows: its own statement and one of node 9. */
  function Known(s: State, other: Statement): Envelopes
    requires CanSpeak(s)
  {
    map[8 := Statement(8, PAIR, PledgesOf(s)), 9 := other]
  }

  lemma PairCounts(u: set<NodeId>)
    ensures Slice(PAIR, u) <==> 8 in u && 9 in u
    ensures VBlocking(PAIR, u) <==> 8 in u || 9 in u
    ensures Slice(BallotChecks.Alone(9), u) <==> 9 in u
  {
    assert [8, 9][..1] == [8] && [8][..0] == [] && [9][..0] == [];
    assert Count([8], u) == (if 8 in u then 1 else 0);
    assert Count([9], u) == (if 9 in u then 1 else 0);
  }

  /** Node 9 alone makes node 8 accept. */
  lemma NineBlocks(envs: Envelopes, filter: Statement -> bool)
    requires 9 in envs && filter(envs[9])
    ensures VBlocking(PAIR, Claiming(envs, filter))
  {
    hide VBlocking;
    PairCounts(Claiming(envs, filter));
  }

  lemma BothRatify(s: State, filter: Statement -> bool)
    requires CanSpeak(s) && filter(Known(s, LATE)[8]) && filter(LATE) && s.phase == PREPARE
    ensures HasQuorum(PAIR, Known(s, LATE), QuorumSetOf, filter)
  {
    hide Slice, VBlocking;
    var u: set<NodeId> := {8, 9};
    PairCounts(u);
    assert IsQuorumIn(u, PAIR, Known(s, LATE), QuorumSetOf, filter);
  }

  /** The highest candidate has the vote of node 9 only. */
  lemma HighestFails(s: State)
    requires CanSpeak(s) && s.phase == PREPARE && s.b == Some(Ballot(1, 5)) == s.p && s.pp.None?
    ensures !PreparedAcceptable(PAIR, Known(s, LATE), Ballot(LAST_COUNTER, 3))
  {
    hide Slice, VBlocking;
    var x, envs := Ballot(LAST_COUNTER, 3), Known(s, LATE);
    PairCounts(Claiming(envs, st => HasPreparedBallot(x, st)));
    assert !HasPreparedBallot(x, envs[8]) && !VotesPrepared(x, envs[8]) && !HasPreparedBallot(x, envs[9]);
    if PreparedAcceptable(PAIR, envs, x) {
      var u :| IsQuorumIn(u, PAIR, envs, QuorumSetOf, st => HasPreparedBallot(x, st) || VotesPrepared(x, st));
      PairCounts(u);
      QuorumMembers(u, PAIR, envs, QuorumSetOf, st => HasPreparedBallot(x, st) || VotesPrepared(x, st));
    }
  }

  /**
   A node with p = (1, 5) hears that a node it depends on has committed (2, 3) and prepared (1, 3). The best it can
   accept as prepared is (1, 3), which is below p; then it accepts the commit, and p and c have different values.
   */
  lemma StrayPrepared()
    ensures var s1 := State(PREPARE, Some(Ballot(1, 5)), None, None, None, None);
            var s2 := s1.(p := Some(Ballot(1, 5)));
            var s3 := s2.(pp := Some(Ballot(1, 3)));
            var s4 := s3.(h := Some(Ballot(1, 3)));
            var s5 := State(CONFIRM, Some(Ballot(2, 3)), Some(Ballot(1, 5)), None, Some(Ballot(2, 3)), Some(Ballot(2, 3)));
            && Steps(PAIR, INITIAL, map[9 := EARLY], Bump(Ballot(1, 5)), s1)
            && Steps(PAIR, s1, Known(s1, EARLY), AcceptPrepared(Ballot(1, 5)), s2)
            && !PreparedAcceptable(PAIR, Known(s2, LATE), Ballot(LAST_COUNTER, 3))
            && Steps(PAIR, s2, Known(s2, LATE), AcceptPrepared(Ballot(1, 3)), s3)
            && Steps(PAIR, s3, Known(s3, LATE), ConfirmPrepared(NO_BALLOT, Ballot(1, 3)), s4)
            && Steps(PAIR, s4, Known(s4, LATE), AcceptCommit(Ballot(2, 3), Ballot(2, 3)), s5)
            && !PreparedFits(s5)
  {
    hide HasQuorum, VBlocking;
    var s1 := State(PREPARE, Some(Ballot(1, 5)), None, None, None, None);
    var s2 := s1.(p := Some(Ballot(1, 5)));
    var s3 := s2.(pp := Some(Ballot(1, 3)));
    var s4 := s3.(h := Some(Ballot(1, 3)));
    NineBlocks(Known(s1, EARLY), st => HasPreparedBallot(Ballot(1, 5), st));
    HighestFails(s2);
    NineBlocks(Known(s2, LATE), st => HasPreparedBallot(Ballot(1, 3), st));
    BothRatify(s3, st => HasPreparedBallot(Ballot(1, 3), st));
    NineBlocks(Known(s4, LATE), st => CommitPredicate(3, Interval(2, 2), st));
  }
}
