/**
 Agreement of the ballot protocol: over every run, whatever the ill-behaved nodes
 send and however messages are delayed, lost or reordered, intact nodes never
 externalise different values.
 */
module Agreement {
  import opened QuorumSets
  import opened Quorums
  import opened Ballots
  import opened BallotDiscipline

  /** The nodes that follow the protocol and are not befouled, and the quorum sets in use. */
  datatype Network = Network(intact: set<NodeId>, qset: map<NodeId, QSet>)
  {
    /** Intact nodes, and a slice for each of them, inside u. */
    predicate Closed(u: set<NodeId>) {
      u * intact != {} && forall z | z in u * intact :: z in qset && Slice(qset[z], u)
    }

    /**
     Quorum availability and quorum intersection despite the other nodes: the
     other nodes neither block an intact node nor form one of its slices, and
     quorums of intact nodes share an intact node.
     */
    ghost predicate Sound() {
      && intact <= qset.Keys
      && (forall v | v in intact :: InRange(qset[v]) && Slice(qset[v], intact) && VBlocking(qset[v], intact))
      && (forall u1, u2 | Closed(u1) && Closed(u2) :: u1 * u2 * intact != {})
    }
  }

  /** Everything each intact node ever said. */
  type Talk = map<NodeId, set<Statement>>

  // --- what has been said -----------------------------------------------------------

  /** The statement accepts that c is committed. */
  predicate AcceptsCommitOf(st: Statement, c: Ballot) {
    match st.pledges
    case Prepare(_, _, _, _, _) => false
    case Confirm(b, _, nCommit, _) => c == Ballot(nCommit, b.value)
    case Externalize(commit, _) => c == commit
  }

  predicate HasCommitted(sent: set<Statement>, c: Ballot) {
    exists st | st in sent :: AcceptsCommitOf(st, c)
  }

  predicate HasPrepared(sent: set<Statement>, b: Ballot) {
    exists st | st in sent :: HasPreparedBallot(b, st)
  }

  ghost predicate AnyCommit(net: Network, t: Talk, c: Ballot) {
    exists z | z in net.intact && z in t :: HasCommitted(t[z], c)
  }

  ghost predicate AnyAbort(net: Network, t: Talk, a: Ballot) {
    exists z | z in net.intact && z in t :: HasAborted(t[z], a)
  }

  ghost predicate AnyPrepared(net: Network, t: Talk, b: Ballot) {
    exists z | z in net.intact && z in t :: HasPrepared(t[z], b)
  }

  /** All intact members of a quorum wanted c committed. */
  ghost predicate BackedBy(net: Network, t: Talk, c: Ballot, u: set<NodeId>) {
    net.Closed(u) && forall z | z in u * net.intact :: z in t && HasWantedCommit(t[z], c)
  }

  ghost predicate Backed(net: Network, t: Talk, c: Ballot) {
    exists u: set<NodeId> :: BackedBy(net, t, c, u)
  }

  /** The node wanted a aborted and did not want it committed. */
  predicate Barred(sent: set<Statement>, a: Ballot) {
    HasWantedAbort(sent, a) && !HasWantedCommit(sent, a)
  }

  ghost predicate BarredBy(net: Network, t: Talk, a: Ballot, u: set<NodeId>) {
    net.Closed(u) && forall z | z in u * net.intact :: z in t && Barred(t[z], a)
  }

  /** A lower ballot of another value is committed. */
  ghost predicate Outrun(net: Network, t: Talk, a: Ballot) {
    exists c: Ballot :: AnyCommit(net, t, c) && LessAndIncompatible(c, a)
  }

  ghost predicate KeptOut(net: Network, t: Talk, a: Ballot) {
    (exists u: set<NodeId> :: BarredBy(net, t, a, u)) || Outrun(net, t, a)
  }

  /** The commit of c goes back to votes of a quorum for c or a lower committed ballot. */
  ghost predicate Grounded(net: Network, t: Talk, c: Ballot) {
    exists c0: Ballot :: LessAndCompatible(c0, c) && (c0 == c || AnyCommit(net, t, c0)) && Backed(net, t, c0)
  }

  // --- the global invariant ------------------------------------------------------------

  ghost predicate CommitsSurvive(net: Network, t: Talk) {
    forall c: Ballot | AnyCommit(net, t, c) :: !AnyAbort(net, t, c) && Grounded(net, t, c)
  }

  ghost predicate AbortsFounded(net: Network, t: Talk) {
    forall a: Ballot | AnyAbort(net, t, a) :: KeptOut(net, t, a)
  }

  /** Ballots are only wanted committed up to one that an intact node reported prepared. */
  ghost predicate VotesPreparedFirst(net: Network, t: Talk) {
    forall z, st | z in net.intact && z in t && st in t[z] && st.pledges.Prepare? && st.pledges.nC != 0 ::
      AnyPrepared(net, t, Ballot(st.pledges.nH, st.pledges.ballot.value))
  }

  predicate Signed(net: Network, v: NodeId, st: Statement) {
    v in net.intact && v in net.qset && st.node == v && st.qset == net.qset[v]
  }

  /** Statements carry the name and the quorum set of their node. */
  ghost predicate AllSigned(net: Network, t: Talk) {
    forall z, st | z in net.intact && z in t && st in t[z] :: Signed(net, z, st)
  }

  lemma SignedKept(net: Network, t: Talk, v: NodeId, st: Statement)
    requires v in t && AllSigned(net, t) && Signed(net, v, st)
    ensures AllSigned(net, Say(t, v, st))
  {
  }

  function Say(t: Talk, v: NodeId, st: Statement): Talk
    requires v in t
  {
    t[v := t[v] + {st}]
  }

  ghost predicate Consistent(net: Network, t: Talk) {
    && net.intact <= t.Keys
    && AllSigned(net, t)
    && CommitsSurvive(net, t)
    && AbortsFounded(net, t)
    && VotesPreparedFirst(net, t)
  }

  // --- consequences ------------------------------------------------------------------------

  lemma AbortDown(net: Network, t: Talk, c: Ballot, c0: Ballot)
    requires AnyAbort(net, t, c) && LessAndCompatible(c0, c)
    ensures AnyAbort(net, t, c0)
  {
    var z :| z in net.intact && z in t && HasAborted(t[z], c);
    LowerAborted(t[z], c, c0);
  }

  /** Behind a backed ballot stands a prepared one that aborts all lower ballots of other values. */
  lemma BackedAborts(net: Network, t: Talk, c: Ballot, a: Ballot)
    requires VotesPreparedFirst(net, t) && Backed(net, t, c) && LessAndIncompatible(a, c)
    ensures AnyAbort(net, t, a)
  {
    var u :| BackedBy(net, t, c, u);
    var z :| z in u * net.intact;
    var st :| st in t[z] && WantsCommit(st, c);
    var top := Ballot(st.pledges.nH, st.pledges.ballot.value);
    assert AnyPrepared(net, t, top);
    var y :| y in net.intact && y in t && HasPrepared(t[y], top);
    var said :| said in t[y] && HasPreparedBallot(top, said);
    PreparedAborts(top, said, a);
    assert HasAborted(t[y], a);
  }

  /** A ballot that may be committed: nobody aborted it and its commit is founded. */
  ghost predicate MayCommit(net: Network, t: Talk, c: Ballot) {
    !AnyAbort(net, t, c) && Grounded(net, t, c)
  }

  lemma CommittedIsSafe(net: Network, t: Talk)
    requires Consistent(net, t)
    ensures forall c: Ballot | AnyCommit(net, t, c) :: MayCommit(net, t, c)
  {
    hide AnyCommit, AnyAbort, Grounded, VotesPreparedFirst, AbortsFounded;
  }

  /** Whatever may be committed has the value of everything committed so far. */
  lemma CommitsAgree(net: Network, t: Talk, c: Ballot, d: Ballot)
    requires Consistent(net, t) && MayCommit(net, t, c) && AnyCommit(net, t, d)
    ensures c.value == d.value
  {
    hide AnyCommit, AnyAbort, Backed, VotesPreparedFirst, AbortsFounded, CommitsSurvive;
    CommittedIsSafe(net, t);
    var c0 :| LessAndCompatible(c0, c) && (c0 == c || AnyCommit(net, t, c0)) && Backed(net, t, c0);
    assert MayCommit(net, t, d);
    var d0 :| LessAndCompatible(d0, d) && (d0 == d || AnyCommit(net, t, d0)) && Backed(net, t, d0);
    assert AnyCommit(net, t, d0) && MayCommit(net, t, d0);
    assert c0 == c || MayCommit(net, t, c0);
    if c.value != d.value {
      if AtMost(c0, d0) {
        BackedAborts(net, t, d0, c0);
      } else {
        BackedAborts(net, t, c0, d0);
      }
    }
  }

  /** Once c may be committed, ballots of other values are kept out for good. */
  lemma OthersKeptOut(net: Network, t: Talk, c: Ballot, a: Ballot)
    requires Consistent(net, t) && MayCommit(net, t, c) && a.value != c.value
    ensures KeptOut(net, t, a) || exists c0: Ballot :: (c0 == c || AnyCommit(net, t, c0)) && LessAndIncompatible(c0, a)
  {
    hide AnyCommit, AnyAbort, Backed, VotesPreparedFirst, KeptOut, AbortsFounded, CommitsSurvive;
    var c0 :| LessAndCompatible(c0, c) && (c0 == c || AnyCommit(net, t, c0)) && Backed(net, t, c0);
    if AtMost(c0, a) {
      assert LessAndIncompatible(c0, a);
    } else {
      BackedAborts(net, t, c0, a);
      AbortIsFounded(net, t, a);
    }
  }

  /** A ballot above a committed one of the same value may be committed. */
  lemma MayCommitAbove(net: Network, t: Talk, c1: Ballot, c: Ballot)
    requires Consistent(net, t) && AnyCommit(net, t, c1) && LessAndCompatible(c1, c)
    ensures MayCommit(net, t, c)
  {
    hide AnyCommit, AnyAbort, Backed, VotesPreparedFirst, AbortsFounded;
    assert Grounded(net, t, c1);
    var c0 :| LessAndCompatible(c0, c1) && (c0 == c1 || AnyCommit(net, t, c0)) && Backed(net, t, c0);
    if AnyAbort(net, t, c) {
      AbortDown(net, t, c, c1);
    }
    assert LessAndCompatible(c0, c) && AnyCommit(net, t, c0);
  }

  // --- what intact nodes conclude from what they receive ----------------------------------

  /** Received statements of intact nodes are statements those nodes made. */
  predicate Received(net: Network, t: Talk, envs: Envelopes) {
    forall z | z in envs :: envs[z].node == z && (z in net.intact && z in t ==> envs[z] in t[z])
  }

  lemma BlockedByIntact(net: Network, v: NodeId, s: set<NodeId>)
    requires net.Sound() && v in net.intact && VBlocking(net.qset[v], s)
    ensures s * net.intact != {}
  {
    hide VBlocking, Slice, InRange;
    BlockingMeetsEverySlice(net.qset[v], s);
    assert net.intact * s == s * net.intact;
  }

  lemma SliceHasIntact(net: Network, v: NodeId, u: set<NodeId>)
    requires net.Sound() && v in net.intact && Slice(net.qset[v], u)
    ensures u * net.intact != {}
  {
    hide VBlocking, Slice, InRange;
    BlockingMeetsEverySlice(net.qset[v], net.intact);
  }

  /** A quorum whose intact members have not externalised is a quorum of the network. */
  lemma QuorumCloses(net: Network, t: Talk, v: NodeId, envs: Envelopes, u: set<NodeId>)
    requires net.Sound() && Consistent(net, t) && v in net.intact && Received(net, t, envs)
    requires SelfSufficient(u, envs, QuorumSetOf) && Slice(net.qset[v], u)
    requires forall z | z in u * net.intact :: !envs[z].pledges.Externalize?
    ensures net.Closed(u)
  {
    hide Slice, InRange, VBlocking, CommitsSurvive, AbortsFounded, VotesPreparedFirst;
    SliceHasIntact(net, v, u);
    forall z | z in u * net.intact ensures z in net.qset && Slice(net.qset[z], u) {
      assert envs[z] in t[z];
    }
  }

  lemma CommitKnown(net: Network, t: Talk, z: NodeId, st: Statement, c: Ballot)
    requires z in net.intact && z in t && st in t[z] && AcceptsCommitOf(st, c)
    ensures AnyCommit(net, t, c)
  {
    assert HasCommitted(t[z], c);
  }

  /** A statement that accepts an interval, or votes for it after PREPARE, has committed its start. */
  lemma CommitClaim(net: Network, t: Talk, z: NodeId, st: Statement, value: Value, cur: Interval)
    requires Consistent(net, t) && z in net.intact && st in t[z]
    requires CommitPredicate(value, cur, st) || (VotesCommit(value, cur, st) && !st.pledges.Prepare?)
    ensures MayCommit(net, t, Ballot(cur.first, value))
  {
    hide CommitsSurvive, AbortsFounded, VotesPreparedFirst, MayCommit;
    var c1 := if st.pledges.Confirm? then Ballot(st.pledges.nCommit, st.pledges.ballot.value) else st.pledges.commit;
    CommitKnown(net, t, z, st, c1);
    MayCommitAbove(net, t, c1, Ballot(cur.first, value));
  }

  /** What federated voting accepts as committed may be committed. */
  lemma CommitJustified(net: Network, t: Talk, v: NodeId, envs: Envelopes, value: Value, cur: Interval)
    requires net.Sound() && Consistent(net, t) && v in net.intact && Received(net, t, envs)
    requires cur.first <= cur.second && CommitAcceptable(net.qset[v], envs, value, cur)
    ensures MayCommit(net, t, Ballot(cur.first, value))
  {
    hide Slice, VBlocking, InRange, CommitsSurvive, AbortsFounded, VotesPreparedFirst, MayCommit,
      CommitPredicate, VotesCommit;
    var q := net.qset[v];
    if VBlocking(q, Claiming(envs, st => CommitPredicate(value, cur, st))) {
      BlockedByIntact(net, v, Claiming(envs, st => CommitPredicate(value, cur, st)));
      var z :| z in Claiming(envs, st => CommitPredicate(value, cur, st)) * net.intact;
      assert envs[z] in t[z];
      CommitClaim(net, t, z, envs[z], value, cur);
    } else {
      var u :| IsQuorumIn(u, q, envs, QuorumSetOf, st => CommitPredicate(value, cur, st) || VotesCommit(value, cur, st));
      QuorumMembers(u, q, envs, QuorumSetOf, st => CommitPredicate(value, cur, st) || VotesCommit(value, cur, st));
      if z :| z in u * net.intact && !envs[z].pledges.Prepare? {
        assert envs[z] in t[z];
        CommitClaim(net, t, z, envs[z], value, cur);
      } else {
        QuorumCloses(net, t, v, envs, u);
        CommitByVotes(net, t, envs, u, value, cur);
      }
    }
  }

  /** All intact members of the quorum vote in the PREPARE phase: nobody can have aborted. */
  lemma CommitByVotes(net: Network, t: Talk, envs: Envelopes, u: set<NodeId>, value: Value, cur: Interval)
    requires net.Sound() && Consistent(net, t) && Received(net, t, envs) && net.Closed(u) && cur.first <= cur.second
    requires forall z | z in u :: z in envs && (CommitPredicate(value, cur, envs[z]) || VotesCommit(value, cur, envs[z]))
    requires forall z | z in u * net.intact :: envs[z].pledges.Prepare?
    ensures MayCommit(net, t, Ballot(cur.first, value))
  {
    hide Slice, VBlocking, InRange, VotesPreparedFirst;
    var c := Ballot(cur.first, value);
    forall z | z in u * net.intact ensures z in t && HasWantedCommit(t[z], c) {
      assert envs[z] in t[z] && WantsCommit(envs[z], c);
    }
    assert BackedBy(net, t, c, u);
    assert Backed(net, t, c);
    assert LessAndCompatible(c, c);
    assert Grounded(net, t, c);
    NotBoth(net, t, c);
  }

  /** A ballot that a quorum wants committed is not aborted. */
  lemma NotBoth(net: Network, t: Talk, c: Ballot)
    requires net.Sound() && Consistent(net, t) && Backed(net, t, c)
    ensures !AnyAbort(net, t, c)
  {
    hide Slice, VBlocking, InRange, Grounded, AnyAbort, AnyCommit, Backed, BarredBy;
    if AnyAbort(net, t, c) {
      assert KeptOut(net, t, c);
      if u: set<NodeId> :| BarredBy(net, t, c, u) {
        NotBarred(net, t, c, u);
      } else {
        var d :| AnyCommit(net, t, d) && LessAndIncompatible(d, c);
        BackedAborts(net, t, c, d);
      }
    }
  }

  lemma NotBarred(net: Network, t: Talk, c: Ballot, u: set<NodeId>)
    requires net.Sound() && Backed(net, t, c)
    ensures !BarredBy(net, t, c, u)
  {
    hide Slice, VBlocking, InRange, HasWantedCommit, HasWantedAbort;
    var u1 :| BackedBy(net, t, c, u1);
    assert net.Closed(u) ==> u1 * u * net.intact != {};
  }

  ghost predicate AllDisciplined(net: Network, t: Talk) {
    forall z | z in net.intact && z in t :: NoContradiction(t[z])
  }

  lemma AbortKnown(net: Network, t: Talk, z: NodeId, st: Statement, ballot: Ballot, a: Ballot)
    requires Consistent(net, t) && z in net.intact && st in t[z]
    requires HasPreparedBallot(ballot, st) && LessAndIncompatible(a, ballot)
    ensures AnyAbort(net, t, a) && KeptOut(net, t, a) && !AnyCommit(net, t, a)
  {
    hide KeptOut, Grounded, VotesPreparedFirst, HasPreparedBallot, LessAndIncompatible;
    PreparedAborts(ballot, st, a);
    assert HasAborted(t[z], a);
  }

  /** A node past the PREPARE phase votes for its value only. */
  lemma AbortByConfirm(net: Network, t: Talk, z: NodeId, st: Statement, ballot: Ballot, a: Ballot)
    requires Consistent(net, t) && z in net.intact && st in t[z] && st.pledges.Confirm?
    requires VotesPrepared(ballot, st) && LessAndIncompatible(a, ballot)
    ensures KeptOut(net, t, a) && !AnyCommit(net, t, a)
  {
    hide AnyAbort, Grounded, VotesPreparedFirst, CommitsSurvive, AbortsFounded, MayCommit, AnyCommit;
    var c := Ballot(st.pledges.nCommit, st.pledges.ballot.value);
    CommitKnown(net, t, z, st, c);
    CommittedIsSafe(net, t);
    OthersKeptOut(net, t, c, a);
    if AnyCommit(net, t, a) {
      CommitsAgree(net, t, c, a);
    }
  }

  /** All intact members of the quorum vote in the PREPARE phase: nobody can have committed. */
  lemma AbortByVotes(net: Network, t: Talk, envs: Envelopes, u: set<NodeId>, ballot: Ballot, a: Ballot)
    requires net.Sound() && Consistent(net, t) && AllDisciplined(net, t) && Received(net, t, envs) && net.Closed(u)
    requires LessAndIncompatible(a, ballot)
    requires forall z | z in u * net.intact :: z in envs && envs[z].pledges.Prepare? && VotesPrepared(ballot, envs[z])
    ensures KeptOut(net, t, a) && !AnyCommit(net, t, a)
  {
    hide Slice, VBlocking, InRange, VotesPreparedFirst;
    forall z | z in u * net.intact ensures z in t && HasWantedAbort(t[z], a) {
      assert envs[z] in t[z] && WantsAbort(envs[z], a);
    }
    if AnyCommit(net, t, a) {
      CommitMeetsAbort(net, t, envs, u, ballot, a);
    }
    if !AnyAbort(net, t, a) {
      forall z | z in u * net.intact ensures Barred(t[z], a) {
        assert NoContradiction(t[z]);
        assert !HasAborted(t[z], a);
      }
      assert BarredBy(net, t, a, u);
    }
  }

  lemma CommitMeetsAbort(net: Network, t: Talk, envs: Envelopes, u: set<NodeId>, ballot: Ballot, a: Ballot)
    requires net.Sound() && Consistent(net, t) && AllDisciplined(net, t) && Received(net, t, envs) && net.Closed(u)
    requires LessAndIncompatible(a, ballot)
    requires forall z | z in u * net.intact :: z in envs && envs[z].pledges.Prepare? && VotesPrepared(ballot, envs[z])
    ensures !AnyCommit(net, t, a)
  {
    hide Slice, VBlocking, InRange, VotesPreparedFirst, AbortsFounded, AnyCommit, AnyAbort;
    if AnyCommit(net, t, a) {
      CommittedIsSafe(net, t);
      assert Grounded(net, t, a);
      var c0 :| LessAndCompatible(c0, a) && (c0 == a || AnyCommit(net, t, c0)) && Backed(net, t, c0);
      assert MayCommit(net, t, c0);
      BackersDidNotVote(net, t, envs, u, ballot, c0);
    }
  }

  lemma BackersDidNotVote(net: Network, t: Talk, envs: Envelopes, u: set<NodeId>, ballot: Ballot, c0: Ballot)
    requires net.Sound() && net.intact <= t.Keys && AllDisciplined(net, t) && Received(net, t, envs) && net.Closed(u)
    requires LessAndIncompatible(c0, ballot) && Backed(net, t, c0)
    requires forall z | z in u * net.intact :: z in envs && envs[z].pledges.Prepare? && VotesPrepared(ballot, envs[z])
    ensures AnyAbort(net, t, c0)
  {
    hide Slice, VBlocking, InRange;
    var u1 :| BackedBy(net, t, c0, u1);
    assert u1 * u * net.intact != {};
    var z :| z in u1 * u * net.intact;
    assert z in u1 * net.intact && z in u * net.intact;
    assert envs[z] in t[z] && WantsAbort(envs[z], c0);
    assert NoContradiction(t[z]);
  }

  /** What federated voting accepts as aborted is kept out, and nobody committed it. */
  lemma AbortJustified(net: Network, t: Talk, v: NodeId, envs: Envelopes, ballot: Ballot, a: Ballot)
    requires net.Sound() && Consistent(net, t) && AllDisciplined(net, t) && v in net.intact && Received(net, t, envs)
    requires PreparedAcceptable(net.qset[v], envs, ballot) && LessAndIncompatible(a, ballot)
    ensures KeptOut(net, t, a) && !AnyCommit(net, t, a)
  {
    hide Slice, VBlocking, InRange, CommitsSurvive, AbortsFounded, VotesPreparedFirst, KeptOut, AnyCommit,
      HasPreparedBallot, VotesPrepared, LessAndIncompatible, AllDisciplined;
    var q := net.qset[v];
    if VBlocking(q, Claiming(envs, st => HasPreparedBallot(ballot, st))) {
      BlockedByIntact(net, v, Claiming(envs, st => HasPreparedBallot(ballot, st)));
      var z :| z in Claiming(envs, st => HasPreparedBallot(ballot, st)) * net.intact;
      assert envs[z] in t[z];
      AbortKnown(net, t, z, envs[z], ballot, a);
    } else {
      var u :| IsQuorumIn(u, q, envs, QuorumSetOf, st => HasPreparedBallot(ballot, st) || VotesPrepared(ballot, st));
      QuorumMembers(u, q, envs, QuorumSetOf, st => HasPreparedBallot(ballot, st) || VotesPrepared(ballot, st));
      AbortByQuorum(net, t, v, envs, u, ballot, a);
    }
  }

  lemma AbortByQuorum(net: Network, t: Talk, v: NodeId, envs: Envelopes, u: set<NodeId>, ballot: Ballot, a: Ballot)
    requires net.Sound() && Consistent(net, t) && AllDisciplined(net, t) && v in net.intact && Received(net, t, envs)
    requires SelfSufficient(u, envs, QuorumSetOf) && Slice(net.qset[v], u) && LessAndIncompatible(a, ballot)
    requires forall z | z in u :: z in envs && (HasPreparedBallot(ballot, envs[z]) || VotesPrepared(ballot, envs[z]))
    ensures KeptOut(net, t, a) && !AnyCommit(net, t, a)
  {
    hide Slice, VBlocking, InRange, CommitsSurvive, AbortsFounded, VotesPreparedFirst, KeptOut, AnyCommit,
      LessAndIncompatible, AllDisciplined, LessAndCompatible;
    assert forall z | z in u :: envs[z].pledges.Externalize? ==> HasPreparedBallot(ballot, envs[z]);
    if z :| z in u * net.intact && HasPreparedBallot(ballot, envs[z]) {
      assert envs[z] in t[z];
      AbortKnown(net, t, z, envs[z], ballot, a);
    } else if z :| z in u * net.intact && envs[z].pledges.Confirm? {
      assert envs[z] in t[z];
      AbortByConfirm(net, t, z, envs[z], ballot, a);
    } else {
      QuorumCloses(net, t, v, envs, u);
      AbortByVotes(net, t, envs, u, ballot, a);
    }
  }

  /** What is ratified as prepared was reported prepared by an intact node. */
  lemma RatifiedIsPrepared(net: Network, t: Talk, v: NodeId, envs: Envelopes, ballot: Ballot)
    requires net.Sound() && net.intact <= t.Keys && v in net.intact && Received(net, t, envs)
    requires Ratified(net.qset[v], envs, ballot)
    ensures AnyPrepared(net, t, ballot)
  {
    hide Slice, VBlocking, InRange, HasPreparedBallot;
    var u :| IsQuorumIn(u, net.qset[v], envs, QuorumSetOf, st => HasPreparedBallot(ballot, st));
    QuorumMembers(u, net.qset[v], envs, QuorumSetOf, st => HasPreparedBallot(ballot, st));
    SliceHasIntact(net, v, u);
    var z :| z in u * net.intact;
    assert envs[z] in t[z];
  }

  /** What is ratified as committed may be committed. */
  lemma RatifiedMayCommit(net: Network, t: Talk, v: NodeId, envs: Envelopes, value: Value, cur: Interval)
    requires net.Sound() && Consistent(net, t) && v in net.intact && Received(net, t, envs)
    requires CommitRatified(net.qset[v], envs, value, cur)
    ensures MayCommit(net, t, Ballot(cur.first, value))
  {
    hide Slice, VBlocking, InRange, CommitPredicate, MayCommit, CommitsSurvive, AbortsFounded, VotesPreparedFirst;
    var u :| IsQuorumIn(u, net.qset[v], envs, QuorumSetOf, st => CommitPredicate(value, cur, st));
    QuorumMembers(u, net.qset[v], envs, QuorumSetOf, st => CommitPredicate(value, cur, st));
    SliceHasIntact(net, v, u);
    var z :| z in u * net.intact;
    assert envs[z] in t[z];
    CommitClaim(net, t, z, envs[z], value, cur);
  }

  // --- one more statement -------------------------------------------------------------------

  lemma CommitKept(net: Network, t: Talk, v: NodeId, st: Statement, c: Ballot)
    requires v in t && v in net.intact
    ensures AnyCommit(net, Say(t, v, st), c) <==> AnyCommit(net, t, c) || AcceptsCommitOf(st, c)
  {
    hide AcceptsCommitOf;
    var t' := Say(t, v, st);
    if z :| z in net.intact && z in t && HasCommitted(t[z], c) {
      assert t[z] <= t'[z];
      assert HasCommitted(t'[z], c);
    }
    if AcceptsCommitOf(st, c) {
      assert st in t'[v];
      assert HasCommitted(t'[v], c);
    }
    if z :| z in net.intact && z in t' && HasCommitted(t'[z], c) {
      var said :| said in t'[z] && AcceptsCommitOf(said, c);
      assert said in t[z] || said == st;
      assert said in t[z] ==> HasCommitted(t[z], c);
    }
  }

  lemma AbortKept(net: Network, t: Talk, v: NodeId, st: Statement, a: Ballot)
    requires v in t && v in net.intact
    ensures AnyAbort(net, Say(t, v, st), a) <==> AnyAbort(net, t, a) || Aborts(st, a)
  {
    hide Aborts;
    var t' := Say(t, v, st);
    if z :| z in net.intact && z in t && HasAborted(t[z], a) {
      assert t[z] <= t'[z];
      assert HasAborted(t'[z], a);
    }
    if Aborts(st, a) {
      assert st in t'[v];
      assert HasAborted(t'[v], a);
    }
    if z :| z in net.intact && z in t' && HasAborted(t'[z], a) {
      var said :| said in t'[z] && Aborts(said, a);
      assert said in t[z] || said == st;
      assert said in t[z] ==> HasAborted(t[z], a);
    }
  }

  lemma PreparedKept(net: Network, t: Talk, v: NodeId, st: Statement, b: Ballot)
    requires v in t && v in net.intact
    ensures AnyPrepared(net, t, b) ==> AnyPrepared(net, Say(t, v, st), b)
  {
    hide HasPreparedBallot;
    var t' := Say(t, v, st);
    if z :| z in net.intact && z in t && HasPrepared(t[z], b) {
      assert t[z] <= t'[z];
      assert HasPrepared(t'[z], b);
    }
  }

  lemma BackedKept(net: Network, t: Talk, v: NodeId, st: Statement, c: Ballot)
    requires v in t && Backed(net, t, c)
    ensures Backed(net, Say(t, v, st), c)
  {
    hide Slice, WantsCommit;
    var t' := Say(t, v, st);
    var u :| BackedBy(net, t, c, u);
    forall z | z in u * net.intact ensures z in t' && HasWantedCommit(t'[z], c) {
      assert t[z] <= t'[z];
      var said :| said in t[z] && WantsCommit(said, c);
      assert said in t'[z];
    }
    assert BackedBy(net, t', c, u);
  }

  lemma GroundedKept(net: Network, t: Talk, v: NodeId, st: Statement, c: Ballot)
    requires v in t && v in net.intact && Grounded(net, t, c)
    ensures Grounded(net, Say(t, v, st), c)
  {
    hide AnyCommit, Backed;
    var c0 :| LessAndCompatible(c0, c) && (c0 == c || AnyCommit(net, t, c0)) && Backed(net, t, c0);
    CommitKept(net, t, v, st, c0);
    BackedKept(net, t, v, st, c0);
  }

  /** The new statement does not want committed what its node wanted aborted only. */
  ghost predicate StaysBarred(sent: set<Statement>, st: Statement) {
    forall a: Ballot | Barred(sent, a) :: !WantsCommit(st, a)
  }

  lemma BarredKept(net: Network, t: Talk, v: NodeId, st: Statement, a: Ballot, u: set<NodeId>)
    requires v in t && StaysBarred(t[v], st) && BarredBy(net, t, a, u)
    ensures BarredBy(net, Say(t, v, st), a, u)
  {
    hide Slice, WantsCommit, WantsAbort;
    var t' := Say(t, v, st);
    forall z | z in u * net.intact ensures z in t' && Barred(t'[z], a) {
      assert Barred(t[z], a);
      var said :| said in t[z] && WantsAbort(said, a);
      assert said in t'[z];
      assert forall new' | new' in t'[z] :: new' in t[z] || (z == v && new' == st);
    }
  }

  lemma KeptOutKept(net: Network, t: Talk, v: NodeId, st: Statement, a: Ballot)
    requires v in t && v in net.intact && StaysBarred(t[v], st) && KeptOut(net, t, a)
    ensures KeptOut(net, Say(t, v, st), a)
  {
    hide AnyCommit, StaysBarred, BarredBy;
    if u: set<NodeId> :| BarredBy(net, t, a, u) {
      BarredKept(net, t, v, st, a, u);
    } else {
      var c :| AnyCommit(net, t, c) && LessAndIncompatible(c, a);
      CommitKept(net, t, v, st, c);
      assert Outrun(net, Say(t, v, st), a);
    }
  }

  lemma VotesKept(net: Network, t: Talk, v: NodeId, st: Statement)
    requires v in t && v in net.intact && VotesPreparedFirst(net, t)
    requires st.pledges.Prepare? && st.pledges.nC != 0
      ==> AnyPrepared(net, Say(t, v, st), Ballot(st.pledges.nH, st.pledges.ballot.value))
    ensures VotesPreparedFirst(net, Say(t, v, st))
  {
    hide AnyPrepared;
    var t' := Say(t, v, st);
    forall z: NodeId, said: Statement
      | z in net.intact && z in t' && said in t'[z] && said.pledges.Prepare? && said.pledges.nC != 0
      ensures AnyPrepared(net, t', Ballot(said.pledges.nH, said.pledges.ballot.value))
    {
      if said in t[z] {
        PreparedKept(net, t, v, st, Ballot(said.pledges.nH, said.pledges.ballot.value));
      }
    }
  }

  /** A statement of the PREPARE phase that aborts only what is kept out keeps the invariant. */
  lemma SayPrepare(net: Network, t: Talk, v: NodeId, st: Statement)
    requires Consistent(net, t) && Signed(net, v, st) && StaysBarred(t[v], st) && st.pledges.Prepare?
    requires forall a: Ballot | Aborts(st, a) && !AnyAbort(net, t, a) :: KeptOut(net, t, a) && !AnyCommit(net, t, a)
    requires st.pledges.nC != 0 ==> AnyPrepared(net, Say(t, v, st), Ballot(st.pledges.nH, st.pledges.ballot.value))
    ensures Consistent(net, Say(t, v, st))
  {
    hide AnyCommit, AnyAbort, AnyPrepared, Grounded, KeptOut, StaysBarred, Aborts, VotesPreparedFirst,
      CommitsSurvive, AbortsFounded, AllSigned;
    var t' := Say(t, v, st);
    SignedKept(net, t, v, st);
    VotesKept(net, t, v, st);
    CommittedIsSafe(net, t);
    forall c: Ballot | AnyCommit(net, t', c) ensures !AnyAbort(net, t', c) && Grounded(net, t', c) {
      CommitKept(net, t, v, st, c);
      AbortKept(net, t, v, st, c);
      assert MayCommit(net, t, c);
      GroundedKept(net, t, v, st, c);
    }
    CommitsSurviveAll(net, t');
    forall a: Ballot | AnyAbort(net, t', a) ensures KeptOut(net, t', a) {
      AbortKept(net, t, v, st, a);
      AbortIsFounded(net, t, a);
      KeptOutKept(net, t, v, st, a);
    }
    AbortsFoundedAll(net, t');
  }

  /** A statement of the later phases about a ballot that may be committed keeps the invariant. */
  lemma SayCommit(net: Network, t: Talk, v: NodeId, st: Statement, c: Ballot)
    requires Consistent(net, t) && Signed(net, v, st) && !st.pledges.Prepare?
    requires AcceptsCommitOf(st, c) && MayCommit(net, t, c)
    ensures Consistent(net, Say(t, v, st))
  {
    hide AnyCommit, AnyAbort, Grounded, KeptOut, AbortsFounded, CommitsSurvive, VotesPreparedFirst, AllSigned;
    var t' := Say(t, v, st);
    assert StaysBarred(t[v], st);
    SignedKept(net, t, v, st);
    VotesKept(net, t, v, st);
    assert CommitsSurvive(net, t') by {
      forall d: Ballot | AnyCommit(net, t', d) ensures !AnyAbort(net, t', d) && Grounded(net, t', d) {
        CommitStillSafe(net, t, v, st, c, d);
      }
      CommitsSurviveAll(net, t');
    }
    assert AbortsFounded(net, t') by {
      forall a: Ballot | AnyAbort(net, t', a) ensures KeptOut(net, t', a) {
        AbortStillFounded(net, t, v, st, c, a);
      }
      AbortsFoundedAll(net, t');
    }
  }

  lemma CommitsSurviveAll(net: Network, t: Talk)
    requires forall d: Ballot | AnyCommit(net, t, d) :: !AnyAbort(net, t, d) && Grounded(net, t, d)
    ensures CommitsSurvive(net, t)
  {
  }

  lemma AbortIsFounded(net: Network, t: Talk, a: Ballot)
    requires AbortsFounded(net, t)
    ensures AnyAbort(net, t, a) ==> KeptOut(net, t, a)
  {
  }

  lemma AbortsFoundedAll(net: Network, t: Talk)
    requires forall a: Ballot | AnyAbort(net, t, a) :: KeptOut(net, t, a)
    ensures AbortsFounded(net, t)
  {
  }

  lemma CommitStillSafe(net: Network, t: Talk, v: NodeId, st: Statement, c: Ballot, d: Ballot)
    requires Consistent(net, t) && Signed(net, v, st) && !st.pledges.Prepare?
    requires AcceptsCommitOf(st, c) && MayCommit(net, t, c) && AnyCommit(net, Say(t, v, st), d)
    ensures !AnyAbort(net, Say(t, v, st), d) && Grounded(net, Say(t, v, st), d)
  {
    hide AnyCommit, AnyAbort, Grounded, AbortsFounded, CommitsSurvive, VotesPreparedFirst;
    CommitKept(net, t, v, st, d);
    AbortKept(net, t, v, st, d);
    CommittedIsSafe(net, t);
    if AnyCommit(net, t, d) {
      CommitsAgree(net, t, c, d);
    }
    assert d.value == c.value && MayCommit(net, t, d);
    GroundedKept(net, t, v, st, d);
  }

  lemma AbortStillFounded(net: Network, t: Talk, v: NodeId, st: Statement, c: Ballot, a: Ballot)
    requires Consistent(net, t) && Signed(net, v, st) && !st.pledges.Prepare?
    requires AcceptsCommitOf(st, c) && MayCommit(net, t, c) && AnyAbort(net, Say(t, v, st), a)
    ensures KeptOut(net, Say(t, v, st), a)
  {
    hide AnyCommit, AnyAbort, BarredBy, CommitsSurvive, VotesPreparedFirst, MayCommit;
    assert StaysBarred(t[v], st);
    AbortKept(net, t, v, st, a);
    if KeptOut(net, t, a) {
      KeptOutKept(net, t, v, st, a);
    } else {
      assert Aborts(st, a);
      OthersKeptOut(net, t, c, a);
      var c0 :| (c0 == c || AnyCommit(net, t, c0)) && LessAndIncompatible(c0, a);
      CommitKept(net, t, v, st, c0);
      assert Outrun(net, Say(t, v, st), a);
    }
  }

  // --- runs --------------------------------------------------------------------------------------

  datatype World = World(state: map<NodeId, State>, said: Talk)

  ghost predicate Starts(net: Network, w: World) {
    && w.state.Keys == net.intact && w.said.Keys == net.intact
    && forall z | z in net.intact :: w.state[z] == INITIAL && w.said[z] == {}
  }

  /** An intact node takes a step on statements it has received, and says where it stands. */
  ghost predicate Next(net: Network, w: World, v: NodeId, envs: Envelopes, action: Action, w': World) {
    && v in net.intact && v in net.qset && v in w.state && v in w.said
    && Received(net, w.said, envs)
    && v in w'.state
    && Steps(net.qset[v], w.state[v], envs, action, w'.state[v])
    && w'.state == w.state[v := w'.state[v]]
    && w'.said == Say(w.said, v, Statement(v, net.qset[v], PledgesOf(w'.state[v])))
  }

  /** The state of a node agrees with what was said. */
  ghost predicate StateFounded(net: Network, t: Talk, s: State) {
    && (s.phase == PREPARE && s.h.Some? ==> AnyPrepared(net, t, s.h.get))
    && (s.phase != PREPARE ==> s.c.Some? && AnyCommit(net, t, s.c.get))
  }

  ghost predicate Good(net: Network, w: World) {
    && w.state.Keys == net.intact && w.said.Keys == net.intact
    && Consistent(net, w.said)
    && forall z | z in net.intact :: Disciplined(w.state[z], w.said[z]) && StateFounded(net, w.said, w.state[z])
  }

  lemma StartsGood(net: Network, w: World)
    requires Starts(net, w)
    ensures Good(net, w)
  {
    StartsDisciplined();
    assert forall c: Ballot :: !AnyCommit(net, w.said, c) && !AnyAbort(net, w.said, c);
  }

  lemma FoundedKept(net: Network, t: Talk, v: NodeId, st: Statement, s: State)
    requires v in t && v in net.intact && StateFounded(net, t, s)
    ensures StateFounded(net, Say(t, v, st), s)
  {
    hide AnyCommit, AnyPrepared;
    if s.h.Some? {
      PreparedKept(net, t, v, st, s.h.get);
    }
    if s.c.Some? {
      CommitKept(net, t, v, st, s.c.get);
    }
  }

  /** A node that grew its ballots stays barred from what it wanted aborted. */
  lemma GrowthBars(s': State, sent: set<Statement>, st: Statement)
    requires CanSpeak(s') && st.pledges == PledgesOf(s') && BallotsGrow(s', sent + {st})
    ensures StaysBarred(sent, st)
  {
    forall a: Ballot | Barred(sent, a) ensures !WantsCommit(st, a) {
      var said :| said in sent && WantsAbort(said, a);
      assert said in sent + {st};
    }
  }

  lemma ReportedAborts(net: Network, t: Talk, v: NodeId, b: Ballot, a: Ballot)
    requires v in net.intact && v in t && LessAndIncompatible(a, b)
    requires exists st | st in t[v] :: HasPreparedBallot(b, st)
    ensures AnyAbort(net, t, a)
  {
    var st :| st in t[v] && HasPreparedBallot(b, st);
    PreparedAborts(b, st, a);
    assert HasAborted(t[v], a);
  }

  /** A prepared ballot that aborts a was known before, or is just being accepted. */
  lemma PreparedSource(q: QSet, s: State, envs: Envelopes, action: Action, s': State, st: Statement, a: Ballot)
    returns (b: Ballot)
    requires Steps(q, s, envs, action, s') && s'.phase == PREPARE && st.pledges == PledgesOf(s') && Aborts(st, a)
    ensures LessAndIncompatible(a, b) && s.phase == PREPARE
    ensures s.p == Some(b) || s.pp == Some(b) || PreparedAcceptable(q, envs, b)
  {
    hide PreparedAcceptable, Ratified, CommitAcceptable, CommitRatified, AtMost, Compatible;
    b :| LessAndIncompatible(a, b) && (s'.p == Some(b) || s'.pp == Some(b));
  }

  /** What a node newly reports prepared in the PREPARE phase is kept out. */
  lemma NewAborts(net: Network, w: World, v: NodeId, envs: Envelopes, action: Action, s': State, st: Statement, a: Ballot)
    requires net.Sound() && Good(net, w) && v in net.intact && Received(net, w.said, envs)
    requires Steps(net.qset[v], w.state[v], envs, action, s') && s'.phase == PREPARE && st.pledges == PledgesOf(s')
    requires Aborts(st, a) && !AnyAbort(net, w.said, a)
    ensures KeptOut(net, w.said, a) && !AnyCommit(net, w.said, a)
  {
    hide KeptOut, AnyCommit, Consistent, InRange, Slice, VBlocking, Apply, Enabled, AnyAbort,
      BallotsGrow, VotesStand, NoContradiction, PledgesOf, StateFounded, CanSpeak;
    var s := w.state[v];
    var b := PreparedSource(net.qset[v], s, envs, action, s', st, a);
    assert Disciplined(s, w.said[v]);
    if s.p == Some(b) || s.pp == Some(b) {
      ReportedAborts(net, w.said, v, b, a);
    } else {
      assert AllDisciplined(net, w.said);
      AbortJustified(net, w.said, v, envs, b, a);
    }
  }

  /** The commit a node reports may be committed. */
  lemma NewCommit(net: Network, w: World, v: NodeId, envs: Envelopes, action: Action, s': State)
    requires net.Sound() && Good(net, w) && v in net.intact && Received(net, w.said, envs)
    requires Steps(net.qset[v], w.state[v], envs, action, s') && s'.phase != PREPARE
    ensures MayCommit(net, w.said, s'.c.get)
  {
    hide MayCommit, AnyCommit, InRange, Slice, VBlocking, PreparedAcceptable, Ratified, CommitAcceptable, CommitRatified,
      Disciplined, AnyPrepared, AbortsFounded, CommitsSurvive, VotesPreparedFirst;
    var s, t := w.state[v], w.said;
    assert StateFounded(net, t, s);
    if action.AcceptCommit? {
      CommitJustified(net, t, v, envs, action.low.value, Interval(action.low.counter, action.high.counter));
      assert s'.c.get == action.low;
    } else if action.ConfirmCommit? {
      RatifiedMayCommit(net, t, v, envs, action.low.value, Interval(action.low.counter, action.high.counter));
      assert s'.c.get == action.low;
    } else {
      assert s'.c == s.c && s.phase != PREPARE;
      CommittedIsSafe(net, t);
    }
  }

  /** The highest ballot a node confirmed as prepared was reported prepared. */
  lemma NewHigh(net: Network, w: World, v: NodeId, envs: Envelopes, action: Action, s': State)
    requires net.Sound() && Good(net, w) && v in net.intact && Received(net, w.said, envs)
    requires Steps(net.qset[v], w.state[v], envs, action, s') && s'.phase == PREPARE && s'.h.Some?
    ensures AnyPrepared(net, w.said, s'.h.get)
  {
    hide AnyCommit, InRange, Slice, VBlocking, PreparedAcceptable, Ratified, CommitAcceptable, CommitRatified,
      Disciplined, AnyPrepared, AbortsFounded, CommitsSurvive, VotesPreparedFirst;
    assert StateFounded(net, w.said, w.state[v]);
    if action.ConfirmPrepared? {
      RatifiedIsPrepared(net, w.said, v, envs, action.newH);
      assert s'.h.get == action.newH;
    } else {
      assert s'.h == w.state[v].h && w.state[v].phase == PREPARE;
    }
  }

  /** A statement of the PREPARE phase keeps the network consistent. */
  lemma PreparePhase(net: Network, w: World, v: NodeId, envs: Envelopes, action: Action, w': World)
    requires net.Sound() && Good(net, w) && Next(net, w, v, envs, action, w') && w'.state[v].phase == PREPARE
    requires Disciplined(w'.state[v], w'.said[v])
    ensures Consistent(net, w'.said) && StateFounded(net, w'.said, w'.state[v])
  {
    hide AnyCommit, InRange, Slice, VBlocking, Enabled, Apply, AnyPrepared, AbortsFounded, CommitsSurvive,
      VotesPreparedFirst, KeptOut, AnyAbort, Aborts, BallotsGrow, VotesStand, PreparedReported, NoContradiction;
    var s', t := w'.state[v], w.said;
    var st := Statement(v, net.qset[v], PledgesOf(s'));
    GrowthBars(s', t[v], st);
    if s'.h.Some? {
      NewHigh(net, w, v, envs, action, s');
      PreparedKept(net, t, v, st, s'.h.get);
    }
    forall a: Ballot | Aborts(st, a) && !AnyAbort(net, t, a) ensures KeptOut(net, t, a) && !AnyCommit(net, t, a) {
      NewAborts(net, w, v, envs, action, s', st, a);
    }
    SayPrepare(net, t, v, st);
  }

  /** A statement of the later phases keeps the network consistent. */
  lemma LaterPhases(net: Network, w: World, v: NodeId, envs: Envelopes, action: Action, w': World)
    requires net.Sound() && Good(net, w) && Next(net, w, v, envs, action, w') && w'.state[v].phase != PREPARE
    ensures Consistent(net, w'.said) && StateFounded(net, w'.said, w'.state[v])
  {
    hide AnyCommit, InRange, Slice, VBlocking, Enabled, Apply, AnyPrepared, AbortsFounded, CommitsSurvive,
      VotesPreparedFirst, MayCommit, Disciplined;
    var s', t := w'.state[v], w.said;
    var st := Statement(v, net.qset[v], PledgesOf(s'));
    NewCommit(net, w, v, envs, action, s');
    assert AcceptsCommitOf(st, s'.c.get);
    SayCommit(net, t, v, st, s'.c.get);
    CommitKept(net, t, v, st, s'.c.get);
  }

  /** Every step of every intact node keeps the invariant. */
  lemma NextGood(net: Network, w: World, v: NodeId, envs: Envelopes, action: Action, w': World)
    requires net.Sound() && Good(net, w) && Next(net, w, v, envs, action, w')
    ensures Good(net, w')
  {
    hide Steps, Consistent, StateFounded, InRange, Slice, VBlocking, Disciplined, CanSpeak, PledgesOf, Received;
    var s' := w'.state[v];
    StepSpeaks(net.qset[v], w.state[v], envs, action, s');
    var st := Statement(v, net.qset[v], PledgesOf(s'));
    DisciplineStep(net.qset[v], w.state[v], envs, action, s', w.said[v], st);
    if s'.phase == PREPARE {
      PreparePhase(net, w, v, envs, action, w');
    } else {
      LaterPhases(net, w, v, envs, action, w');
    }
    forall z | z in net.intact && z != v
      ensures Disciplined(w'.state[z], w'.said[z]) && StateFounded(net, w'.said, w'.state[z])
    {
      FoundedKept(net, w.said, v, st, w.state[z]);
    }
  }

  lemma StepSpeaks(q: QSet, s: State, envs: Envelopes, action: Action, s': State)
    requires Steps(q, s, envs, action, s')
    ensures CanSpeak(s')
  {
  }

  /** A run: from the start, every world follows from the one before by some step of some node. */
  ghost predicate IsRun(net: Network, run: seq<World>) {
    && |run| > 0 && Starts(net, run[0])
    && forall i | 0 < i < |run| :: Follows(net, run[i - 1], run[i])
  }

  ghost predicate Follows(net: Network, w: World, w': World) {
    exists v: NodeId, envs: Envelopes, action: Action :: Next(net, w, v, envs, action, w')
  }

  lemma {:induction false} RunGood(net: Network, run: seq<World>, i: nat)
    requires net.Sound() && IsRun(net, run) && i < |run|
    ensures Good(net, run[i])
  {
    hide Next, Good, Starts;
    if i == 0 {
      StartsGood(net, run[0]);
    } else {
      RunGood(net, run, i - 1);
      assert Follows(net, run[i - 1], run[i]);
      var v: NodeId, envs: Envelopes, action: Action :| Next(net, run[i - 1], v, envs, action, run[i]);
      NextGood(net, run[i - 1], v, envs, action, run[i]);
    }
  }

  /** Intact nodes that accepted a commit, in whatever world of the run, accepted the same value. */
  lemma CommitsAgreeInRun(net: Network, run: seq<World>, i: nat, z1: NodeId, z2: NodeId)
    requires net.Sound() && IsRun(net, run) && i < |run| && z1 in net.intact && z2 in net.intact
    requires z1 in run[i].state && z2 in run[i].state
    requires run[i].state[z1].phase != PREPARE && run[i].state[z2].phase != PREPARE
    ensures run[i].state[z1].c.Some? && run[i].state[z2].c.Some?
    ensures run[i].state[z1].c.get.value == run[i].state[z2].c.get.value
  {
    hide Next, Starts, IsRun, Consistent, Disciplined, AnyCommit, MayCommit, AnyPrepared;
    RunGood(net, run, i);
    var w := run[i];
    assert StateFounded(net, w.said, w.state[z1]) && StateFounded(net, w.said, w.state[z2]);
    CommittedIsSafe(net, w.said);
    CommitsAgree(net, w.said, w.state[z1].c.get, w.state[z2].c.get);
  }

  /** No two intact nodes ever externalise different values. */
  lemma Agree(net: Network, run: seq<World>, i: nat, j: nat, z1: NodeId, z2: NodeId)
    requires net.Sound() && IsRun(net, run) && i <= j < |run| && z1 in net.intact && z2 in net.intact
    requires z1 in run[i].state && run[i].state[z1].phase == EXTERNALIZE
    requires z2 in run[j].state && run[j].state[z2].phase == EXTERNALIZE
    ensures run[i].state[z1].c.Some? && run[j].state[z2].c.Some?
    ensures run[i].state[z1].c.get.value == run[j].state[z2].c.get.value
  {
    hide Next, Starts, Steps, IsRun, Good, Follows;
    ExternalizedForGood(net, run, i, j, z1);
    CommitsAgreeInRun(net, run, j, z1, z2);
  }

  /** A node that externalised takes no further step. */
  lemma {:induction false} ExternalizedForGood(net: Network, run: seq<World>, i: nat, j: nat, z: NodeId)
    requires IsRun(net, run) && i <= j < |run|
    requires z in run[i].state && run[i].state[z].phase == EXTERNALIZE
    ensures z in run[j].state && run[j].state[z] == run[i].state[z]
    decreases j - i
  {
    hide Starts, Received;
    if i < j {
      assert Follows(net, run[i], run[i + 1]) by { assert run[i + 1 - 1] == run[i]; }
      var v: NodeId, envs: Envelopes, action: Action :| Next(net, run[i], v, envs, action, run[i + 1]);
      ExternalizedForGood(net, run, i + 1, j, z);
    }
  }
}
