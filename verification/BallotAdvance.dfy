/**
 What a call of advanceSlot (src/scp/BallotProtocol.cpp) leads to: a node whose statements
 confirm that the value it committed is committed externalises that value.
 */
module BallotAdvance {
  import opened QuorumSets
  import opened Quorums
  import opened Ballots
  import opened BallotCandidates
  import opened BallotProtocol
  import opened BallotChecks
  import opened Agreement
  import opened CommitCounters

  /** The statements say the same about what is committed, and their nodes ask for the same quorums. */
  ghost predicate SameCommits(envs: Envelopes, envs': Envelopes) {
    && envs.Keys == envs'.Keys
    && forall n | n in envs ::
         && QuorumSetOf(envs[n]) == QuorumSetOf(envs'[n])
         && (forall value: Value, cur: Interval :: CommitPredicate(value, cur, envs[n]) <==> CommitPredicate(value, cur, envs'[n]))
         && (forall value: Value, x: Uint32 :: MentionsUpTo(envs[n], value, x) <==> MentionsUpTo(envs'[n], value, x))
  }

  lemma SameRatified(q: QSet, envs: Envelopes, envs': Envelopes, value: Value, cur: Interval)
    requires SameCommits(envs, envs') && CommitRatified(q, envs, value, cur)
    ensures CommitRatified(q, envs', value, cur)
  {
    hide Slice, CommitPredicate, MentionsUpTo, QuorumSetOf;
    var u :| IsQuorumIn(u, q, envs, QuorumSetOf, st => CommitPredicate(value, cur, st));
    QuorumMembers(u, q, envs, QuorumSetOf, st => CommitPredicate(value, cur, st));
    assert IsQuorumIn(u, q, envs', QuorumSetOf, st => CommitPredicate(value, cur, st));
  }

  lemma SameMentions(envs: Envelopes, envs': Envelopes, value: Value, x: Uint32)
    requires SameCommits(envs, envs') && Mentioned(envs, value, x)
    ensures Mentioned(envs', value, x)
  {
    hide CommitPredicate, MentionsUpTo, QuorumSetOf;
    var n :| n in envs && MentionsUpTo(envs[n], value, x);
    assert MentionsUpTo(envs'[n], value, x);
  }

  /** Accepting a ballot as prepared changes nothing about what a node in CONFIRM has committed. */
  lemma PreparedKeepsCommits(id: NodeId, q: QSet, t: Turn, ballot: Ballot, t': Turn)
    requires Reporting(id, q, t.envs, t.state) && id in t.envs && t.state.phase == CONFIRM
    requires Passes(id, q, t, Some(AcceptPrepared(ballot)), t')
    ensures t'.state.phase == CONFIRM && t'.state.c == t.state.c && t'.state.h == t.state.h && SameCommits(t.envs, t'.envs)
  {
    hide PreparedAcceptable;
  }

  lemma SameCommitsBack(envs: Envelopes, envs': Envelopes)
    requires SameCommits(envs, envs')
    ensures SameCommits(envs', envs)
  {
    hide CommitPredicate, MentionsUpTo, QuorumSetOf;
  }

  lemma SameReachesZero(q: QSet, envs: Envelopes, envs': Envelopes, value: Value)
    requires SameCommits(envs, envs') && ReachesZero(q, envs', true, value)
    ensures ReachesZero(q, envs, true, value)
  {
    hide SameCommits, Mentioned, CommitRatified;
    SameCommitsBack(envs, envs');
    var top: Uint32 :| Mentioned(envs', value, top) && Committable(q, envs', true, value, Interval(0, top));
    SameMentions(envs', envs, value, top);
    SameRatified(q, envs', envs, value, Interval(0, top));
  }

  /** The node's own statement says where it stands. */
  ghost predicate Speaks(id: NodeId, q: QSet, t: Turn) {
    CanSpeak(t.state) && id in t.envs && t.envs[id] == Statement(id, q, PledgesOf(t.state))
  }

  lemma ReportingSpeaks(id: NodeId, q: QSet, t: Turn)
    requires Reporting(id, q, t.envs, t.state) && id in t.envs
    ensures Speaks(id, q, t)
  {
  }

  lemma StepSpeaks(id: NodeId, q: QSet, t: Turn, action: Action, t': Turn)
    requires Passes(id, q, t, Some(action), t')
    ensures Speaks(id, q, t')
  {
    hide Enabled, Apply;
  }

  /** The two turns about prepared ballots leave a node in CONFIRM what it has committed. */
  lemma CommitsStand(id: NodeId, q: QSet, hint: Statement, turns: seq<Turn>, taken: seq<Option<Action>>)
    requires Advances(id, q, hint, turns, taken)
    requires Reporting(id, q, turns[0].envs, turns[0].state) && id in turns[0].envs && turns[0].state.phase == CONFIRM
    ensures turns[2].state.phase == CONFIRM && turns[2].state.c == turns[0].state.c && turns[2].state.h == turns[0].state.h
    ensures SameCommits(turns[0].envs, turns[2].envs) && Speaks(id, q, turns[2])
  {
    hide Speaks, Steps, Reporting, OffersPrepared, SameCommits, NothingToCommit, ReachesZero;
    hide OffersAccept, OffersExternalize, Widest;
    if taken[0].Some? {
      PreparedKeepsCommits(id, q, turns[0], taken[0].get.ballot, turns[1]);
      StepSpeaks(id, q, turns[0], taken[0].get, turns[1]);
    } else {
      SameItself(turns[0].envs);
      ReportingSpeaks(id, q, turns[0]);
    }
  }

  lemma SameItself(envs: Envelopes)
    ensures SameCommits(envs, envs)
  {
  }

  lemma ConfirmEnds(q: QSet, s: State, envs: Envelopes, low: Ballot, high: Ballot, s': State)
    requires Steps(q, s, envs, ConfirmCommit(low, high), s')
    ensures s'.phase == EXTERNALIZE && s'.c == Some(low)
  {
    hide CommitRatified;
  }

  // --- accepting a further interval -----------------------------------------------------------

  /** Where a node in CONFIRM stands after accepting the interval: it claims that interval, and h only rises. */
  lemma AcceptCommitMoves(id: NodeId, q: QSet, s: State, envs: Envelopes, low: Ballot, high: Ballot, s': State)
    requires s.phase == CONFIRM && CanSpeak(s) && Steps(q, s, envs, AcceptCommit(low, high), s')
    ensures CanSpeak(s') && s'.phase == CONFIRM && s.c.Some? && s.h.Some? && low.counter >= 1
    ensures s'.c == Some(low) && s'.c.get.value == s.c.get.value == high.value && high.counter > s.h.get.counter
    ensures var was, now := Statement(id, q, PledgesOf(s)), Statement(id, q, PledgesOf(s'));
            && QuorumSetOf(now) == QuorumSetOf(was)
            && (forall cur: Interval ::
                  CommitPredicate(low.value, cur, now) <==> low.counter <= cur.first && cur.second <= high.counter)
            && (forall x: Uint32 :: MentionsUpTo(was, low.value, x) ==> MentionsUpTo(now, low.value, x))
            && (forall cur: Interval :: CommitPredicate(low.value, cur, was) ==> cur.second <= s.h.get.counter)
  {
    hide CommitAcceptable;
  }

  /** The nodes that claim an interval vote for every interval that starts in it. */
  lemma ClaimsVote(q: QSet, envs: Envelopes, u: set<NodeId>, value: Value, cur: Interval, wide: Interval)
    requires IsQuorumIn(u, q, envs, QuorumSetOf, st => CommitPredicate(value, cur, st))
    requires cur.first <= wide.first
    ensures CommitAcceptable(q, envs, value, wide)
  {
    hide Slice, VBlocking, CommitPredicate, VotesCommit;
    QuorumMembers(u, q, envs, QuorumSetOf, st => CommitPredicate(value, cur, st));
    forall n | n in u ensures VotesCommit(value, wide, envs[n]) {
      ClaimVotes(envs[n], value, cur, wide);
    }
    AcceptedByQuorum(u, q, envs, QuorumSetOf, st => VotesCommit(value, wide, st), st => CommitPredicate(value, wide, st));
  }

  lemma ClaimVotes(st: Statement, value: Value, cur: Interval, wide: Interval)
    requires CommitPredicate(value, cur, st) && cur.first <= wide.first
    ensures VotesCommit(value, wide, st) && MentionsFrom(st, value, cur.first)
  {
  }

  lemma ClaimsPart(st: Statement, value: Value, cur: Interval, part: Interval)
    requires CommitPredicate(value, cur, st) && cur.first <= part.first && part.second <= cur.second
    ensures CommitPredicate(value, part, st)
  {
  }

  /** Nodes that claim an interval could accept one from its end on. */
  lemma CouldStart(q: QSet, envs: Envelopes, id: NodeId, u: set<NodeId>, value: Value, cur: Interval, top: Uint32)
    requires id in u && cur.first <= cur.second && IsQuorumIn(u, q, envs, QuorumSetOf, st => CommitPredicate(value, cur, st))
    ensures Begun(envs, value, cur.second) && Committable(q, envs, false, value, Interval(cur.second, top))
  {
    hide CommitPredicate, CommitAcceptable, IsQuorumIn, MentionsFrom;
    var x := cur.second;
    ClaimsVote(q, envs, u, value, cur, Interval(x, top));
    QuorumMembers(u, q, envs, QuorumSetOf, st => CommitPredicate(value, cur, st));
    ClaimsPart(envs[id], value, cur, Interval(x, x));
    ClaimVotes(envs[id], value, Interval(x, x), Interval(x, x));
  }

  /** The interval that the node accepts starts no higher than a ratified one ends that it claims itself. */
  lemma StartsInside(id: NodeId, q: QSet, envs: Envelopes, u: set<NodeId>, value: Value, cur: Interval, taken: Interval)
    requires id in u && cur.first <= cur.second && IsQuorumIn(u, q, envs, QuorumSetOf, st => CommitPredicate(value, cur, st))
    requires Widest(q, envs, false, value, taken)
    ensures taken.first <= cur.second
  {
    hide CommitPredicate, NothingToCommit, IsQuorumIn, Begun, Committable;
    CouldStart(q, envs, id, u, value, cur, taken.second);
  }

  /** What is ratified before the third turn is, in part, ratified after it. */
  lemma StillRatified(id: NodeId, q: QSet, hint: Statement, t: Turn, action: Action, t': Turn, cur: Interval)
    returns (part: Interval)
    requires t.state.phase == CONFIRM && t.state.c.Some? && Speaks(id, q, t)
    requires Passes(id, q, t, Some(action), t') && AcceptsCommit(q, hint, t, Some(action))
    requires cur.first <= cur.second && CommitRatified(q, t.envs, t.state.c.get.value, cur)
    ensures t'.state.phase == CONFIRM && t'.state.c.Some? && t'.state.c.get.value == t.state.c.get.value
    ensures cur.first <= part.first <= part.second == cur.second && CommitRatified(q, t'.envs, t.state.c.get.value, part)
  {
    hide Slice, CommitPredicate, QuorumSetOf, MentionsUpTo, CanSpeak, PledgesOf, Steps, OffersAccept, Widest, MentionsFrom;
    var value, low, high := t.state.c.get.value, action.low, action.high;
    AcceptCommitMoves(id, q, t.state, t.envs, low, high, t'.state);
    var u :| IsQuorumIn(u, q, t.envs, QuorumSetOf, st => CommitPredicate(value, cur, st));
    QuorumMembers(u, q, t.envs, QuorumSetOf, st => CommitPredicate(value, cur, st));
    part := cur;
    if id in u {
      StartsInside(id, q, t.envs, u, value, cur, Interval(low.counter, high.counter));
      part := Interval(if low.counter > cur.first then low.counter else cur.first, cur.second);
    }
    forall n | n in u
      ensures n in t'.envs && CommitPredicate(value, part, t'.envs[n]) && QuorumSetOf(t'.envs[n]) == QuorumSetOf(t.envs[n])
    {
      if n != id {
        ClaimsPart(t.envs[n], value, cur, part);
      }
    }
    assert IsQuorumIn(u, q, t'.envs, QuorumSetOf, st => CommitPredicate(value, part, st));
  }

  lemma MentionStays(id: NodeId, q: QSet, t: Turn, low: Ballot, high: Ballot, t': Turn, x: Uint32)
    requires t.state.phase == CONFIRM && Speaks(id, q, t) && Passes(id, q, t, Some(AcceptCommit(low, high)), t')
    requires Mentioned(t.envs, low.value, x)
    ensures Mentioned(t'.envs, low.value, x)
  {
    hide CommitPredicate, QuorumSetOf, MentionsUpTo, CanSpeak, PledgesOf, Steps;
    AcceptCommitMoves(id, q, t.state, t.envs, low, high, t'.state);
    var n :| n in t.envs && MentionsUpTo(t.envs[n], low.value, x);
    assert MentionsUpTo(t'.envs[n], low.value, x);
  }

  /** A further interval from above 0 adds no support for one from 0. */
  lemma ZeroStays(id: NodeId, q: QSet, t: Turn, low: Ballot, high: Ballot, t': Turn)
    requires t.state.phase == CONFIRM && Speaks(id, q, t) && Passes(id, q, t, Some(AcceptCommit(low, high)), t')
    requires ReachesZero(q, t'.envs, true, low.value)
    ensures ReachesZero(q, t.envs, true, low.value)
  {
    hide Slice, CommitPredicate, QuorumSetOf, MentionsUpTo, CanSpeak, PledgesOf, Steps;
    var value := low.value;
    AcceptCommitMoves(id, q, t.state, t.envs, low, high, t'.state);
    var top: Uint32 :| Mentioned(t'.envs, value, top) && Committable(q, t'.envs, true, value, Interval(0, top));
    var u :| IsQuorumIn(u, q, t'.envs, QuorumSetOf, st => CommitPredicate(value, Interval(0, top), st));
    QuorumMembers(u, q, t'.envs, QuorumSetOf, st => CommitPredicate(value, Interval(0, top), st));
    forall n | n in u ensures n in t.envs && t.envs[n] == t'.envs[n] && CommitPredicate(value, Interval(0, 0), t.envs[n]) {
      ClaimsPart(t'.envs[n], value, Interval(0, top), Interval(0, 0));
    }
    assert IsQuorumIn(u, q, t.envs, QuorumSetOf, st => CommitPredicate(value, Interval(0, 0), st));
    OwnMention(id, q, t, value);
  }

  lemma OwnMention(id: NodeId, q: QSet, t: Turn, value: Value)
    requires t.state.phase == CONFIRM && Speaks(id, q, t) && t.state.c.Some? && t.state.c.get.value == value
    ensures Mentioned(t.envs, value, 0)
  {
    assert MentionsUpTo(t.envs[id], value, 0);
  }

  // --- the whole call --------------------------------------------------------------------------

  /** What is offered before the third turn is, in part, offered after it. */
  lemma StillOffered(id: NodeId, q: QSet, hint: Statement, t: Turn, action: Option<Action>, t': Turn, cur: Interval)
    returns (part: Interval)
    requires Speaks(id, q, t) && Passes(id, q, t, action, t') && AcceptsCommit(q, hint, t, action)
    requires OffersExternalize(q, t.state, t.envs, hint, cur) && !ReachesZero(q, t.envs, true, t.state.c.get.value)
    ensures OffersExternalize(q, t'.state, t'.envs, hint, part) && t'.state.c.get.value == t.state.c.get.value
    ensures !ReachesZero(q, t'.envs, true, t'.state.c.get.value)
  {
    hide Speaks, Steps, CommitRatified, Mentioned, CommitsTo, ReachesZero, OffersAccept, Widest, CanSpeak, PledgesOf;
    part := cur;
    if action.Some? {
      part := StillRatified(id, q, hint, t, action.get, t', cur);
      SpeaksMeans(id, q, t);
      var low, high := action.get.low, action.get.high;
      AcceptCommitMoves(id, q, t.state, t.envs, low, high, t'.state);
      MentionStays(id, q, t, low, high, t', cur.second);
      if ReachesZero(q, t'.envs, true, low.value) {
        ZeroStays(id, q, t, low, high, t');
      }
    }
  }

  lemma SpeaksMeans(id: NodeId, q: QSet, t: Turn)
    requires Speaks(id, q, t)
    ensures CanSpeak(t.state)
  {
  }

  /**
   A node in CONFIRM for which an interval of its committed value is offered to be confirmed
   externalises that value in the call.
   */
  lemma RatifiedExternalizes(id: NodeId, q: QSet, hint: Statement, turns: seq<Turn>, taken: seq<Option<Action>>, cur: Interval)
    requires Advances(id, q, hint, turns, taken)
    requires Reporting(id, q, turns[0].envs, turns[0].state) && id in turns[0].envs
    requires OffersExternalize(q, turns[0].state, turns[0].envs, hint, cur)
    requires !ReachesZero(q, turns[0].envs, true, turns[0].state.c.get.value)
    ensures turns[4].state.phase == EXTERNALIZE && turns[4].state.c.Some?
    ensures turns[4].state.c.get.value == turns[0].state.c.get.value
  {
    hide Steps, Reporting, SameCommits, NothingToCommit, ReachesZero, Mentioned, CommitRatified, CommitsTo, Widest, AcceptsCommit;
    hide AcceptsPrepared, ConfirmsPrepared, Speaks;
    CommitsStand(id, q, hint, turns, taken);
    var t, value := turns[2], turns[0].state.c.get.value;
    SameRatified(q, turns[0].envs, t.envs, value, cur);
    SameMentions(turns[0].envs, t.envs, value, cur.second);
    if ReachesZero(q, t.envs, true, value) {
      SameReachesZero(q, turns[0].envs, t.envs, value);
    }
    var part := StillOffered(id, q, hint, t, taken[2], turns[3], cur);
    LastTurn(id, q, hint, turns[3], taken[3], turns[4], part);
  }

  lemma LastTurn(id: NodeId, q: QSet, hint: Statement, t: Turn, action: Option<Action>, t': Turn, cur: Interval)
    requires Passes(id, q, t, action, t') && ConfirmsCommit(q, hint, t, action)
    requires OffersExternalize(q, t.state, t.envs, hint, cur) && !ReachesZero(q, t.envs, true, t.state.c.get.value)
    ensures t'.state.phase == EXTERNALIZE && t'.state.c.Some? && t'.state.c.get.value == t.state.c.get.value
  {
    hide Steps, ReachesZero, Mentioned, CommitRatified, CommitsTo, Widest, PledgesOf;
    if action.Some? {
      ConfirmEnds(q, t.state, t.envs, action.get.low, action.get.high, t'.state);
    }
  }

  /** On what an intact node of a sound network receives in a run, counter 0 is no exception. */
  lemma ExternalizesInRun(net: Network, run: seq<World>, i: nat, id: NodeId, hint: Statement,
                          turns: seq<Turn>, taken: seq<Option<Action>>, cur: Interval)
    requires net.Sound() && IsRun(net, run) && i < |run| && id in net.intact
    requires Advances(id, net.qset[id], hint, turns, taken) && Received(net, run[i].said, turns[0].envs)
    requires Reporting(id, net.qset[id], turns[0].envs, turns[0].state) && id in turns[0].envs
    requires OffersExternalize(net.qset[id], turns[0].state, turns[0].envs, hint, cur)
    ensures turns[4].state.phase == EXTERNALIZE && turns[4].state.c.Some?
    ensures turns[4].state.c.get.value == turns[0].state.c.get.value
  {
    var value := turns[0].state.c.get.value;
    hide IsRun, Received, Advances, Reporting, ReachesZero;
    NeverReachesZero(net, run, i, id, turns[0].envs, true, value);
    RatifiedExternalizes(id, net.qset[id], hint, turns, taken, cur);
  }
}
