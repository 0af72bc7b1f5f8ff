/**
 What a node of the ballot protocol (src/scp/BallotProtocol.cpp) stands for, ballot by ballot: the
 ballots it votes to prepare and to commit and those it has accepted. Statements say exactly that, each
 transition changes exactly what it is for, and two slots for prepared ballots are enough to remember
 every abort.
 */
module BallotMeaning {
  import opened QuorumSets
  import opened Quorums
  import opened Ballots
  import opened BallotDiscipline
  import opened Agreement
  import opened CommitCounters

  // --- what a state stands for ----------------------------------------------------------------

  /** x has the value of y and no higher counter. */
  predicate UpTo(x: Ballot, y: Option<Ballot>) {
    y.Some? && x.value == y.get.value && x.counter <= y.get.counter
  }

  predicate OfValue(x: Ballot, y: Option<Ballot>) {
    y.Some? && x.value == y.get.value
  }

  predicate VotedPrepared(s: State, x: Ballot) {
    if s.phase == PREPARE then UpTo(x, s.b) else OfValue(x, s.c)
  }

  predicate AcceptedPrepared(s: State, x: Ballot) {
    match s.phase
    case PREPARE => UpTo(x, s.p) || UpTo(x, s.pp)
    case CONFIRM => OfValue(x, s.c) && s.p.Some? && x.counter <= s.p.get.counter
    case EXTERNALIZE => OfValue(x, s.c)
  }

  /** While it prepares, a node votes to commit up to h; later for all counters from c on. */
  predicate VotedCommit(s: State, x: Ballot) {
    OfValue(x, s.c) && s.c.get.counter <= x.counter && (s.phase == PREPARE ==> UpTo(x, s.h))
  }

  predicate AcceptedCommit(s: State, x: Ballot) {
    s.phase != PREPARE && OfValue(x, s.c) && s.c.get.counter <= x.counter && (s.phase == CONFIRM ==> UpTo(x, s.h))
  }

  /** A ballot accepted as prepared rules a out. */
  predicate AbortedIn(s: State, a: Ballot) {
    || (s.p.Some? && a.value != s.p.get.value && AtMost(a, s.p.get))
    || (s.pp.Some? && a.value != s.pp.get.value && AtMost(a, s.pp.get))
  }

  /** Once commits are accepted, p has the value of c. */
  predicate PreparedFits(s: State) {
    s.phase == CONFIRM ==> s.p.Some? && OfValue(s.p.get, s.c)
  }

  // --- statements say it -----------------------------------------------------------------------

  /** Without a ballot the statement carries (0, 0), which is the only ballot it then votes for. */
  lemma StatementMeans(s: State, st: Statement, x: Ballot)
    requires CanSpeak(s) && st.pledges == PledgesOf(s)
    ensures VotesPrepared(x, st) <==> VotedPrepared(s, x) || (s.phase == PREPARE && s.b.None? && x == NO_BALLOT)
    ensures HasPreparedBallot(x, st) <==> AcceptedPrepared(s, x)
  {
  }

  /** An interval is voted for or accepted if and only if each of its ballots is. */
  lemma IntervalMeans(s: State, st: Statement, value: Value, cur: Interval)
    requires CanSpeak(s) && PositiveState(s) && st.pledges == PledgesOf(s) && cur.first <= cur.second
    ensures VotesCommit(value, cur, st)
       <==> forall n: Uint32 | cur.first <= n <= cur.second :: VotedCommit(s, Ballot(n, value))
    ensures CommitPredicate(value, cur, st)
       <==> forall n: Uint32 | cur.first <= n <= cur.second :: AcceptedCommit(s, Ballot(n, value))
  {
    var low, high := Ballot(cur.first, value), Ballot(cur.second, value);
    assert VotesCommit(value, cur, st) <==> VotedCommit(s, low) && VotedCommit(s, high);
    assert CommitPredicate(value, cur, st) <==> AcceptedCommit(s, low) && AcceptedCommit(s, high);
  }

  lemma OneOfOne(n: NodeId, u: set<NodeId>)
    ensures Slice(QSet(1, [n], []), u) <==> n in u
  {
    assert [n][..0] == [];
    assert Count([n], u) == if n in u then 1 else 0;
  }

  /**
   A node that externalised stands for itself: any slice of such nodes is a quorum for what they committed, whatever
   their own quorum sets are.
   */
  lemma SliceOfExternalized(q: QSet, envs: Envelopes, u: set<NodeId>, value: Value, cur: Interval)
    requires Slice(q, u)
    requires forall n | n in u ::
               && n in envs && envs[n].node == n && envs[n].pledges.Externalize?
               && envs[n].pledges.commit.value == value && envs[n].pledges.commit.counter <= cur.first
    ensures CommitRatified(q, envs, value, cur)
  {
    hide Slice;
    forall n | n in u ensures Slice(QuorumSetOf(envs[n]), u) {
      OneOfOne(n, u);
    }
    assert IsQuorumIn(u, q, envs, QuorumSetOf, st => CommitPredicate(value, cur, st));
  }

  // --- transitions do it -------------------------------------------------------------------------

  /** What an action changes, seen on one ballot. */
  predicate Effect(s: State, action: Action, s': State, x: Ballot) {
    match action
    case AcceptPrepared(y) =>
      && s'.phase == s.phase && (AcceptedPrepared(s', y) <==> PreparedFits(s))
      && (VotedPrepared(s', x) <==> VotedPrepared(s, x))
      && (AbortedIn(s', x) <==> AbortedIn(s, x) || (x.value != y.value && AtMost(x, y)))
      && (VotedCommit(s', x) <==> VotedCommit(s, x) && !(s.h.Some? && AbortedIn(s', s.h.get)))
    case ConfirmPrepared(newC, newH) =>
      && s'.phase == PREPARE && s'.h == Some(newH)
      && AtMost(newH, Or0(s'.b)) && AtMost(Or0(s.b), Or0(s'.b)) && (s'.b == s.b || s'.b == s'.h)
      && (AcceptedPrepared(s', x) <==> AcceptedPrepared(s, x))
      && (newC.counter != 0 ==> (VotedCommit(s', x) <==> x.value == newH.value && newC.counter <= x.counter <= newH.counter))
      && (newC.counter == 0 ==> s'.c == s.c && (VotedCommit(s, x) ==> VotedCommit(s', x)))
    case AcceptCommit(low, high) =>
      && s'.phase == CONFIRM
      && (VotedPrepared(s', x) <==> x.value == low.value)
      && (AcceptedCommit(s', x) <==> x.value == low.value && low.counter <= x.counter <= high.counter)
      && s'.p == s.p && AtMost(high, Or0(s'.b)) && (s'.b == s.b || s'.b == s'.h)
    case ConfirmCommit(low, high) =>
      && s'.phase == EXTERNALIZE && s'.h == Some(high)
      && (AcceptedPrepared(s', x) <==> x.value == low.value)
      && (AcceptedCommit(s', x) <==> x.value == low.value && low.counter <= x.counter)
    case Bump(y) =>
      && s' == s.(b := s'.b)
      && (s.phase == PREPARE ==> (VotedPrepared(s', x) <==> x.value == y.value && x.counter <= y.counter))
  }

  /** What is ruled out afterwards: what was before, and what the ballot rules out. */
  lemma SlotsAbort(s: State, y: Ballot, x: Ballot)
    requires CheckInvariants(s) && MayRaisePrepared(s, y)
    ensures AbortedIn(SetPrepared(s, y), x) <==> AbortedIn(s, x) || (x.value != y.value && AtMost(x, y))
  {
  }

  lemma VoidIs(s: State)
    ensures CommitIsVoid(s) <==> s.c.Some? && s.h.Some? && AbortedIn(s, s.h.get)
    ensures forall x :: AbortedIn(s.(c := None), x) <==> AbortedIn(s, x)
  {
  }

  lemma AcceptPreparedMeans(q: QSet, s: State, envs: Envelopes, action: Action, s': State, x: Ballot)
    requires s == INITIAL || CanSpeak(s)
    requires Steps(q, s, envs, action, s') && action.AcceptPrepared?
    ensures Effect(s, action, s', x)
  {
    hide PreparedAcceptable, AbortedIn, PledgesOf;
    SlotsAbort(s, action.ballot, x);
    if s.h.Some? { SlotsAbort(s, action.ballot, s.h.get); }
    VoidIs(SetPrepared(s, action.ballot));
  }

  lemma ConfirmPreparedMeans(q: QSet, s: State, envs: Envelopes, action: Action, s': State, x: Ballot)
    requires s == INITIAL || CanSpeak(s)
    requires Steps(q, s, envs, action, s') && action.ConfirmPrepared?
    ensures Effect(s, action, s', x)
  {
    hide PreparedAcceptable, Ratified, CommitAcceptable, CommitRatified;
  }

  lemma AcceptCommitMeans(q: QSet, s: State, envs: Envelopes, action: Action, s': State, x: Ballot)
    requires s == INITIAL || CanSpeak(s)
    requires Steps(q, s, envs, action, s') && action.AcceptCommit?
    ensures Effect(s, action, s', x)
  {
    hide PreparedAcceptable, Ratified, CommitAcceptable, CommitRatified;
  }

  lemma LastMeans(q: QSet, s: State, envs: Envelopes, action: Action, s': State, x: Ballot)
    requires s == INITIAL || CanSpeak(s)
    requires Steps(q, s, envs, action, s') && (action.ConfirmCommit? || action.Bump?)
    ensures Effect(s, action, s', x)
  {
    hide PreparedAcceptable, Ratified, CommitAcceptable, CommitRatified;
  }

  lemma StepMeans(q: QSet, s: State, envs: Envelopes, action: Action, s': State, x: Ballot)
    requires s == INITIAL || CanSpeak(s)
    requires Steps(q, s, envs, action, s')
    ensures Effect(s, action, s', x)
  {
    hide Steps, Effect, CanSpeak;
    match action
    case AcceptPrepared(_) => AcceptPreparedMeans(q, s, envs, action, s', x);
    case ConfirmPrepared(_, _) => ConfirmPreparedMeans(q, s, envs, action, s', x);
    case AcceptCommit(_, _) => AcceptCommitMeans(q, s, envs, action, s', x);
    case _ => LastMeans(q, s, envs, action, s', x);
  }

  /** p' is below p and of another value. */
  predicate Apart(s: State) {
    s.pp.Some? ==> s.p.Some? && LessAndIncompatible(s.pp.get, s.p.get)
  }

  /**
   The guards of the attempts: a ballot is worth accepting as prepared if and only if the slots change and stay
   apart, or in CONFIRM if p rises within its value; c may be set if and only if it is not, and nothing rules newH out.
   */
  lemma GuardsMean(s: State, x: Ballot)
    requires CheckInvariants(s) && Apart(s)
    ensures s.phase == PREPARE ==> (MayRaisePrepared(s, x) <==> SetPrepared(s, x) != s && Apart(SetPrepared(s, x)))
    ensures s.phase == CONFIRM ==> (MayRaisePrepared(s, x) <==> OfValue(x, s.p) && x.counter > s.p.get.counter)
    ensures s.phase == EXTERNALIZE ==> !MayRaisePrepared(s, x)
    ensures MaySetCommit(s, x) <==> s.c.None? && !AbortedIn(s, x)
  {
  }

  // --- two slots remember every abort -----------------------------------------------------------

  /** What has ever been reported as aborted is ruled out by p or p' now, and nothing else is. */
  ghost predicate Remembers(s: State, sent: set<Statement>) {
    s.phase == PREPARE ==> forall a: Ballot :: HasAborted(sent, a) <==> AbortedIn(s, a)
  }

  lemma StepRemembers(q: QSet, s: State, envs: Envelopes, action: Action, s': State, sent: set<Statement>, st: Statement)
    requires s == INITIAL || CanSpeak(s)
    requires Remembers(s, sent) && Steps(q, s, envs, action, s') && st.pledges == PledgesOf(s')
    ensures Remembers(s', sent + {st})
  {
    hide Steps, Effect, Enabled, Apply, HasAborted, CanSpeak, PledgesOf, AbortedIn;
    if s'.phase == PREPARE {
      forall a: Ballot ensures HasAborted(sent + {st}, a) <==> AbortedIn(s', a) {
        StepMeans(q, s, envs, action, s', a);
        AbortsGrow(q, s, envs, action, s', a, st);
        AbortedSoFar(sent, st, a);
      }
    }
  }

  lemma AbortsGrow(q: QSet, s: State, envs: Envelopes, action: Action, s': State, a: Ballot, st: Statement)
    requires Steps(q, s, envs, action, s') && st.pledges == PledgesOf(s') && s'.phase == PREPARE
    requires Effect(s, action, s', a)
    ensures s.phase == PREPARE && (AbortedIn(s, a) ==> AbortedIn(s', a)) && (Aborts(st, a) <==> AbortedIn(s', a))
  {
    hide PreparedAcceptable, Ratified, CommitAcceptable, CommitRatified;
  }

  lemma AbortedSoFar(sent: set<Statement>, st: Statement, a: Ballot)
    ensures HasAborted(sent + {st}, a) <==> HasAborted(sent, a) || Aborts(st, a)
  {
    hide Aborts;
    if HasAborted(sent, a) {
      var said :| said in sent && Aborts(said, a);
      assert said in sent + {st};
    }
    if Aborts(st, a) {
      assert st in sent + {st};
    }
  }

  ghost predicate AllRemember(net: Network, w: World) {
    && w.state.Keys == net.intact && w.said.Keys == net.intact
    && forall z | z in net.intact :: (w.state[z] == INITIAL || CanSpeak(w.state[z])) && Remembers(w.state[z], w.said[z])
  }

  lemma NextRemembers(net: Network, w: World, v: NodeId, envs: Envelopes, action: Action, w': World)
    requires Next(net, w, v, envs, action, w') && AllRemember(net, w)
    ensures AllRemember(net, w')
  {
    hide Enabled, Apply, CanSpeak, PledgesOf, Remembers, Received;
    var st := Statement(v, net.qset[v], PledgesOf(w'.state[v]));
    StepRemembers(net.qset[v], w.state[v], envs, action, w'.state[v], w.said[v], st);
  }

  /**
   In every world of a run, a node that still prepares finds in p and p' every abort that it ever
   reported, however many ballots of however many values it accepted.
   */
  lemma {:induction false} RunRemembers(net: Network, run: seq<World>, i: nat)
    requires IsRun(net, run) && i < |run|
    ensures AllRemember(net, run[i])
  {
    hide Next, HasAborted, CanSpeak;
    if i > 0 {
      RunRemembers(net, run, i - 1);
      assert Follows(net, run[i - 1], run[i]);
      var v: NodeId, envs: Envelopes, action: Action :| Next(net, run[i - 1], v, envs, action, run[i]);
      NextRemembers(net, run[i - 1], v, envs, action, run[i]);
    } else {
      NothingAborted();
    }
  }

  lemma NothingAborted()
    ensures Remembers(INITIAL, {})
  {
  }
}
