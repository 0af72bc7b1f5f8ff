/**
 When the transitions of src/scp/BallotProtocol.cpp leave a state that its own
 checkInvariants accepts, and a run in which one of them does not.
 */
module BallotChecks {
  import opened QuorumSets
  import opened Quorums
  import opened QuorumSetNormal
  import opened Ballots
  import opened BallotProtocol

  /** What every state of a run has in common: no p' without p. */
  predicate Checked(s: State) {
    CanSpeak(s) && (s.pp.Some? ==> s.p.Some?)
  }

  /** What a transition needs, besides being enabled, to leave a state that can be reported. */
  predicate KeepsChecks(s: State, action: Action) {
    match action
    case AcceptPrepared(ballot) => s.phase == PREPARE || !CommitIsVoid(SetPrepared(s, ballot))
    case ConfirmPrepared(newC, newH) =>
      && (s.b.None? ==> newH.counter != 0)
      && var c := if newC.counter != 0 then Some(newC) else s.c;
         c.Some? ==> Compatible(c.get, newH)
    case AcceptCommit(_, _) => s.p.Some?
    case ConfirmCommit(_, _) => true
    case Bump(ballot) => s.b.None? ==> ballot.counter != 0
  }

  lemma AcceptPreparedChecked(s: State, ballot: Ballot)
    requires Checked(s) && MayRaisePrepared(s, ballot)
    ensures var s' := Apply(s, AcceptPrepared(ballot));
            (CanSpeak(s') <==> KeepsChecks(s, AcceptPrepared(ballot))) && (s'.pp.Some? ==> s'.p.Some?)
  {
  }

  lemma ConfirmPreparedChecked(s: State, newC: Ballot, newH: Ballot)
    requires Checked(s) && s.phase == PREPARE && !(s.h.Some? && AtMost(newH, s.h.get))
    requires newC.counter != 0 ==> s.c.None? && AtMost(Or0(s.b), newC) && AtMost(newC, newH)
    ensures var s' := Apply(s, ConfirmPrepared(newC, newH));
            (CanSpeak(s') <==> KeepsChecks(s, ConfirmPrepared(newC, newH))) && (s'.pp.Some? ==> s'.p.Some?)
  {
  }

  /** Every enabled transition leaves a state that can be reported if and only if its condition holds. */
  lemma WhenChecked(q: QSet, s: State, envs: Envelopes, action: Action)
    requires Checked(s) && Enabled(q, s, envs, action)
    ensures CanSpeak(Apply(s, action)) <==> KeepsChecks(s, action)
    ensures CanSpeak(Apply(s, action)) ==> Checked(Apply(s, action))
  {
    hide Ratified, CommitRatified, PreparedAcceptable, CommitAcceptable;
    match action
    case AcceptPrepared(ballot) => AcceptPreparedChecked(s, ballot);
    case ConfirmPrepared(newC, newH) => ConfirmPreparedChecked(s, newC, newH);
    case _ =>
  }

  // --- a statement that is refused ------------------------------------------------------------

  /** What the node said last is where it stands, and its quorum set is sane. */
  predicate Reporting(id: NodeId, q: QSet, latest: Envelopes, s: State) {
    && Checked(s) && SanePledges(PledgesOf(s), true)
    && ThresholdsOk(q, false) && Distinct(Flat(q))
    && (id in latest ==> latest[id] == Statement(id, q, PledgesOf(s)))
  }

  /** The next statement is sane and newer than the last one. */
  predicate SaysMore(said: bool, before: Pledges, now: Pledges) {
    SanePledges(now, true) && (said ==> IsNewer(before, now))
  }

  lemma SpeaksAgain(id: NodeId, q: QSet, latest: Envelopes, s: State, s': State)
    requires Reporting(id, q, latest, s) && CanSpeak(s')
    ensures MaySay(id, q, latest, s') <==>
            (id in latest && PledgesOf(s') == PledgesOf(s)) || SaysMore(id in latest, PledgesOf(s), PledgesOf(s'))
  {
    hide SanePledges, IsNewer, PledgesOf, CanSpeak;
    OwnSetSane(id);
  }

  lemma OwnSetSane(id: NodeId)
    ensures ThresholdsOk(QSet(1, [id], []), false) && Distinct(Flat(QSet(1, [id], [])))
  {
  }

  lemma SilentIfInconsistent(id: NodeId, q: QSet, latest: Envelopes, s: State)
    ensures MaySay(id, q, latest, s) ==> CanSpeak(s)
  {
    hide CanSpeak;
  }

  lemma AcceptPreparedSays(s: State, ballot: Ballot, said: bool)
    requires Checked(s) && SanePledges(PledgesOf(s), true) && MayRaisePrepared(s, ballot)
    requires KeepsChecks(s, AcceptPrepared(ballot)) && CanSpeak(Apply(s, AcceptPrepared(ballot)))
    ensures SaysMore(said, PledgesOf(s), PledgesOf(Apply(s, AcceptPrepared(ballot))))
  {
  }

  lemma AcceptCommitSays(s: State, low: Ballot, high: Ballot, said: bool)
    requires Checked(s) && SanePledges(PledgesOf(s), true) && s.phase != EXTERNALIZE && low.counter <= high.counter
    requires s.phase == CONFIRM ==> s.h.Some? && high.counter > s.h.get.counter
    requires CanSpeak(Apply(s, AcceptCommit(low, high)))
    ensures SaysMore(said, PledgesOf(s), PledgesOf(Apply(s, AcceptCommit(low, high))))
  {
  }

  lemma ConfirmCommitSays(s: State, low: Ballot, high: Ballot, said: bool)
    requires Checked(s) && s.phase == CONFIRM && 1 <= low.counter <= high.counter
    requires CanSpeak(Apply(s, ConfirmCommit(low, high)))
    ensures SaysMore(said, PledgesOf(s), PledgesOf(Apply(s, ConfirmCommit(low, high))))
  {
  }

  lemma BumpSays(s: State, ballot: Ballot, said: bool)
    requires Checked(s) && SanePledges(PledgesOf(s), true) && s.phase != EXTERNALIZE
    requires s.b.Some? ==> !AtMost(ballot, s.b.get)
    requires CanSpeak(Apply(s, Bump(ballot)))
    ensures SaysMore(said, PledgesOf(s), PledgesOf(Apply(s, Bump(ballot))))
  {
  }

  /** Confirming a prepared ballot changes nothing that a statement mentions. */
  predicate Unchanged(s: State, newC: Ballot, newH: Ballot) {
    s.b.Some? && AtMost(newH, s.b.get) && newC.counter == 0 && newH.counter == Or0(s.h).counter
  }

  /** p reaches the counter of the confirmed ballot, and the statement changes in more than c. */
  predicate ConfirmsMore(said: bool, s: State, newH: Ballot) {
    && (newH.counter == 0 || (s.p.Some? && newH.counter <= s.p.get.counter))
    && (said ==> s.b.None? || !AtMost(newH, s.b.get) || newH.counter > Or0(s.h).counter)
  }

  lemma ConfirmPreparedSays(s: State, newC: Ballot, newH: Ballot, said: bool)
    requires Checked(s) && SanePledges(PledgesOf(s), true) && s.phase == PREPARE
    requires !(s.h.Some? && AtMost(newH, s.h.get)) && (newC.counter != 0 ==> s.c.None?)
    requires CanSpeak(Apply(s, ConfirmPrepared(newC, newH)))
    ensures var now := PledgesOf(Apply(s, ConfirmPrepared(newC, newH)));
            && (now == PledgesOf(s) <==> Unchanged(s, newC, newH))
            && (SaysMore(said, PledgesOf(s), now) <==> ConfirmsMore(said, s, newH))
  {
  }

  /** When the node goes on after a transition: the checks hold and the statement is known or sane and newer. */
  predicate GoesOn(said: bool, s: State, action: Action) {
    && KeepsChecks(s, action)
    && (action.ConfirmPrepared? ==> (said && Unchanged(s, action.newC, action.newH)) || ConfirmsMore(said, s, action.newH))
  }

  /** Exactly when an enabled transition stops the node, in terms of the state before it. */
  lemma WhenStops(id: NodeId, q: QSet, latest: Envelopes, s: State, envs: Envelopes, action: Action)
    requires Reporting(id, q, latest, s) && Enabled(q, s, envs, action)
    ensures Stops(id, q, latest, s, action) <==> !GoesOn(id in latest, s, action)
  {
    hide Ratified, CommitRatified, PreparedAcceptable, CommitAcceptable, MaySay, SaysMore, PledgesOf, CanSpeak;
    hide Unchanged, ConfirmsMore, SetPrepared, CommitIsVoid;
    WhenChecked(q, s, envs, action);
    var s' := Apply(s, action);
    hide Apply;
    SilentIfInconsistent(id, q, latest, s');
    if CanSpeak(s') {
      SpeaksAgain(id, q, latest, s, s');
      match action
      case AcceptPrepared(ballot) => AcceptPreparedSays(s, ballot, id in latest);
      case ConfirmPrepared(newC, newH) => ConfirmPreparedSays(s, newC, newH, id in latest);
      case AcceptCommit(low, high) => AcceptCommitSays(s, low, high, id in latest);
      case ConfirmCommit(low, high) => ConfirmCommitSays(s, low, high, id in latest);
      case Bump(ballot) => BumpSays(s, ballot, id in latest);
    }
  }

  /** A node that reports where it stands still does after a transition that does not stop it. */
  lemma KeepsReporting(id: NodeId, q: QSet, latest: Envelopes, s: State, envs: Envelopes, action: Action)
    requires Reporting(id, q, latest, s) && Enabled(q, s, envs, action) && !Stops(id, q, latest, s, action)
    ensures var s' := Apply(s, action);
            CanSpeak(s') && Reporting(id, q, latest[id := Statement(id, q, PledgesOf(s'))], s')
  {
    hide Ratified, CommitRatified, PreparedAcceptable, CommitAcceptable, SanePledges, PledgesOf, CanSpeak, IsNewer;
    var s' := Apply(s, action);
    hide Apply;
    SilentIfInconsistent(id, q, latest, s');
    WhenChecked(q, s, envs, action);
    SpeaksAgain(id, q, latest, s, s');
  }

  // --- a commit ballot of another value ----------------------------------------------------

  /** A node that needs only itself. */
  function Alone(n: NodeId): QSet {
    QSet(1, [n], [])
  }

  lemma AloneSlice(n: NodeId)
    ensures Slice(Alone(n), {n}) && VBlocking(Alone(n), {n})
  {
    assert [n][..0] == [];
    assert Count([n], {n}) == 1;
  }

  /** What a lone node says is ratified, and accepted, by whoever depends on that node only. */
  lemma AloneRatifies(n: NodeId, st: Statement, filter: Statement -> bool)
    requires st.node == n && st.qset == Alone(n) && filter(st)
    ensures HasQuorum(Alone(n), map[n := st], QuorumSetOf, filter)
    ensures VBlocking(Alone(n), Claiming(map[n := st], filter))
  {
    hide Slice, VBlocking;
    var envs := map[n := st];
    AloneSlice(n);
    assert Claiming(envs, filter) == {n};
    assert IsQuorumIn({n}, Alone(n), envs, QuorumSetOf, filter);
  }

  /** The statement that a node depends on in the run below. */
  function Witness(): Statement {
    Statement(9, Alone(9), Prepare(Ballot(2, 3), Some(Ballot(2, 3)), Some(Ballot(1, 5)), 0, 0))
  }

  lemma WitnessPrepares(ballot: Ballot)
    requires HasPreparedBallot(ballot, Witness())
    ensures Ratified(Alone(9), map[9 := Witness()], ballot)
    ensures PreparedAcceptable(Alone(9), map[9 := Witness()], ballot)
  {
    hide HasQuorum, VBlocking, HasPreparedBallot, VotesPrepared, Claiming;
    AloneRatifies(9, Witness(), st => HasPreparedBallot(ballot, st));
  }

  /**
   newC is taken from all candidates below newH, whatever their values: after three steps
   that keep the checks, confirming (2, 3) as prepared makes (1, 5) the ballot to commit,
   and the check that c and h are compatible stops the node.
   */
  lemma MixedCommit()
    ensures var q, envs := Alone(9), map[9 := Witness()];
            var s1 := State(PREPARE, Some(Ballot(1, 5)), None, None, None, None);
            var s2 := s1.(p := Some(Ballot(1, 5)));
            var s3 := s1.(p := Some(Ballot(2, 3)), pp := Some(Ballot(1, 5)));
            var confirm := ConfirmPrepared(Ballot(1, 5), Ballot(2, 3));
            && Steps(q, INITIAL, envs, Bump(Ballot(1, 5)), s1)
            && Steps(q, s1, envs, AcceptPrepared(Ballot(1, 5)), s2)
            && Steps(q, s2, envs, AcceptPrepared(Ballot(2, 3)), s3)
            && Enabled(q, s3, envs, confirm) && !CanSpeak(Apply(s3, confirm))
  {
    hide Ratified, PreparedAcceptable;
    WitnessPrepares(Ballot(1, 5));
    WitnessPrepares(Ballot(2, 3));
  }
}
