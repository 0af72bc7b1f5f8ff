/**
 What a node that follows the ballot protocol can have said: its commit votes and
 its prepare votes do not contradict each other, unless it accepted in between
 that the ballots it wanted to commit are aborted.
 */
module BallotDiscipline {
  import opened QuorumSets
  import opened Ballots

  /** The statement accepts a ballot as prepared that aborts a. */
  predicate Aborts(st: Statement, a: Ballot) {
    match st.pledges
    case Prepare(_, p, pp, _, _) =>
      (p.Some? && LessAndIncompatible(a, p.get)) || (pp.Some? && LessAndIncompatible(a, pp.get))
    case Confirm(b, nPrepared, _, _) => LessAndIncompatible(a, Ballot(nPrepared, b.value))
    case Externalize(commit, _) => !Compatible(a, commit)
  }

  lemma PreparedAborts(ballot: Ballot, st: Statement, a: Ballot)
    requires HasPreparedBallot(ballot, st) && LessAndIncompatible(a, ballot)
    ensures Aborts(st, a)
  {
  }

  /** The statement votes to commit a, in the PREPARE phase. */
  predicate WantsCommit(st: Statement, a: Ballot) {
    && st.pledges.Prepare? && st.pledges.nC != 0
    && st.pledges.ballot.value == a.value && st.pledges.nC <= a.counter <= st.pledges.nH
  }

  /** The statement votes for a ballot that aborts a, in the PREPARE phase. */
  predicate WantsAbort(st: Statement, a: Ballot) {
    st.pledges.Prepare? && LessAndIncompatible(a, st.pledges.ballot)
  }

  predicate HasAborted(sent: set<Statement>, a: Ballot) {
    exists st | st in sent :: Aborts(st, a)
  }

  predicate HasWantedCommit(sent: set<Statement>, a: Ballot) {
    exists st | st in sent :: WantsCommit(st, a)
  }

  predicate HasWantedAbort(sent: set<Statement>, a: Ballot) {
    exists st | st in sent :: WantsAbort(st, a)
  }

  // --- what links the state to the statements made so far ----------------------------

  /** The current ballot never falls, and ballots voted for do not abort the ballots to commit. */
  predicate BallotsGrow(s: State, sent: set<Statement>) {
    s.phase == PREPARE ==>
      forall st | st in sent && st.pledges.Prepare? ::
        && AtMost(st.pledges.ballot, Or0(s.b))
        && (s.c.Some? ==> Compatible(st.pledges.ballot, s.c.get) || AtMost(st.pledges.ballot, s.c.get))
  }

  /** A vote to commit stands, or its ballots are aborted. */
  predicate VotesStand(s: State, sent: set<Statement>) {
    s.phase == PREPARE ==>
      forall st | st in sent && st.pledges.Prepare? && st.pledges.nC != 0 ::
        || (s.c.Some? && s.h.Some? && s.c.get.value == st.pledges.ballot.value && st.pledges.nH <= s.h.get.counter)
        || HasAborted(sent, Ballot(st.pledges.nH, st.pledges.ballot.value))
  }

  /** What is prepared was reported. */
  predicate PreparedReported(s: State, sent: set<Statement>) {
    s.phase == PREPARE ==>
      && (s.p.Some? ==> exists st | st in sent :: HasPreparedBallot(s.p.get, st))
      && (s.pp.Some? ==> exists st | st in sent :: HasPreparedBallot(s.pp.get, st))
  }

  /** Whoever wanted a committed and also wanted it aborted had accepted that it is aborted. */
  ghost predicate NoContradiction(sent: set<Statement>) {
    forall a: Ballot | HasWantedCommit(sent, a) && HasWantedAbort(sent, a) :: HasAborted(sent, a)
  }

  ghost predicate Disciplined(s: State, sent: set<Statement>) {
    && (s == INITIAL || CanSpeak(s))
    && BallotsGrow(s, sent)
    && VotesStand(s, sent)
    && PreparedReported(s, sent)
    && NoContradiction(sent)
  }

  lemma StartsDisciplined()
    ensures Disciplined(INITIAL, {})
  {
  }

  // --- one step -------------------------------------------------------------------------

  lemma GrowStep(q: QSet, s: State, envs: Envelopes, action: Action, s': State, sent: set<Statement>, st: Statement)
    requires s == INITIAL || CanSpeak(s)
    requires BallotsGrow(s, sent) && Steps(q, s, envs, action, s') && st.pledges == PledgesOf(s')
    ensures BallotsGrow(s', sent + {st})
  {
    hide PreparedAcceptable, Ratified, CommitAcceptable, CommitRatified;
    if s'.phase == PREPARE {
      assert s.phase == PREPARE;
      assert AtMost(Or0(s.b), Or0(s'.b));
      assert s'.c.Some? ==> Compatible(s'.b.get, s'.c.get);
      assert s'.c.Some? && s.c.None? ==> AtMost(Or0(s.b), s'.c.get);
      assert s'.c.Some? && s.c.Some? ==> s'.c == s.c;
    }
  }

  lemma StandStep(q: QSet, s: State, envs: Envelopes, action: Action, s': State, sent: set<Statement>, st: Statement)
    requires s == INITIAL || CanSpeak(s)
    requires VotesStand(s, sent) && Steps(q, s, envs, action, s') && st.pledges == PledgesOf(s')
    ensures VotesStand(s', sent + {st})
  {
    hide PreparedAcceptable, Ratified, CommitAcceptable, CommitRatified, HasAborted;
    if s'.phase == PREPARE {
      assert s.phase == PREPARE;
      forall said | said in sent + {st} && said.pledges.Prepare? && said.pledges.nC != 0
        ensures
          || (s'.c.Some? && s'.h.Some? && s'.c.get.value == said.pledges.ballot.value && said.pledges.nH <= s'.h.get.counter)
          || HasAborted(sent + {st}, Ballot(said.pledges.nH, said.pledges.ballot.value))
      {
        var top := Ballot(said.pledges.nH, said.pledges.ballot.value);
        MoreAborted(sent, st, top);
        if said in sent && s.c.Some? && s'.c.None? && s.c.get.value == top.value && top.counter <= s.h.get.counter {
          VoidAborts(s, action, top);
          assert Aborts(st, top);
          AbortedNow(sent, st, top);
        }
      }
    }
  }

  /** When c is cleared, one of the prepared ballots aborts everything up to h. */
  lemma VoidAborts(s: State, action: Action, top: Ballot)
    requires CanSpeak(s) && s.phase == PREPARE && s.c.Some? && top.value == s.c.get.value && top.counter <= s.h.get.counter
    requires action.ConfirmPrepared? ==> !(s.h.Some? && AtMost(action.newH, s.h.get))
    requires Apply(s, action).c.None?
    ensures var s' := Apply(s, action);
            (s'.p.Some? && LessAndIncompatible(top, s'.p.get)) || (s'.pp.Some? && LessAndIncompatible(top, s'.pp.get))
  {
  }

  lemma MoreAborted(sent: set<Statement>, st: Statement, a: Ballot)
    ensures HasAborted(sent, a) ==> HasAborted(sent + {st}, a)
  {
  }

  lemma AbortedNow(sent: set<Statement>, st: Statement, a: Ballot)
    requires Aborts(st, a)
    ensures HasAborted(sent + {st}, a)
  {
  }

  lemma ReportStep(q: QSet, s: State, envs: Envelopes, action: Action, s': State, sent: set<Statement>, st: Statement)
    requires Steps(q, s, envs, action, s') && st.pledges == PledgesOf(s')
    ensures PreparedReported(s', sent + {st})
  {
    hide Enabled, Apply;
    if s'.phase == PREPARE {
      assert s'.p.Some? ==> HasPreparedBallot(s'.p.get, st);
      assert s'.pp.Some? ==> HasPreparedBallot(s'.pp.get, st);
    }
  }

  lemma ContradictionStep(s': State, sent: set<Statement>, st: Statement)
    requires CanSpeak(s') && st.pledges == PledgesOf(s')
    requires NoContradiction(sent) && BallotsGrow(s', sent + {st}) && VotesStand(s', sent + {st})
    ensures NoContradiction(sent + {st})
  {
    hide HasAborted, HasWantedCommit, HasWantedAbort;
    forall a: Ballot | HasWantedCommit(sent + {st}, a) && HasWantedAbort(sent + {st}, a)
      ensures HasAborted(sent + {st}, a)
    {
      MoreAborted(sent, st, a);
      if HasWantedCommit(sent, a) && HasWantedAbort(sent, a) {
      } else {
        NewConflict(s', sent, st, a);
      }
    }
  }

  /** A conflict that the newest statement takes part in. */
  lemma NewConflict(s': State, sent: set<Statement>, st: Statement, a: Ballot)
    requires CanSpeak(s') && st.pledges == PledgesOf(s')
    requires BallotsGrow(s', sent + {st}) && VotesStand(s', sent + {st})
    requires HasWantedCommit(sent + {st}, a) && HasWantedAbort(sent + {st}, a)
    requires !(HasWantedCommit(sent, a) && HasWantedAbort(sent, a))
    ensures HasAborted(sent + {st}, a)
  {
    hide HasAborted;
    var vote :| vote in sent + {st} && WantsCommit(vote, a);
    var abort :| abort in sent + {st} && WantsAbort(abort, a);
    assert vote == st || abort == st;
    assert s'.phase == PREPARE;
    var top := Ballot(vote.pledges.nH, vote.pledges.ballot.value);
    if vote == st {
      assert false;
    } else {
      assert HasAborted(sent + {st}, top);
      LowerAborted(sent + {st}, top, a);
    }
  }

  lemma LowerAborted(sent: set<Statement>, top: Ballot, a: Ballot)
    requires HasAborted(sent, top) && LessAndCompatible(a, top)
    ensures HasAborted(sent, a)
  {
    var st :| st in sent && Aborts(st, top);
    assert Aborts(st, a);
  }

  /** Every step of the protocol keeps the discipline. */
  lemma DisciplineStep(q: QSet, s: State, envs: Envelopes, action: Action, s': State, sent: set<Statement>, st: Statement)
    requires Disciplined(s, sent) && Steps(q, s, envs, action, s') && st.pledges == PledgesOf(s')
    ensures Disciplined(s', sent + {st})
  {
    hide BallotsGrow, VotesStand, PreparedReported, NoContradiction, Enabled, Apply, PledgesOf;
    GrowStep(q, s, envs, action, s', sent, st);
    StandStep(q, s, envs, action, s', sent, st);
    ReportStep(q, s, envs, action, s', sent, st);
    ContradictionStep(s', sent, st);
  }
}
