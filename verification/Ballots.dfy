/**
 Ballots, statements and the state of one node in the ballot protocol
 (src/scp/BallotProtocol.cpp), with the transitions that its set* methods make
 and the conditions under which its attempt* methods make them.
 */
module Ballots {
  import opened QuorumSets
  import opened Quorums

  datatype Option<T> = None | Some(get: T)

  /** Values are only compared; 0 stands for the empty value. */
  type Value = nat

  datatype Ballot = Ballot(counter: Uint32, value: Value)

  const NO_BALLOT := Ballot(0, 0)

  /** compareBallots(a, b) <= 0. */
  predicate AtMost(a: Ballot, b: Ballot) {
    a.counter < b.counter || (a.counter == b.counter && a.value <= b.value)
  }

  predicate Compatible(a: Ballot, b: Ballot) {
    a.value == b.value
  }

  predicate LessAndCompatible(a: Ballot, b: Ballot) {
    AtMost(a, b) && Compatible(a, b)
  }

  predicate LessAndIncompatible(a: Ballot, b: Ballot) {
    AtMost(a, b) && !Compatible(a, b)
  }

  datatype Pledges =
    | Prepare(ballot: Ballot, prepared: Option<Ballot>, preparedPrime: Option<Ballot>, nC: Uint32, nH: Uint32)
    | Confirm(ballot: Ballot, nPrepared: Uint32, nCommit: Uint32, nH: Uint32)
    | Externalize(commit: Ballot, nH: Uint32)

  datatype Statement = Statement(node: NodeId, qset: QSet, pledges: Pledges)

  /** The quorum set to use for a statement: a node that externalised only needs itself. */
  function QuorumSetOf(st: Statement): QSet {
    if st.pledges.Externalize? then QSet(1, [st.node], []) else st.qset
  }

  // --- what a statement says ------------------------------------------------------

  predicate VotesPrepared(ballot: Ballot, st: Statement) {
    match st.pledges
    case Prepare(b, _, _, _, _) => LessAndCompatible(ballot, b)
    case Confirm(b, _, _, _) => Compatible(ballot, b)
    case Externalize(commit, _) => Compatible(ballot, commit)
  }

  predicate HasPreparedBallot(ballot: Ballot, st: Statement) {
    match st.pledges
    case Prepare(_, p, pp, _, _) =>
      (p.Some? && LessAndCompatible(ballot, p.get)) || (pp.Some? && LessAndCompatible(ballot, pp.get))
    case Confirm(b, nPrepared, _, _) => LessAndCompatible(ballot, Ballot(nPrepared, b.value))
    case Externalize(commit, _) => Compatible(ballot, commit)
  }

  datatype Interval = Interval(first: Uint32, second: Uint32)

  predicate VotesCommit(value: Value, cur: Interval, st: Statement) {
    match st.pledges
    case Prepare(b, _, _, nC, nH) => b.value == value && nC != 0 && nC <= cur.first && cur.second <= nH
    case Confirm(b, _, nCommit, _) => b.value == value && nCommit <= cur.first
    case Externalize(commit, _) => commit.value == value && commit.counter <= cur.first
  }

  predicate CommitPredicate(value: Value, cur: Interval, st: Statement) {
    match st.pledges
    case Prepare(_, _, _, _, _) => false
    case Confirm(b, _, nCommit, nH) => b.value == value && nCommit <= cur.first && cur.second <= nH
    case Externalize(commit, _) => commit.value == value && commit.counter <= cur.first
  }

  // --- the state of a node ----------------------------------------------------------

  datatype Phase = PREPARE | CONFIRM | EXTERNALIZE

  /** b, p, p', h and c of the protocol. */
  datatype State = State(
    phase: Phase, b: Option<Ballot>, p: Option<Ballot>, pp: Option<Ballot>, h: Option<Ballot>, c: Option<Ballot>)

  const INITIAL := State(PREPARE, None, None, None, None, None)

  /** checkInvariants: a state that fails it aborts the node. */
  predicate CheckInvariants(s: State) {
    && (s.b.Some? ==> s.b.get.counter != 0)
    && (s.p.Some? && s.pp.Some? ==> LessAndIncompatible(s.pp.get, s.p.get))
    && (s.c.Some? ==> s.b.Some? && s.h.Some? && LessAndCompatible(s.c.get, s.h.get) && LessAndCompatible(s.h.get, s.b.get))
    && (s.phase != PREPARE ==> s.c.Some?)
  }

  /** A statement can be made: the invariants hold and a CONFIRM has a p to report. */
  predicate CanSpeak(s: State) {
    CheckInvariants(s) && (s.phase == CONFIRM ==> s.p.Some?)
  }

  function Or0(b: Option<Ballot>): Ballot {
    if b.Some? then b.get else NO_BALLOT
  }

  /** createStatement. */
  function PledgesOf(s: State): Pledges
    requires CanSpeak(s)
  {
    match s.phase
    case PREPARE => Prepare(Or0(s.b), s.p, s.pp, Or0(s.c).counter, Or0(s.h).counter)
    case CONFIRM => Confirm(s.b.get, s.p.get.counter, s.c.get.counter, s.h.get.counter)
    case EXTERNALIZE => Externalize(s.c.get, s.h.get.counter)
  }

  // --- transitions --------------------------------------------------------------------

  datatype Action =
    | AcceptPrepared(ballot: Ballot)
    | ConfirmPrepared(newC: Ballot, newH: Ballot)
    | AcceptCommit(low: Ballot, high: Ballot)
    | ConfirmCommit(low: Ballot, high: Ballot)
    | Bump(ballot: Ballot)

  type Envelopes = map<NodeId, Statement>

  ghost predicate Ratified(q: QSet, envs: Envelopes, ballot: Ballot) {
    HasQuorum(q, envs, QuorumSetOf, st => HasPreparedBallot(ballot, st))
  }

  ghost predicate CommitRatified(q: QSet, envs: Envelopes, value: Value, cur: Interval) {
    HasQuorum(q, envs, QuorumSetOf, st => CommitPredicate(value, cur, st))
  }

  ghost predicate PreparedAcceptable(q: QSet, envs: Envelopes, ballot: Ballot) {
    Acceptable(q, envs, QuorumSetOf, st => VotesPrepared(ballot, st), st => HasPreparedBallot(ballot, st))
  }

  ghost predicate CommitAcceptable(q: QSet, envs: Envelopes, value: Value, cur: Interval) {
    Acceptable(q, envs, QuorumSetOf, st => VotesCommit(value, cur, st), st => CommitPredicate(value, cur, st))
  }

  /** The ballot is worth accepting as prepared (attemptPreparedAccept). */
  predicate MayRaisePrepared(s: State, ballot: Ballot) {
    && s.phase != EXTERNALIZE
    && (s.phase == CONFIRM ==> s.p.Some? && LessAndCompatible(s.p.get, ballot))
    && !(s.pp.Some? && AtMost(ballot, s.pp.get))
    && !(s.p.Some? && LessAndCompatible(ballot, s.p.get))
  }

  /** c may be set along with newH (attemptPreparedConfirmed). */
  predicate MaySetCommit(s: State, newH: Ballot) {
    && s.c.None?
    && !(s.p.Some? && LessAndIncompatible(newH, s.p.get))
    && !(s.pp.Some? && LessAndIncompatible(newH, s.pp.get))
  }

  /** When the attempt* methods make a transition. */
  ghost predicate Enabled(q: QSet, s: State, envs: Envelopes, action: Action) {
    match action
    case AcceptPrepared(ballot) => MayRaisePrepared(s, ballot) && PreparedAcceptable(q, envs, ballot)
    case ConfirmPrepared(newC, newH) =>
      && s.phase == PREPARE && s.p.Some?
      && !(s.h.Some? && AtMost(newH, s.h.get))
      && Ratified(q, envs, newH)
      && (newC.counter != 0 ==>
            MaySetCommit(s, newH) && AtMost(Or0(s.b), newC) && AtMost(newC, newH) && Ratified(q, envs, newC))
    case AcceptCommit(low, high) =>
      && s.phase != EXTERNALIZE
      && Compatible(low, high) && 1 <= low.counter <= high.counter
      && (s.phase == CONFIRM ==> s.h.Some? && Compatible(high, s.h.get) && high.counter > s.h.get.counter)
      && CommitAcceptable(q, envs, low.value, Interval(low.counter, high.counter))
    case ConfirmCommit(low, high) =>
      && s.phase == CONFIRM && s.c.Some? && s.h.Some?
      && Compatible(low, s.c.get) && Compatible(low, high) && 1 <= low.counter <= high.counter
      && CommitRatified(q, envs, low.value, Interval(low.counter, high.counter))
    case Bump(ballot) =>
      && s.phase != EXTERNALIZE
      && (s.h.Some? ==> ballot.value == s.h.get.value)
      && (s.b.Some? ==> !AtMost(ballot, s.b.get) && (s.c.Some? ==> Compatible(s.c.get, ballot)))
  }

  /** setPrepared. */
  function SetPrepared(s: State, ballot: Ballot): State {
    if s.p.None? then s.(p := Some(ballot))
    else if AtMost(ballot, s.p.get) then
      if ballot != s.p.get && (s.pp.None? || !AtMost(ballot, s.pp.get)) then s.(pp := Some(ballot)) else s
    else s.(p := Some(ballot), pp := if Compatible(s.p.get, ballot) then s.pp else s.p)
  }

  /** The prepared ballots rule out the ballots that were being committed. */
  predicate CommitIsVoid(s: State) {
    && s.c.Some? && s.h.Some?
    && ((s.p.Some? && LessAndIncompatible(s.h.get, s.p.get)) || (s.pp.Some? && LessAndIncompatible(s.h.get, s.pp.get)))
  }

  /** updateCurrentIfNeeded. */
  function RaiseCurrent(s: State): State
    requires s.h.Some?
  {
    if s.b.None? || !AtMost(s.h.get, s.b.get) then s.(b := s.h) else s
  }

  /** setPreparedAccept, setPreparedConfirmed, setAcceptCommit, setConfirmCommit and bumpToBallot. */
  function Apply(s: State, action: Action): State
    requires action.ConfirmPrepared? ==> !(s.h.Some? && AtMost(action.newH, s.h.get))
  {
    match action
    case AcceptPrepared(ballot) =>
      var s1 := SetPrepared(s, ballot);
      if CommitIsVoid(s1) then s1.(c := None) else s1
    case ConfirmPrepared(newC, newH) =>
      RaiseCurrent(s.(h := Some(newH), c := if newC.counter != 0 then Some(newC) else s.c))
    case AcceptCommit(low, high) =>
      var s1 := s.(c := Some(low), h := Some(high));
      var s2 :=
        if s.phase == PREPARE then
          s1.(phase := CONFIRM, pp := None,
              b := if s.b.Some? && !LessAndCompatible(high, s.b.get) then Some(high) else s.b)
        else s1;
      RaiseCurrent(s2)
    case ConfirmCommit(low, high) => RaiseCurrent(s.(c := Some(low), h := Some(high))).(phase := EXTERNALIZE)
    case Bump(ballot) => s.(b := Some(ballot))
  }

  /** A node takes a step on what it has received and can make a statement afterwards. */
  ghost predicate Steps(q: QSet, s: State, envs: Envelopes, action: Action, s': State) {
    && Enabled(q, s, envs, action)
    && s' == Apply(s, action)
    && CanSpeak(s')
  }
}
