/**
 The object that runs the ballot protocol for one slot at one node
 (src/scp/BallotProtocol.cpp): each of its attempt* methods either leaves the
 state alone or makes one of the transitions of Ballots.Steps and reports it.
 */
module BallotProtocol {
  import opened QuorumSets
  import opened Quorums
  import opened QuorumSetNormal
  import opened Ballots
  import opened BallotCandidates

  function LowerThan(candidates: set<Ballot>, top: Ballot): set<Ballot> {
    set x | x in candidates && AtMost(x, top) && x != top
  }

  method Highest(ballots: set<Ballot>) returns (top: Ballot)
    requires ballots != {}
    ensures top in ballots && forall x | x in ballots :: AtMost(x, top)
  {
    top :| top in ballots;
    var rest := ballots - {top};
    while rest != {}
      invariant top in ballots && rest <= ballots
      invariant forall x | x in ballots && x !in rest :: AtMost(x, top)
      decreases rest
    {
      var x :| x in rest;
      rest := rest - {x};
      if !AtMost(x, top) {
        top := x;
      }
    }
  }

  // --- the order of statements ---------------------------------------------------------------

  /** compareBallots on optional ballots: -1, 0 or 1, where an absent ballot comes first. */
  function Compare(a: Option<Ballot>, b: Option<Ballot>): int {
    if a.None? || b.None? then (if a.Some? then 1 else 0) - (if b.Some? then 1 else 0)
    else if a == b then 0
    else if AtMost(a.get, b.get) then -1 else 1
  }

  function Rank(p: Pledges): int {
    match p case Prepare(_, _, _, _, _) => 0 case Confirm(_, _, _, _) => 1 case Externalize(_, _) => 2
  }

  /** isNewerStatement: PREPARE before CONFIRM before EXTERNALIZE, then by (b, p, p', h). */
  predicate IsNewer(before: Pledges, now: Pledges) {
    if Rank(before) != Rank(now) then Rank(before) < Rank(now)
    else
      match now
      case Externalize(_, _) => false
      case Confirm(b, nPrepared, _, nH) =>
        || Compare(Some(before.ballot), Some(b)) < 0
        || (before.ballot == b &&
            (before.nPrepared < nPrepared || (before.nPrepared == nPrepared && before.nH < nH)))
      case Prepare(b, p, pp, _, nH) =>
        || Compare(Some(before.ballot), Some(b)) < 0
        || (before.ballot == b && Compare(before.prepared, p) < 0)
        || (before.ballot == b && before.prepared == p && Compare(before.preparedPrime, pp) < 0)
        || (before.ballot == b && before.prepared == p && before.preparedPrime == pp && before.nH < nH)
  }

  lemma CompareTransitive(a: Option<Ballot>, b: Option<Ballot>, c: Option<Ballot>)
    ensures Compare(a, b) < 0 && Compare(b, c) < 0 ==> Compare(a, c) < 0
    ensures Compare(a, a) == 0
  {
  }

  /** Newer is a strict order: statements of one node cannot supersede each other in a circle. */
  lemma NewerIsStrictOrder(x: Pledges, y: Pledges, z: Pledges)
    ensures !IsNewer(x, x)
    ensures IsNewer(x, y) && IsNewer(y, z) ==> IsNewer(x, z)
  {
    hide Compare;
    if Rank(x) == Rank(y) == Rank(z) && !z.Externalize? {
      CompareTransitive(Some(x.ballot), Some(y.ballot), Some(z.ballot));
    }
    if Rank(x) == Rank(y) == Rank(z) && z.Prepare? {
      CompareTransitive(x.prepared, y.prepared, z.prepared);
      CompareTransitive(x.preparedPrime, y.preparedPrime, z.preparedPrime);
    }
    if !x.Externalize? {
      CompareTransitive(Some(x.ballot), Some(x.ballot), Some(x.ballot));
    }
    if x.Prepare? {
      CompareTransitive(x.prepared, x.prepared, x.prepared);
      CompareTransitive(x.preparedPrime, x.preparedPrime, x.preparedPrime);
    }
  }

  /** isStatementSane, but for the quorum set. */
  predicate SanePledges(p: Pledges, self: bool) {
    match p
    case Prepare(b, prepared, preparedPrime, nC, nH) =>
      && (self || b.counter > 0)
      && (prepared.Some? && preparedPrime.Some? ==> LessAndIncompatible(preparedPrime.get, prepared.get))
      && (nH == 0 || (prepared.Some? && nH <= prepared.get.counter))
      && (nC == 0 || (nH != 0 && b.counter >= nH >= nC))
    case Confirm(b, _, nCommit, nH) => b.counter > 0 && nCommit <= nH <= b.counter
    case Externalize(commit, nH) => commit.counter > 0 && nH >= commit.counter
  }

  method HighestCounter(counters: set<Uint32>) returns (top: Uint32)
    requires counters != {}
    ensures top in counters && forall x | x in counters :: x <= top
  {
    top :| top in counters;
    var rest := counters - {top};
    while rest != {}
      invariant top in counters && rest <= counters
      invariant forall x | x in counters && x !in rest :: x <= top
      decreases rest
    {
      var x :| x in rest;
      rest := rest - {x};
      if x > top {
        top := x;
      }
    }
  }

  method IsCommittable(q: QSet, envs: Envelopes, confirm: bool, value: Value, cur: Interval) returns (result: bool)
    ensures result <==> Committable(q, envs, confirm, value, cur)
  {
    hide HasQuorum, Acceptable;
    if confirm {
      result := FederatedRatify(q, envs, QuorumSetOf, st => CommitPredicate(value, cur, st));
    } else {
      result := FederatedAccept(q, envs, QuorumSetOf,
                                st => VotesCommit(value, cur, st), st => CommitPredicate(value, cur, st));
    }
  }

  /**
   findExtendedInterval: the highest single counter that can be committed, extended
   downwards over the boundaries as far as the whole interval can be committed.
   */
  method FindExtendedInterval(q: QSet, envs: Envelopes, confirm: bool, value: Value, boundaries: set<Uint32>)
    returns (candidate: Interval)
    ensures candidate.first != 0 ==>
              && candidate.first <= candidate.second
              && candidate.first in boundaries && candidate.second in boundaries
              && Committable(q, envs, confirm, value, candidate)
              && (forall x | x in boundaries && x > candidate.second :: !Committable(q, envs, confirm, value, Interval(x, x)))
              && forall x | IsNextBelow(boundaries, candidate.first, x) ::
                   !Committable(q, envs, confirm, value, Interval(x, candidate.second))
    ensures candidate == Interval(0, 0) ==>
              forall x | x in boundaries && x > 0 :: !Committable(q, envs, confirm, value, Interval(x, x))
    ensures candidate.first == 0 < candidate.second ==>
              0 in boundaries && candidate.second in boundaries && Committable(q, envs, confirm, value, candidate)
  {
    hide Committable;
    candidate := Interval(0, 0);
    var rest := boundaries;
    while rest != {}
      invariant rest <= boundaries
      invariant candidate == Interval(0, 0) ==>
                  forall x | x in boundaries && x !in rest && x != 0 :: !Committable(q, envs, confirm, value, Interval(x, x))
      invariant candidate.first == 0 < candidate.second ==>
                  && rest == {} && 0 in boundaries && candidate.second in boundaries
                  && Committable(q, envs, confirm, value, candidate)
      invariant candidate.first != 0 ==>
                  && candidate.first <= candidate.second
                  && candidate.first in boundaries && candidate.second in boundaries
                  && Committable(q, envs, confirm, value, candidate)
                  && candidate.first !in rest && (forall x | x in rest :: x <= candidate.first)
                  && (forall x | x in boundaries && x !in rest :: x >= candidate.first)
                  && forall x | x in boundaries && x > candidate.second :: !Committable(q, envs, confirm, value, Interval(x, x))
      invariant forall x, y | x in rest && y in boundaries && y !in rest :: x <= y
      decreases rest
    {
      var b := HighestCounter(rest);
      rest := rest - {b};
      var cur: Interval;
      if candidate.first == 0 {
        cur := Interval(b, b);
      } else if b > candidate.second {
        continue;
      } else {
        cur := Interval(b, candidate.second);
      }
      var met := IsCommittable(q, envs, confirm, value, cur);
      if met {
        candidate := cur;
      } else if candidate.first != 0 {
        break;
      }
    }
  }

  // --- the node -----------------------------------------------------------------------------------

  /** The state can be reported: it is consistent, and the statement is known or a sane, newer one. */
  predicate MaySay(id: NodeId, q: QSet, latest: Envelopes, s: State) {
    && CanSpeak(s)
    && var st := Statement(id, q, PledgesOf(s));
       || (id in latest && latest[id] == st)
       || (&& ThresholdsOk(QuorumSetOf(st), false) && Distinct(Flat(QuorumSetOf(st)))
           && SanePledges(st.pledges, true)
           && (id in latest ==> IsNewer(latest[id].pledges, st.pledges)))
  }

  /** A transition that one of the node's own checks stops. */
  predicate Stops(id: NodeId, q: QSet, latest: Envelopes, s: State, action: Action)
    requires action.ConfirmPrepared? ==> !(s.h.Some? && AtMost(action.newH, s.h.get))
  {
    || (action.AcceptPrepared? && s.phase != PREPARE && CommitIsVoid(Ballots.SetPrepared(s, action.ballot)))
    || !MaySay(id, q, latest, Apply(s, action))
  }

  // --- the turns of a call -------------------------------------------------------------------------

  /** A state and the latest statements. */
  datatype Turn = Turn(state: State, envs: Envelopes)

  /** The node takes a transition and records its statement, or stays where it is. */
  ghost predicate Passes(id: NodeId, q: QSet, t: Turn, action: Option<Action>, t': Turn) {
    if action.None? then t' == t
    else
      && Steps(q, t.state, t.envs, action.get, t'.state)
      && t'.envs == t.envs[id := Statement(id, q, PledgesOf(t'.state))]
  }

  /** It accepts the highest offered ballot as prepared. */
  ghost predicate AcceptsPrepared(q: QSet, hint: Statement, t: Turn, action: Option<Action>) {
    && (action.Some? ==> action.get.AcceptPrepared? && OffersPrepared(q, t.state, t.envs, hint, action.get.ballot))
    && (Fresh(hint, t.envs) ==>
          forall x | OffersPrepared(q, t.state, t.envs, hint, x) :: action.Some? && AtMost(x, action.get.ballot))
  }

  /** It confirms the highest offered ballot as prepared. */
  ghost predicate ConfirmsPrepared(q: QSet, hint: Statement, t: Turn, action: Option<Action>) {
    && (action.Some? ==> action.get.ConfirmPrepared? && OffersConfirmed(q, t.state, t.envs, hint, action.get.newH))
    && (Fresh(hint, t.envs) ==>
          forall x | OffersConfirmed(q, t.state, t.envs, hint, x) :: action.Some? && AtMost(x, action.get.newH))
  }

  /** It accepts an offered interval as committed that ends as high as any. */
  ghost predicate AcceptsCommit(q: QSet, hint: Statement, t: Turn, action: Option<Action>) {
    if action.None? then
      forall value: Value, cur: Interval | OffersAccept(q, t.state, t.envs, hint, value, cur) ::
        ReachesZero(q, t.envs, false, value)
    else
      && action.get.AcceptCommit? && action.get.low.value == action.get.high.value
      && var value, cur := action.get.low.value, Interval(action.get.low.counter, action.get.high.counter);
         OffersAccept(q, t.state, t.envs, hint, value, cur) && Widest(q, t.envs, false, value, cur)
  }

  /** It confirms an offered interval as committed that ends as high as any. */
  ghost predicate ConfirmsCommit(q: QSet, hint: Statement, t: Turn, action: Option<Action>) {
    if action.None? then
      forall cur: Interval | OffersExternalize(q, t.state, t.envs, hint, cur) ::
        t.state.c.Some? && ReachesZero(q, t.envs, true, t.state.c.get.value)
    else
      && action.get.ConfirmCommit? && action.get.low.value == action.get.high.value
      && t.state.c.Some? && t.state.c.get.value == action.get.low.value
      && var cur := Interval(action.get.low.counter, action.get.high.counter);
         OffersExternalize(q, t.state, t.envs, hint, cur) && Widest(q, t.envs, true, action.get.low.value, cur)
  }

  ghost predicate Advances(id: NodeId, q: QSet, hint: Statement, turns: seq<Turn>, taken: seq<Option<Action>>) {
    && |turns| == 5 && |taken| == 4
    && Passes(id, q, turns[0], taken[0], turns[1]) && AcceptsPrepared(q, hint, turns[0], taken[0])
    && Passes(id, q, turns[1], taken[1], turns[2]) && ConfirmsPrepared(q, hint, turns[1], taken[1])
    && Passes(id, q, turns[2], taken[2], turns[3]) && AcceptsCommit(q, hint, turns[2], taken[2])
    && Passes(id, q, turns[3], taken[3], turns[4]) && ConfirmsCommit(q, hint, turns[3], taken[3])
  }

  function Actions(taken: seq<Option<Action>>): seq<Action> {
    if taken == [] then []
    else Actions(taken[..|taken| - 1]) + (if taken[|taken| - 1].Some? then [taken[|taken| - 1].get] else [])
  }

  class Node {
    const id: NodeId
    const qset: QSet
    var phase: Phase
    var b: Option<Ballot>
    var p: Option<Ballot>
    var pp: Option<Ballot>
    var h: Option<Ballot>
    var c: Option<Ballot>
    var latest: Envelopes
    /** A failed check or an exception has stopped the node. */
    var aborted: bool

    function View(): State
      reads this
    {
      State(phase, b, p, pp, h, c)
    }

    constructor (id: NodeId, qset: QSet)
      ensures this.id == id && this.qset == qset && Valid() && View() == INITIAL && latest == map[]
    {
      this.id, this.qset := id, qset;
      phase := PREPARE;
      b, p, pp, h, c := None, None, None, None, None;
      latest := map[];
      aborted := false;
    }

    /** Nothing happened. */
    twostate predicate Idle()
      reads this
    {
      View() == old(View()) && latest == old(latest) && aborted == old(aborted)
    }

    /** The node runs, and its state is consistent. */
    predicate Valid()
      reads this
    {
      !aborted && (View() == INITIAL || CanSpeak(View()))
    }

    /**
     The node made the transition and recorded its own statement about it, unless
     one of its own checks stopped it.
     */
    twostate predicate Moved(action: Action)
      reads this
    {
      && Enabled(qset, old(View()), old(latest), action)
      && aborted == Stops(id, qset, old(latest), old(View()), action)
      && (!aborted ==>
            && Steps(qset, old(View()), old(latest), action, View())
            && latest == old(latest)[id := Statement(id, qset, PledgesOf(View()))])
    }

    // --- setting the state ---------------------------------------------------------------

    method SetPrepared(ballot: Ballot) returns (didWork: bool)
      modifies this`p, this`pp
      ensures View() == Ballots.SetPrepared(old(View()), ballot)
      ensures didWork <==> View() != old(View())
    {
      didWork := false;
      if p.Some? {
        if !AtMost(ballot, p.get) {
          if !Compatible(p.get, ballot) {
            pp := p;
          }
          p := Some(ballot);
          didWork := true;
        } else if ballot != p.get {
          if pp.None? || !AtMost(ballot, pp.get) {
            pp := Some(ballot);
            didWork := true;
          }
        }
      } else {
        p := Some(ballot);
        didWork := true;
      }
    }

    /** emitCurrentStateStatement, up to the processing of the node's own statement. */
    method EmitCurrentState()
      requires !aborted
      modifies this`latest, this`aborted
      ensures aborted == !MaySay(id, qset, old(latest), View())
      ensures !aborted ==> CanSpeak(View()) && latest == old(latest)[id := Statement(id, qset, PledgesOf(View()))]
    {
      if !CanSpeak(View()) {
        aborted := true;
        return;
      }
      var st := Statement(id, qset, PledgesOf(View()));
      if id !in latest || latest[id] != st {
        var sane := IsQuorumSetSane(QuorumSetOf(st), false);
        if sane && SanePledges(st.pledges, true) && (id !in latest || IsNewer(latest[id].pledges, st.pledges)) {
          latest := latest[id := st];
        } else {
          aborted := true;
        }
      }
    }

    method UpdateCurrentIfNeeded()
      requires h.Some?
      modifies this`b
      ensures View() == RaiseCurrent(old(View()))
    {
      if b.None? || !AtMost(h.get, b.get) {
        b := h;
      }
    }

    method SetPreparedAccept(ballot: Ballot)
      requires Valid() && MayRaisePrepared(View(), ballot) && PreparedAcceptable(qset, latest, ballot)
      modifies this
      ensures Moved(AcceptPrepared(ballot))
    {
      hide PreparedAcceptable, MaySay, PledgesOf;
      var didWork := SetPrepared(ballot);
      if c.Some? && h.Some? {
        if (p.Some? && LessAndIncompatible(h.get, p.get)) || (pp.Some? && LessAndIncompatible(h.get, pp.get)) {
          if phase != PREPARE {
            aborted := true;
            return;
          }
          c := None;
          didWork := true;
        }
      }
      if didWork {
        EmitCurrentState();
      }
    }

    method SetPreparedConfirmed(newC: Ballot, newH: Ballot)
      requires Valid() && Enabled(qset, View(), latest, ConfirmPrepared(newC, newH))
      modifies this
      ensures Moved(ConfirmPrepared(newC, newH))
    {
      hide Ratified, MaySay, PledgesOf;
      var didWork := false;
      if h.None? || !AtMost(newH, h.get) {
        didWork := true;
        h := Some(newH);
      }
      if newC.counter != 0 {
        c := Some(newC);
        didWork := true;
      }
      if didWork {
        UpdateCurrentIfNeeded();
        EmitCurrentState();
      }
    }

    method SetAcceptCommit(low: Ballot, high: Ballot)
      requires Valid() && Enabled(qset, View(), latest, AcceptCommit(low, high))
      modifies this
      ensures Moved(AcceptCommit(low, high))
    {
      hide CommitAcceptable, MaySay, PledgesOf;
      var didWork := false;
      if h.None? || c.None? || h.get != high || c.get != low {
        c := Some(low);
        h := Some(high);
        didWork := true;
      }
      if phase == PREPARE {
        phase := CONFIRM;
        if b.Some? && !LessAndCompatible(high, b.get) {
          b := Some(high);
        }
        pp := None;
        didWork := true;
      }
      if didWork {
        UpdateCurrentIfNeeded();
        EmitCurrentState();
      }
    }

    method SetConfirmCommit(low: Ballot, high: Ballot)
      requires Valid() && Enabled(qset, View(), latest, ConfirmCommit(low, high))
      modifies this
      ensures Moved(ConfirmCommit(low, high))
    {
      hide CommitRatified, MaySay, PledgesOf;
      c := Some(low);
      h := Some(high);
      UpdateCurrentIfNeeded();
      phase := EXTERNALIZE;
      EmitCurrentState();
    }

    // --- trying to make progress -----------------------------------------------------------

    /** Accepts the highest candidate that can be accepted as prepared, if there is one. */
    method AttemptPreparedAccept(hint: Statement) returns (didWork: bool, ghost action: Action)
      requires Valid()
      modifies this
      ensures didWork ==> Moved(action)
      ensures didWork ==>
                && action.AcceptPrepared? && action.ballot in PrepareCandidates(hint, old(latest))
                && forall x | x in PrepareCandidates(hint, old(latest)) && !AtMost(x, action.ballot) ::
                     !(MayRaisePrepared(old(View()), x) && PreparedAcceptable(qset, old(latest), x))
      ensures !didWork && aborted ==> phase == CONFIRM && c.Some? && p.Some? && !Compatible(c.get, p.get)
      ensures !didWork && !aborted ==>
                && Idle()
                && forall x | x in PrepareCandidates(hint, latest) ::
                     !(MayRaisePrepared(View(), x) && PreparedAcceptable(qset, latest, x))
      ensures didWork ==> OffersPrepared(qset, old(View()), old(latest), hint, action.ballot)
      ensures Fresh(hint, old(latest)) && (didWork || !aborted) ==>
                forall x | OffersPrepared(qset, old(View()), old(latest), hint, x) :: didWork && AtMost(x, action.ballot)
    {
      hide PreparedAcceptable, Steps, PrepareCandidates, Acceptable, OffersPrepared, Backs;
      action := AcceptPrepared(NO_BALLOT);
      if phase != PREPARE && phase != CONFIRM {
        NoneOffered(qset, View(), latest, hint);
        return false, action;
      }
      var candidates := PrepareCandidates(hint, latest);
      var rest := candidates;
      while rest != {}
        invariant Idle() && rest <= candidates && candidates == PrepareCandidates(hint, latest)
        invariant forall x | x in candidates && x !in rest ::
                    !(MayRaisePrepared(View(), x) && PreparedAcceptable(qset, latest, x))
        decreases rest
      {
        var ballot := Highest(rest);
        rest := rest - {ballot};
        if phase == CONFIRM {
          if !LessAndCompatible(p.get, ballot) {
            continue;
          }
          if !Compatible(c.get, ballot) {
            aborted := true;
            return false, action;
          }
        }
        if pp.Some? && AtMost(ballot, pp.get) {
          continue;
        }
        if p.Some? && LessAndCompatible(ballot, p.get) {
          continue;
        }
        var accepted := AcceptablePrepared(ballot);
        if accepted {
          action := AcceptPrepared(ballot);
          PreparedChoice(qset, View(), latest, hint, ballot);
          SetPreparedAccept(ballot);
          return true, action;
        }
      }
      if Fresh(hint, latest) { PreparedOffers(qset, View(), latest, hint, None); }
      return false, action;
    }

    method AcceptablePrepared(ballot: Ballot) returns (result: bool)
      ensures result <==> PreparedAcceptable(qset, latest, ballot)
    {
      hide Acceptable;
      result := FederatedAccept(qset, latest, QuorumSetOf,
                                st => VotesPrepared(ballot, st), st => HasPreparedBallot(ballot, st));
    }

    method IsRatified(ballot: Ballot) returns (result: bool)
      ensures result <==> Ratified(qset, latest, ballot)
    {
      hide HasQuorum;
      result := FederatedRatify(qset, latest, QuorumSetOf, st => HasPreparedBallot(ballot, st));
    }

    /** Confirms the highest ratified candidate above h, and starts to commit where that is allowed. */
    method AttemptPreparedConfirmed(hint: Statement) returns (didWork: bool, ghost action: Action)
      requires Valid()
      modifies this
      ensures didWork ==> Moved(action)
      ensures !didWork ==>
                && Idle()
                && (phase == PREPARE && p.Some? ==>
                      forall x | x in PrepareCandidates(hint, latest) && Ratified(qset, latest, x) ::
                        h.Some? && AtMost(x, h.get))
      ensures didWork ==>
                && action.ConfirmPrepared? && action.newH in PrepareCandidates(hint, old(latest))
                && (forall x | x in PrepareCandidates(hint, old(latest)) && !AtMost(x, action.newH) ::
                      !Ratified(qset, old(latest), x))
                && (if MaySetCommit(old(View()), action.newH)
                    then IsLow(qset, old(latest), Or0(old(b)), action.newH,
                               LowerThan(PrepareCandidates(hint, old(latest)), action.newH), action.newC)
                    else action.newC == NO_BALLOT)
      ensures didWork ==> OffersConfirmed(qset, old(View()), old(latest), hint, action.newH)
      ensures Fresh(hint, old(latest)) ==>
                forall x | OffersConfirmed(qset, old(View()), old(latest), hint, x) :: didWork && AtMost(x, action.newH)
    {
      hide Ratified, Steps, PrepareCandidates, MaySetCommit, OffersConfirmed, Backs;
      action := ConfirmPrepared(NO_BALLOT, NO_BALLOT);
      if phase != PREPARE || p.None? {
        NoneOffered(qset, View(), latest, hint);
        return false, action;
      }
      var candidates := PrepareCandidates(hint, latest);
      var newH, found, rest := FindHigh(candidates);
      if !found {
        if Fresh(hint, latest) { ConfirmedOffers(qset, View(), latest, hint, None); }
        return false, action;
      }
      ConfirmedChoice(qset, View(), latest, hint, newH);
      var newC := NO_BALLOT;
      AllowsCommit(View(), newH);
      if c.None? && !LessAndIncompatible(newH, p.get) && (pp.None? || !LessAndIncompatible(newH, pp.get)) {
        newC := FindLow(newH, rest);
        LowIsEnabled(qset, latest, Or0(b), newH, rest, newC);
      }
      action := ConfirmPrepared(newC, newH);
      SetPreparedConfirmed(newC, newH);
      return true, action;
    }

    /** The highest ratified ballot above h; `rest` are the candidates below it. */
    method FindHigh(candidates: set<Ballot>) returns (newH: Ballot, found: bool, rest: set<Ballot>)
      ensures found ==>
                && Ratified(qset, latest, newH) && !(h.Some? && AtMost(newH, h.get))
                && newH in candidates && rest == LowerThan(candidates, newH)
                && forall x | x in candidates && !AtMost(x, newH) :: !Ratified(qset, latest, x)
      ensures !found ==> forall x | x in candidates && Ratified(qset, latest, x) :: h.Some? && AtMost(x, h.get)
    {
      hide Ratified;
      newH, found, rest := NO_BALLOT, false, candidates;
      while rest != {}
        invariant rest <= candidates && !found
        invariant forall x | x in candidates && x !in rest :: !Ratified(qset, latest, x)
        invariant forall x, y | x in rest && y in candidates && y !in rest :: AtMost(x, y)
        decreases rest
      {
        var ballot := Highest(rest);
        if h.Some? && AtMost(ballot, h.get) {
          assert forall x | x in rest :: AtMost(x, h.get);
          return;
        }
        rest := rest - {ballot};
        var ratified := IsRatified(ballot);
        if ratified {
          newH, found := ballot, true;
          return;
        }
      }
    }

    /** The lowest ballot, from newH down to b, from which on all candidates are ratified. */
    method FindLow(newH: Ballot, below: set<Ballot>) returns (newC: Ballot)
      requires forall x | x in below :: AtMost(x, newH) && x != newH
      requires Ratified(qset, latest, newH)
      ensures IsLow(qset, latest, Or0(b), newH, below, newC)
    {
      hide Ratified;
      newC := NO_BALLOT;
      var rest := below;
      var ballot := newH;
      if !AtMost(Or0(b), ballot) {
        return;
      }
      newC := ballot;
      while rest != {}
        invariant rest <= below && newC in below + {newH} && newC !in rest
        invariant Ratified(qset, latest, newC) && AtMost(Or0(b), newC)
        invariant forall x | x in rest :: AtMost(x, newC)
        invariant forall x | x in below && x !in rest :: AtMost(newC, x) && Ratified(qset, latest, x)
        decreases rest
      {
        ballot := Highest(rest);
        if !AtMost(Or0(b), ballot) {
          assert forall x | x in rest :: !AtMost(Or0(b), x);
          break;
        }
        var ratified := IsRatified(ballot);
        if !ratified {
          break;
        }
        newC := ballot;
        rest := rest - {ballot};
      }
    }

    /** Accepts an interval of ballots as committed, if one can be accepted. */
    method AttemptAcceptCommit(hint: Statement) returns (didWork: bool, ghost action: Action)
      requires Valid()
      modifies this
      ensures didWork ==> Moved(action)
      ensures !didWork ==> Idle()
      ensures !didWork && phase != EXTERNALIZE && HintValue(hint, false).Some? ==>
                var value := HintValue(hint, false).get;
                && (phase == CONFIRM ==> h.Some?)
                && (|| (phase == CONFIRM && value != h.get.value)
                    || ReachesZero(qset, latest, false, value)
                    || NothingToCommit(qset, latest, false, value, if phase == CONFIRM then h.get.counter else 0))
      ensures didWork ==>
                && action.AcceptCommit? && action.low.value == action.high.value
                && OffersAccept(qset, old(View()), old(latest), hint, action.low.value,
                                Interval(action.low.counter, action.high.counter))
                && Widest(qset, old(latest), false, action.low.value, Interval(action.low.counter, action.high.counter))
    {
      hide CommitAcceptable, CommitBoundaries, Steps, Committable, OffersAccept, CommitsTo, Mentioned;
      hide NothingToCommit, ReachesZero, Widest;
      action := AcceptCommit(NO_BALLOT, NO_BALLOT);
      if phase != PREPARE && phase != CONFIRM {
        return false, action;
      }
      if HintValue(hint, false).None? {
        return false, action;
      }
      var value := HintValue(hint, false).get;
      if phase == CONFIRM {
        if value != h.get.value {
          return false, action;
        }
      }
      var boundaries := CommitBoundaries(value, latest);
      BoundariesSuffice(qset, latest, false, value, if phase == CONFIRM then h.get.counter else 0);
      if boundaries == {} {
        return false, action;
      }
      var candidate := FindExtendedInterval(qset, latest, false, value, boundaries);
      Searched(qset, latest, false, value, candidate);
      if candidate.first != 0 {
        if phase != CONFIRM || candidate.second > h.get.counter {
          CommittableMeans(qset, latest, value, candidate);
          AcceptChoice(qset, View(), latest, hint, value, candidate);
          action := AcceptCommit(Ballot(candidate.first, value), Ballot(candidate.second, value));
          SetAcceptCommit(Ballot(candidate.first, value), Ballot(candidate.second, value));
          return true, action;
        }
      }
      return false, action;
    }

    /** Externalises, if an interval of ballots is confirmed as committed. */
    method AttemptConfirmCommit(hint: Statement) returns (didWork: bool, ghost action: Action)
      requires Valid()
      modifies this
      ensures didWork ==> Moved(action)
      ensures !didWork ==> Idle()
      ensures !didWork && phase == CONFIRM && c.Some? && HintValue(hint, true) == Some(c.get.value) ==>
                || ReachesZero(qset, latest, true, c.get.value)
                || NothingToCommit(qset, latest, true, c.get.value, 0)
      ensures didWork ==>
                && action.ConfirmCommit? && old(c).Some? && action.low.value == action.high.value == old(c).get.value
                && OffersExternalize(qset, old(View()), old(latest), hint, Interval(action.low.counter, action.high.counter))
                && Widest(qset, old(latest), true, action.low.value, Interval(action.low.counter, action.high.counter))
    {
      hide CommitRatified, CommitBoundaries, Steps, Committable, OffersExternalize, CommitsTo, Mentioned;
      hide NothingToCommit, ReachesZero, Widest;
      action := ConfirmCommit(NO_BALLOT, NO_BALLOT);
      if phase != CONFIRM || h.None? || c.None? || HintValue(hint, true).None? {
        return false, action;
      }
      var value := HintValue(hint, true).get;
      if value != c.get.value {
        return false, action;
      }
      var boundaries := CommitBoundaries(value, latest);
      BoundariesSuffice(qset, latest, true, value, 0);
      var candidate := FindExtendedInterval(qset, latest, true, value, boundaries);
      Searched(qset, latest, true, value, candidate);
      if candidate.first != 0 {
        CommittableMeans(qset, latest, value, candidate);
        ExternalizeChoice(qset, View(), latest, hint, candidate);
        action := ConfirmCommit(Ballot(candidate.first, value), Ballot(candidate.second, value));
        SetConfirmCommit(Ballot(candidate.first, value), Ballot(candidate.second, value));
        return true, action;
      }
      return false, action;
    }

    /** Where the node stands. */
    function Here(): Turn
      reads this
    {
      Turn(View(), latest)
    }

    /** attemptPreparedAccept as a turn of advanceSlot. */
    method TurnAcceptPrepared(hint: Statement) returns (ghost action: Option<Action>)
      requires Valid()
      modifies this
      ensures !aborted ==> Valid() && Passes(id, qset, old(Here()), action, Here())
      ensures !aborted ==> AcceptsPrepared(qset, hint, old(Here()), action)
    {
      hide Steps, CanSpeak, Enabled, Stops, PledgesOf, OffersPrepared, PrepareCandidates;
      var didWork;
      ghost var a;
      didWork, a := AttemptPreparedAccept(hint);
      action := if didWork then Some(a) else None;
      if didWork && !aborted { StepsSpeak(qset, old(View()), old(latest), a, View()); }
    }

    method TurnConfirmPrepared(hint: Statement) returns (ghost action: Option<Action>)
      requires Valid()
      modifies this
      ensures !aborted ==> Valid() && Passes(id, qset, old(Here()), action, Here())
      ensures !aborted ==> ConfirmsPrepared(qset, hint, old(Here()), action)
    {
      hide Steps, CanSpeak, Enabled, Stops, PledgesOf, OffersConfirmed, PrepareCandidates;
      var didWork;
      ghost var a;
      didWork, a := AttemptPreparedConfirmed(hint);
      action := if didWork then Some(a) else None;
      if didWork && !aborted { StepsSpeak(qset, old(View()), old(latest), a, View()); }
    }

    method TurnAcceptCommit(hint: Statement) returns (ghost action: Option<Action>)
      requires Valid()
      modifies this
      ensures !aborted ==> Valid() && Passes(id, qset, old(Here()), action, Here())
      ensures !aborted ==> AcceptsCommit(qset, hint, old(Here()), action)
    {
      hide Steps, CanSpeak, Enabled, Stops, PledgesOf, OffersAccept, NothingToCommit, ReachesZero, HintValue, Widest;
      var didWork;
      ghost var a;
      didWork, a := AttemptAcceptCommit(hint);
      action := if didWork then Some(a) else None;
      if didWork {
        if !aborted { StepsSpeak(qset, old(View()), old(latest), a, View()); }
      } else {
        forall value: Value, cur: Interval | OffersAccept(qset, View(), latest, hint, value, cur)
          ensures ReachesZero(qset, latest, false, value)
        {
          AcceptOffer(qset, View(), latest, hint, value, cur);
        }
      }
    }

    method TurnConfirmCommit(hint: Statement) returns (ghost action: Option<Action>)
      requires Valid()
      modifies this
      ensures !aborted ==> Valid() && Passes(id, qset, old(Here()), action, Here())
      ensures !aborted ==> ConfirmsCommit(qset, hint, old(Here()), action)
      ensures !aborted && action.Some? ==> phase == EXTERNALIZE
    {
      hide Steps, CanSpeak, Enabled, Stops, PledgesOf, OffersExternalize, NothingToCommit, ReachesZero, HintValue, Widest;
      var didWork;
      ghost var a;
      didWork, a := AttemptConfirmCommit(hint);
      action := if didWork then Some(a) else None;
      if didWork {
        if !aborted { StepsSpeak(qset, old(View()), old(latest), a, View()); }
      } else {
        forall cur: Interval | OffersExternalize(qset, View(), latest, hint, cur)
          ensures c.Some? && ReachesZero(qset, latest, true, c.get.value)
        {
          ExternalizeOffer(qset, View(), latest, hint, cur);
        }
      }
    }

    /**
     The steps of the protocol in order: in each turn the node takes what is offered, and the
     highest there is. Whatever happens is a chain of transitions, and on return no interval of
     the value it has committed is left to be confirmed.
     */
    method AdvanceSlot(hint: Statement) returns (ghost turns: seq<Turn>, ghost taken: seq<Option<Action>>)
      requires Valid()
      modifies this
      ensures !aborted ==>
                && Valid() && Advances(id, qset, hint, turns, taken) && turns[0] == old(Here()) && turns[4] == Here()
                && Chain(id, qset, old(View()), old(latest), Actions(taken), View(), latest)
      ensures !aborted && phase == CONFIRM ==>
                && c.Some?
                && (CommitsTo(hint, c.get.value, true) ==>
                      NothingToCommit(qset, latest, true, c.get.value, 0) || ReachesZero(qset, latest, true, c.get.value))
    {
      hide Steps, CanSpeak, AcceptsPrepared, ConfirmsPrepared, AcceptsCommit, ConfirmsCommit, Actions;
      hide NothingToCommit, ReachesZero, CommitsTo, Advances, Chain;
      turns, taken := [], [];
      ghost var t0 := Here();
      ghost var a0 := TurnAcceptPrepared(hint);
      if aborted { return; }
      ghost var t1 := Here();
      ghost var a1 := TurnConfirmPrepared(hint);
      if aborted { return; }
      ghost var t2 := Here();
      ghost var a2 := TurnAcceptCommit(hint);
      if aborted { return; }
      ghost var t3 := Here();
      ghost var a3 := TurnConfirmCommit(hint);
      if aborted { return; }
      turns, taken := [t0, t1, t2, t3, Here()], [a0, a1, a2, a3];
      FourTurns(id, qset, hint, turns, taken);
      if phase == CONFIRM {
        InConfirm(View());
        if CommitsTo(hint, c.get.value, true) { QuietExit(qset, hint, t3); }
      }
    }

    // --- moving to another ballot -----------------------------------------------------------

    /** bumpState with a counter: moves to a higher ballot, of the confirmed value if there is one. */
    method BumpState(value: Value, n: Uint32) returns (updated: bool, ghost action: Action)
      requires Valid()
      modifies this
      ensures updated ==> Moved(action)
      ensures !updated && !aborted ==> Idle()
      ensures !updated && aborted ==>
                phase != EXTERNALIZE && b.Some? && !AtMost(b.get, Ballot(n, if h.Some? then h.get.value else value))
      ensures action == Bump(Ballot(n, if old(h).Some? then old(h).get.value else value))
      ensures updated <==> Enabled(qset, old(View()), old(latest), action)
    {
      hide MaySay, PledgesOf;
      var newb := Ballot(n, if h.Some? then h.get.value else value);
      action := Bump(newb);
      if phase != PREPARE && phase != CONFIRM {
        return false, action;
      }
      if b.Some? {
        if !AtMost(b.get, newb) {
          aborted := true;
          return false, action;
        }
        if c.Some? && !Compatible(c.get, newb) {
          return false, action;
        }
        if AtMost(newb, b.get) {
          return false, action;
        }
      }
      b := Some(newb);
      EmitCurrentState();
      return true, action;
    }
  }

  /** A chain of transitions, each on the envelopes that the one before left. */
  ghost predicate Chain(id: NodeId, q: QSet, s: State, envs: Envelopes, actions: seq<Action>, s': State, envs': Envelopes)
    decreases |actions|
  {
    if actions == [] then s == s' && envs == envs'
    else
      exists s1: State ::
        && Steps(q, s, envs, actions[0], s1)
        && Chain(id, q, s1, envs[id := Statement(id, q, PledgesOf(s1))], actions[1..], s', envs')
  }

  lemma {:induction false} ChainStep(id: NodeId, q: QSet, s: State, envs: Envelopes, actions: seq<Action>,
                                     s1: State, envs1: Envelopes, action: Action, s2: State)
    requires Chain(id, q, s, envs, actions, s1, envs1) && Steps(q, s1, envs1, action, s2)
    ensures Chain(id, q, s, envs, actions + [action], s2, envs1[id := Statement(id, q, PledgesOf(s2))])
    decreases |actions|
  {
    hide Enabled, Apply;
    if actions == [] {
      assert ([] + [action])[1..] == [];
      assert Chain(id, q, s2, envs1[id := Statement(id, q, PledgesOf(s2))], [], s2, envs1[id := Statement(id, q, PledgesOf(s2))]);
    } else {
      var s0 :| Steps(q, s, envs, actions[0], s0)
             && Chain(id, q, s0, envs[id := Statement(id, q, PledgesOf(s0))], actions[1..], s1, envs1);
      ChainStep(id, q, s0, envs[id := Statement(id, q, PledgesOf(s0))], actions[1..], s1, envs1, action, s2);
      assert (actions + [action])[1..] == actions[1..] + [action];
    }
  }

  lemma EmptyChain(id: NodeId, q: QSet, s: State, envs: Envelopes)
    ensures Chain(id, q, s, envs, [], s, envs)
  {
  }

  /**
   newC is the lowest of newH and the candidates below it, not below b, such that
   newC and all candidates above it are ratified; there is none if newH is below b.
   */
  ghost predicate IsLow(q: QSet, envs: Envelopes, b: Ballot, newH: Ballot, below: set<Ballot>, newC: Ballot) {
    if !AtMost(b, newH) then newC == NO_BALLOT
    else
      && newC in below + {newH} && AtMost(b, newC) && Ratified(q, envs, newC)
      && (forall x | x in below && AtMost(newC, x) :: Ratified(q, envs, x))
      && (forall x | x in below && !AtMost(newC, x) && AtMost(b, x) ::
            exists y | y in below && AtMost(x, y) && !AtMost(newC, y) :: !Ratified(q, envs, y))
  }

  /** Nothing is offered to a node in the wrong phase. */
  lemma NoneOffered(q: QSet, s: State, envs: Envelopes, hint: Statement)
    ensures s.phase == EXTERNALIZE ==> forall x :: !OffersPrepared(q, s, envs, hint, x)
    ensures s.phase != PREPARE || s.p.None? ==> forall x :: !OffersConfirmed(q, s, envs, hint, x)
  {
    hide PreparedAcceptable, Ratified;
  }

  /** The highest acceptable candidate is offered, and nothing higher is. */
  lemma PreparedChoice(q: QSet, s: State, envs: Envelopes, hint: Statement, ballot: Ballot)
    requires ballot in PrepareCandidates(hint, envs) && MayRaisePrepared(s, ballot) && PreparedAcceptable(q, envs, ballot)
    requires forall x | x in PrepareCandidates(hint, envs) && !AtMost(x, ballot) ::
               !(MayRaisePrepared(s, x) && PreparedAcceptable(q, envs, x))
    ensures OffersPrepared(q, s, envs, hint, ballot)
    ensures Fresh(hint, envs) ==> forall x | OffersPrepared(q, s, envs, hint, x) :: AtMost(x, ballot)
  {
    hide PrepareCandidates, PreparedAcceptable, Backs;
    CandidateBacked(hint, envs, ballot);
    if Fresh(hint, envs) { PreparedOffers(q, s, envs, hint, Some(ballot)); }
  }

  lemma ConfirmedChoice(q: QSet, s: State, envs: Envelopes, hint: Statement, newH: Ballot)
    requires s.phase == PREPARE && s.p.Some?
    requires newH in PrepareCandidates(hint, envs) && !(s.h.Some? && AtMost(newH, s.h.get)) && Ratified(q, envs, newH)
    requires forall x | x in PrepareCandidates(hint, envs) && !AtMost(x, newH) :: !Ratified(q, envs, x)
    ensures OffersConfirmed(q, s, envs, hint, newH)
    ensures Fresh(hint, envs) ==> forall x | OffersConfirmed(q, s, envs, hint, x) :: AtMost(x, newH)
  {
    hide PrepareCandidates, Ratified, Backs;
    CandidateBacked(hint, envs, newH);
    if Fresh(hint, envs) { ConfirmedOffers(q, s, envs, hint, Some(newH)); }
  }

  lemma StepsSpeak(q: QSet, s: State, envs: Envelopes, action: Action, s': State)
    requires Steps(q, s, envs, action, s')
    ensures CanSpeak(s') && (action.ConfirmCommit? ==> s'.phase == EXTERNALIZE)
  {
    hide Enabled, CanSpeak;
  }

  /** An offered interval is one of those that the attempt looks for. */
  lemma AcceptOffer(q: QSet, s: State, envs: Envelopes, hint: Statement, value: Value, cur: Interval)
    requires OffersAccept(q, s, envs, hint, value, cur)
    ensures s.phase != EXTERNALIZE && HintValue(hint, false) == Some(value)
    ensures s.phase == CONFIRM ==> s.h.Some? && s.h.get.value == value
    ensures !NothingToCommit(q, envs, false, value, if s.phase == CONFIRM then s.h.get.counter else 0)
  {
    hide CommitAcceptable, CommitsTo, Mentioned;
    HintValueIs(hint, value, false);
    assert Committable(q, envs, false, value, cur);
  }

  lemma ExternalizeOffer(q: QSet, s: State, envs: Envelopes, hint: Statement, cur: Interval)
    requires OffersExternalize(q, s, envs, hint, cur)
    ensures s.phase == CONFIRM && s.c.Some? && HintValue(hint, true) == Some(s.c.get.value)
    ensures !NothingToCommit(q, envs, true, s.c.get.value, 0)
  {
    hide CommitRatified, CommitsTo, Mentioned;
    HintValueIs(hint, s.c.get.value, true);
    assert Committable(q, envs, true, s.c.get.value, cur);
  }

  lemma InConfirm(s: State)
    requires s.phase == CONFIRM && CanSpeak(s)
    ensures s.c.Some?
  {
  }

  /** When the last turn is passed, nothing is left to be confirmed. */
  lemma QuietExit(q: QSet, hint: Statement, t: Turn)
    requires ConfirmsCommit(q, hint, t, None) && t.state.phase == CONFIRM && t.state.c.Some?
    requires CommitsTo(hint, t.state.c.get.value, true)
    ensures NothingToCommit(q, t.envs, true, t.state.c.get.value, 0) || ReachesZero(q, t.envs, true, t.state.c.get.value)
  {
    hide Mentioned, CommitRatified, ReachesZero, CommitsTo;
    var value := t.state.c.get.value;
    if !NothingToCommit(q, t.envs, true, value, 0) {
      var cur: Interval :| cur.first <= cur.second && cur.second > 0 && Mentioned(t.envs, value, cur.second)
                        && Committable(q, t.envs, true, value, cur);
      assert OffersExternalize(q, t.state, t.envs, hint, cur);
    }
  }

  lemma PassesChain(id: NodeId, q: QSet, t0: Turn, taken: seq<Option<Action>>, t: Turn, action: Option<Action>, t': Turn)
    requires Chain(id, q, t0.state, t0.envs, Actions(taken), t.state, t.envs) && Passes(id, q, t, action, t')
    ensures Chain(id, q, t0.state, t0.envs, Actions(taken + [action]), t'.state, t'.envs)
  {
    hide Chain, Steps;
    assert (taken + [action])[..|taken|] == taken;
    if action.Some? {
      ChainStep(id, q, t0.state, t0.envs, Actions(taken), t.state, t.envs, action.get, t'.state);
    } else {
      assert Actions(taken) + [] == Actions(taken);
    }
  }

  lemma FourTurns(id: NodeId, q: QSet, hint: Statement, turns: seq<Turn>, taken: seq<Option<Action>>)
    requires |turns| == 5 && |taken| == 4
    requires Passes(id, q, turns[0], taken[0], turns[1]) && AcceptsPrepared(q, hint, turns[0], taken[0])
    requires Passes(id, q, turns[1], taken[1], turns[2]) && ConfirmsPrepared(q, hint, turns[1], taken[1])
    requires Passes(id, q, turns[2], taken[2], turns[3]) && AcceptsCommit(q, hint, turns[2], taken[2])
    requires Passes(id, q, turns[3], taken[3], turns[4]) && ConfirmsCommit(q, hint, turns[3], taken[3])
    ensures Advances(id, q, hint, turns, taken)
    ensures Chain(id, q, turns[0].state, turns[0].envs, Actions(taken), turns[4].state, turns[4].envs)
  {
    hide Chain, Passes, AcceptsPrepared, ConfirmsPrepared, AcceptsCommit, ConfirmsCommit, Actions;
    NoActions();
    EmptyChain(id, q, turns[0].state, turns[0].envs);
    PassesChain(id, q, turns[0], [], turns[0], taken[0], turns[1]);
    assert [] + [taken[0]] == taken[..1];
    PassesChain(id, q, turns[0], taken[..1], turns[1], taken[1], turns[2]);
    assert taken[..1] + [taken[1]] == taken[..2];
    PassesChain(id, q, turns[0], taken[..2], turns[2], taken[2], turns[3]);
    assert taken[..2] + [taken[2]] == taken[..3];
    PassesChain(id, q, turns[0], taken[..3], turns[3], taken[3], turns[4]);
    assert taken[..3] + [taken[3]] == taken;
  }

  lemma NoActions()
    ensures Actions([]) == []
  {
  }

  /** What the search for an interval says about all intervals. */
  lemma Searched(q: QSet, envs: Envelopes, confirm: bool, value: Value, candidate: Interval)
    requires candidate.first == 0 < candidate.second ==>
               candidate.second in CommitBoundaries(value, envs) && Committable(q, envs, confirm, value, candidate)
    requires candidate.first != 0 ==>
               && candidate.first <= candidate.second
               && (forall x | x in CommitBoundaries(value, envs) && x > candidate.second ::
                     !Committable(q, envs, confirm, value, Interval(x, x)))
               && forall x | IsNextBelow(CommitBoundaries(value, envs), candidate.first, x) ::
                    !Committable(q, envs, confirm, value, Interval(x, candidate.second))
    ensures candidate.first == 0 < candidate.second ==> ReachesZero(q, envs, confirm, value)
    ensures candidate.first != 0 ==> Widest(q, envs, confirm, value, candidate)
  {
    hide Committable, CommitBoundaries, Mentioned, NothingToCommit, NothingLower, IsNextBelow;
    if candidate.first == 0 < candidate.second {
      BoundaryMentioned(envs, value, candidate.second);
    }
    BoundariesSuffice(q, envs, confirm, value, candidate.second);
    if candidate.first != 0 {
      LowestBoundary(q, envs, confirm, value, candidate);
    }
  }

  lemma AcceptChoice(q: QSet, s: State, envs: Envelopes, hint: Statement, value: Value, cur: Interval)
    requires s.phase != EXTERNALIZE && HintValue(hint, false) == Some(value)
    requires s.phase == CONFIRM ==> s.h.Some? && s.h.get.value == value && cur.second > s.h.get.counter
    requires 0 < cur.first <= cur.second && cur.second in CommitBoundaries(value, envs) && CommitAcceptable(q, envs, value, cur)
    ensures OffersAccept(q, s, envs, hint, value, cur)
  {
    hide CommitAcceptable, CommitBoundaries, Mentioned, CommitsTo;
    HintValueIs(hint, value, false);
    BoundaryMentioned(envs, value, cur.second);
  }

  lemma ExternalizeChoice(q: QSet, s: State, envs: Envelopes, hint: Statement, cur: Interval)
    requires s.phase == CONFIRM && s.c.Some? && HintValue(hint, true) == Some(s.c.get.value)
    requires 0 < cur.first <= cur.second && cur.second in CommitBoundaries(s.c.get.value, envs)
    requires CommitRatified(q, envs, s.c.get.value, cur)
    ensures OffersExternalize(q, s, envs, hint, cur)
  {
    hide CommitRatified, CommitBoundaries, Mentioned, CommitsTo;
    HintValueIs(hint, s.c.get.value, true);
    BoundaryMentioned(envs, s.c.get.value, cur.second);
  }

  lemma CommittableMeans(q: QSet, envs: Envelopes, value: Value, cur: Interval)
    ensures Committable(q, envs, true, value, cur) ==> CommitRatified(q, envs, value, cur)
    ensures Committable(q, envs, false, value, cur) ==> CommitAcceptable(q, envs, value, cur)
  {
  }

  lemma AllowsCommit(s: State, newH: Ballot)
    requires s.p.Some?
    ensures MaySetCommit(s, newH) <==>
            && s.c.None? && !LessAndIncompatible(newH, s.p.get)
            && (s.pp.None? || !LessAndIncompatible(newH, s.pp.get))
  {
  }

  lemma LowIsEnabled(q: QSet, envs: Envelopes, b: Ballot, newH: Ballot, below: set<Ballot>, newC: Ballot)
    requires IsLow(q, envs, b, newH, below, newC) && forall x | x in below :: AtMost(x, newH)
    ensures newC.counter != 0 ==> AtMost(b, newC) && AtMost(newC, newH) && Ratified(q, envs, newC)
  {
  }
}
