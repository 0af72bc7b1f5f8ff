/**
 What src/scp/BallotProtocol.cpp looks at before it accepts or confirms something: the
 candidates of getPrepareCandidates and the boundaries of getCommitBoundariesFromStatements.
 Looking at these few loses nothing: whatever ballot or interval federated voting allows, it
 allows one of them that is as good.
 */
module BallotCandidates {
  import opened QuorumSets
  import opened Quorums
  import opened Ballots

  const LAST_COUNTER: Uint32 := 0xffff_ffff

  // --- candidates -----------------------------------------------------------------------

  function Present(b: Option<Ballot>): set<Ballot> {
    if b.Some? then {b.get} else {}
  }

  function HintBallots(hint: Statement): set<Ballot> {
    match hint.pledges
    case Prepare(b, p, pp, _, _) => {b} + Present(p) + Present(pp)
    case Confirm(b, nPrepared, _, _) => {Ballot(nPrepared, b.value), Ballot(LAST_COUNTER, b.value)}
    case Externalize(commit, _) => {Ballot(LAST_COUNTER, commit.value)}
  }

  function Below(b: Option<Ballot>, top: Ballot): set<Ballot> {
    if b.Some? && LessAndCompatible(b.get, top) then {b.get} else {}
  }

  /** Ballots up to `top` that a statement suggests. */
  function Suggested(top: Ballot, st: Statement): set<Ballot> {
    match st.pledges
    case Prepare(b, p, pp, _, _) => Below(Some(b), top) + Below(p, top) + Below(pp, top)
    case Confirm(b, nPrepared, _, _) =>
      if Compatible(top, b) then
        {top} + (if nPrepared < top.counter then {Ballot(nPrepared, top.value)} else {})
      else {}
    case Externalize(commit, _) => if Compatible(top, commit) then {top} else {}
  }

  /** getPrepareCandidates. */
  function PrepareCandidates(hint: Statement, envs: Envelopes): set<Ballot> {
    set top, n, x | top in HintBallots(hint) && n in envs && x in Suggested(top, envs[n]) :: x
  }

  // --- intervals to commit ----------------------------------------------------------------

  /** getCommitBoundariesFromStatements, for one statement. */
  function Boundaries(value: Value, st: Statement): set<Uint32> {
    match st.pledges
    case Prepare(b, _, _, nC, nH) => if b.value == value && nC != 0 then {nC, nH} else {}
    case Confirm(b, _, nCommit, nH) => if b.value == value then {nCommit, nH} else {}
    case Externalize(commit, nH) => if commit.value == value then {commit.counter, nH, LAST_COUNTER} else {}
  }

  function CommitBoundaries(value: Value, envs: Envelopes): set<Uint32> {
    set n, x | n in envs && x in Boundaries(value, envs[n]) :: x
  }

  /** The value a hint asks to commit, if any. */
  function HintValue(hint: Statement, confirm: bool): Option<Value> {
    match hint.pledges
    case Prepare(b, _, _, nC, _) => if confirm || nC == 0 then None else Some(b.value)
    case Confirm(b, _, _, _) => Some(b.value)
    case Externalize(commit, _) => Some(commit.value)
  }

  /** Whether an interval can be committed: accepted as committed, or confirmed. */
  ghost predicate Committable(q: QSet, envs: Envelopes, confirm: bool, value: Value, cur: Interval) {
    if confirm then CommitRatified(q, envs, value, cur) else CommitAcceptable(q, envs, value, cur)
  }

  /** The statement speaks of committing this value, and of a counter not below x. */
  predicate MentionsUpTo(st: Statement, value: Value, x: Uint32) {
    match st.pledges
    case Prepare(b, _, _, nC, nH) => b.value == value && nC != 0 && (x <= nC || x <= nH)
    case Confirm(b, _, nCommit, nH) => b.value == value && (x <= nCommit || x <= nH)
    case Externalize(commit, _) => commit.value == value
  }

  ghost predicate Mentioned(envs: Envelopes, value: Value, x: Uint32) {
    exists n :: n in envs && MentionsUpTo(envs[n], value, x)
  }

  /** No interval that ends above `done`, at a counter that the statements reach, can be committed. */
  ghost predicate NothingToCommit(q: QSet, envs: Envelopes, confirm: bool, value: Value, done: int) {
    forall cur: Interval | cur.first <= cur.second && cur.second > done && Mentioned(envs, value, cur.second) ::
      !Committable(q, envs, confirm, value, cur)
  }

  /** An interval can be committed that starts at counter 0, which the code takes for no interval. */
  ghost predicate ReachesZero(q: QSet, envs: Envelopes, confirm: bool, value: Value) {
    exists top: Uint32 :: Mentioned(envs, value, top) && Committable(q, envs, confirm, value, Interval(0, top))
  }

  /** A statement speaks of committing this value from x or below on. */
  predicate MentionsFrom(st: Statement, value: Value, x: Uint32) {
    match st.pledges
    case Prepare(b, _, _, nC, _) => b.value == value && nC != 0 && nC <= x
    case Confirm(b, _, nCommit, _) => b.value == value && nCommit <= x
    case Externalize(commit, _) => commit.value == value && commit.counter <= x
  }

  ghost predicate Begun(envs: Envelopes, value: Value, x: Uint32) {
    exists n :: n in envs && MentionsFrom(envs[n], value, x)
  }

  /** The interval cannot start lower and be committed as a whole. */
  ghost predicate NothingLower(q: QSet, envs: Envelopes, confirm: bool, value: Value, cur: Interval) {
    forall x: Uint32 | x < cur.first && Begun(envs, value, x) :: !Committable(q, envs, confirm, value, Interval(x, cur.second))
  }

  /** No interval that can be committed ends higher, and it cannot start lower. */
  ghost predicate Widest(q: QSet, envs: Envelopes, confirm: bool, value: Value, cur: Interval) {
    NothingToCommit(q, envs, confirm, value, cur.second) && NothingLower(q, envs, confirm, value, cur)
  }

  /** The highest boundary below another one. */
  predicate IsNextBelow(boundaries: set<Uint32>, first: Uint32, x: Uint32) {
    x in boundaries && x < first && forall y | y in boundaries && y < first :: y <= x
  }

  // --- no ballot is missed ---------------------------------------------------------------------

  /** The statement votes for the ballot to be prepared, or has it prepared. */
  predicate Backs(st: Statement, x: Ballot) {
    VotesPrepared(x, st) || HasPreparedBallot(x, st)
  }

  /** The statement is the latest of its node. */
  predicate Fresh(hint: Statement, envs: Envelopes) {
    hint.node in envs && envs[hint.node] == hint
  }

  /** With or without the votes. */
  predicate Supports(votes: bool, x: Ballot, st: Statement) {
    HasPreparedBallot(x, st) || (votes && VotesPrepared(x, st))
  }

  /** A statement that supports a ballot up to `top` supports `top`, or the highest one it suggests. */
  lemma SupportLevel(votes: bool, st: Statement, x: Ballot, top: Ballot) returns (l: Ballot)
    requires Supports(votes, x, st) && LessAndCompatible(x, top)
    ensures LessAndCompatible(x, l) && LessAndCompatible(l, top) && Supports(votes, l, st)
    ensures l == top || l in Suggested(top, st)
  {
    l := top;
    match st.pledges
    case Prepare(b, p, pp, _, _) =>
      if p.Some? && LessAndCompatible(x, p.get) {
        l := if AtMost(top, p.get) then top else p.get;
      } else if pp.Some? && LessAndCompatible(x, pp.get) {
        l := if AtMost(top, pp.get) then top else pp.get;
      } else {
        l := if AtMost(top, b) then top else b;
      }
    case Confirm(b, nPrepared, _, _) =>
      if !(votes && Compatible(x, b)) && nPrepared < top.counter {
        l := Ballot(nPrepared, top.value);
      }
    case Externalize(_, _) =>
  }

  lemma SupportsBelow(votes: bool, st: Statement, x: Ballot, y: Ballot)
    requires Supports(votes, y, st) && LessAndCompatible(x, y)
    ensures Supports(votes, x, st)
  {
  }

  /** Nodes that all support a ballot up to `top` all support `top`, or one that a statement suggests. */
  lemma {:induction false} CommonSupport(votes: bool, envs: Envelopes, nodes: set<NodeId>, x: Ballot, top: Ballot)
    returns (y: Ballot)
    requires LessAndCompatible(x, top) && forall n | n in nodes :: n in envs && Supports(votes, x, envs[n])
    ensures LessAndCompatible(x, y) && LessAndCompatible(y, top)
    ensures forall n | n in nodes :: Supports(votes, y, envs[n])
    ensures y == top || exists n :: n in nodes && y in Suggested(top, envs[n])
    decreases |nodes|
  {
    hide Supports, Suggested;
    if nodes == {} {
      y := top;
    } else {
      var n :| n in nodes;
      var rest := nodes - {n};
      var z := CommonSupport(votes, envs, rest, x, top);
      var l := SupportLevel(votes, envs[n], x, top);
      y := if AtMost(l, z) then l else z;
      forall k | k in nodes ensures Supports(votes, y, envs[k]) {
        SupportsBelow(votes, envs[k], y, if k == n then l else z);
      }
    }
  }

  /** The ballots a hint names cover the ballots it backs. */
  lemma BackedBelow(hint: Statement, x: Ballot) returns (top: Ballot)
    requires Backs(hint, x)
    ensures top in HintBallots(hint) && LessAndCompatible(x, top)
  {
    match hint.pledges
    case Prepare(b, p, pp, _, _) =>
      top := if LessAndCompatible(x, b) then b else if p.Some? && LessAndCompatible(x, p.get) then p.get else pp.get;
    case Confirm(b, _, _, _) => top := Ballot(LAST_COUNTER, b.value);
    case Externalize(commit, _) => top := Ballot(LAST_COUNTER, commit.value);
  }

  /** What a hint names is a candidate. */
  lemma NamedIsCandidate(hint: Statement, envs: Envelopes, top: Ballot)
    requires Fresh(hint, envs) && top in HintBallots(hint)
    ensures top in PrepareCandidates(hint, envs)
  {
    assert top in Suggested(top, hint);
  }

  lemma SuggestedIsCandidate(hint: Statement, envs: Envelopes, top: Ballot, n: NodeId, y: Ballot)
    requires top in HintBallots(hint) && n in envs && y in Suggested(top, envs[n])
    ensures y in PrepareCandidates(hint, envs)
  {
  }

  /** For nodes that all support a ballot backed by the hint there is a candidate, as high, that they support. */
  lemma CandidateFor(votes: bool, hint: Statement, envs: Envelopes, nodes: set<NodeId>, x: Ballot) returns (y: Ballot)
    requires Fresh(hint, envs) && Backs(hint, x)
    requires forall n | n in nodes :: n in envs && Supports(votes, x, envs[n])
    ensures y in PrepareCandidates(hint, envs) && LessAndCompatible(x, y)
    ensures forall n | n in nodes :: Supports(votes, y, envs[n])
  {
    hide Supports, Suggested, Backs, HintBallots, PrepareCandidates;
    var top := BackedBelow(hint, x);
    y := CommonSupport(votes, envs, nodes, x, top);
    if y == top {
      NamedIsCandidate(hint, envs, top);
    } else {
      var n :| n in nodes && y in Suggested(top, envs[n]);
      SuggestedIsCandidate(hint, envs, top, n, y);
    }
  }

  /** A ballot backed by the hint that is ratified has a ratified candidate of its value, as high. */
  lemma RatifiedCandidate(q: QSet, hint: Statement, envs: Envelopes, x: Ballot) returns (y: Ballot)
    requires Fresh(hint, envs) && Backs(hint, x) && Ratified(q, envs, x)
    ensures y in PrepareCandidates(hint, envs) && LessAndCompatible(x, y) && Ratified(q, envs, y)
  {
    hide Slice, SelfSufficient, PrepareCandidates, HasPreparedBallot, VotesPrepared, Backs;
    var u :| IsQuorumIn(u, q, envs, QuorumSetOf, st => HasPreparedBallot(x, st));
    QuorumMembers(u, q, envs, QuorumSetOf, st => HasPreparedBallot(x, st));
    y := CandidateFor(false, hint, envs, u, x);
    assert IsQuorumIn(u, q, envs, QuorumSetOf, st => HasPreparedBallot(y, st));
  }

  /** The same for accepting a ballot as prepared. */
  lemma AcceptableCandidate(q: QSet, hint: Statement, envs: Envelopes, x: Ballot) returns (y: Ballot)
    requires Fresh(hint, envs) && Backs(hint, x) && PreparedAcceptable(q, envs, x)
    ensures y in PrepareCandidates(hint, envs) && LessAndCompatible(x, y) && PreparedAcceptable(q, envs, y)
  {
    hide Slice, SelfSufficient, PrepareCandidates, HasPreparedBallot, VotesPrepared, Backs, VBlocking;
    var s := Claiming(envs, st => HasPreparedBallot(x, st));
    if VBlocking(q, s) {
      y := CandidateFor(false, hint, envs, s, x);
      assert s <= Claiming(envs, st => HasPreparedBallot(y, st));
      BlockingMonotone(q, s, Claiming(envs, st => HasPreparedBallot(y, st)));
    } else {
      var u :| IsQuorumIn(u, q, envs, QuorumSetOf, st => HasPreparedBallot(x, st) || VotesPrepared(x, st));
      QuorumMembers(u, q, envs, QuorumSetOf, st => HasPreparedBallot(x, st) || VotesPrepared(x, st));
      y := CandidateFor(true, hint, envs, u, x);
      AcceptedByQuorum(u, q, envs, QuorumSetOf, st => VotesPrepared(y, st), st => HasPreparedBallot(y, st));
    }
  }

  // --- no interval is missed ---------------------------------------------------------------------

  predicate SupportsCommit(votes: bool, value: Value, cur: Interval, st: Statement) {
    CommitPredicate(value, cur, st) || (votes && VotesCommit(value, cur, st))
  }

  /** A statement that supports an interval supports z alone, or its own upper end alone. */
  lemma CommitLevel(votes: bool, st: Statement, value: Value, cur: Interval, z: Uint32) returns (l: Uint32)
    requires SupportsCommit(votes, value, cur, st) && cur.first <= cur.second <= z
    ensures cur.second <= l <= z && SupportsCommit(votes, value, Interval(l, l), st)
    ensures l == z || l in Boundaries(value, st)
  {
    l := z;
    match st.pledges
    case Prepare(_, _, _, _, nH) => l := if nH < z then nH else z;
    case Confirm(_, _, nCommit, nH) => l := if votes || z <= nH then z else nH;
    case Externalize(_, _) =>
  }

  lemma CommitBetween(votes: bool, st: Statement, value: Value, cur: Interval, x: Uint32, l: Uint32)
    requires SupportsCommit(votes, value, cur, st) && cur.first <= cur.second <= x <= l
    requires SupportsCommit(votes, value, Interval(l, l), st)
    ensures SupportsCommit(votes, value, Interval(x, x), st)
  {
  }

  lemma {:induction false} CommonCommit(votes: bool, envs: Envelopes, nodes: set<NodeId>, value: Value, cur: Interval, z: Uint32)
    returns (x: Uint32)
    requires cur.first <= cur.second <= z && forall n | n in nodes :: n in envs && SupportsCommit(votes, value, cur, envs[n])
    ensures cur.second <= x <= z
    ensures forall n | n in nodes :: SupportsCommit(votes, value, Interval(x, x), envs[n])
    ensures x == z || exists n :: n in nodes && x in Boundaries(value, envs[n])
    decreases |nodes|
  {
    hide SupportsCommit, Boundaries;
    if nodes == {} {
      x := z;
    } else {
      var n :| n in nodes;
      var rest := nodes - {n};
      var y := CommonCommit(votes, envs, rest, value, cur, z);
      var l := CommitLevel(votes, envs[n], value, cur, z);
      x := if l <= y then l else y;
      forall k | k in nodes ensures SupportsCommit(votes, value, Interval(x, x), envs[k]) {
        CommitBetween(votes, envs[k], value, cur, x, if k == n then l else y);
      }
    }
  }

  /** Some boundary is as high as any counter that is mentioned, and every boundary is mentioned. */
  lemma MentionedBoundary(envs: Envelopes, value: Value, x: Uint32) returns (z: Uint32)
    requires Mentioned(envs, value, x)
    ensures x <= z && z in CommitBoundaries(value, envs)
  {
    var n :| n in envs && MentionsUpTo(envs[n], value, x);
    z := match envs[n].pledges
      case Prepare(_, _, _, nC, nH) => if x <= nC then nC else nH
      case Confirm(_, _, nCommit, nH) => if x <= nCommit then nCommit else nH
      case Externalize(_, _) => LAST_COUNTER;
    assert z in Boundaries(value, envs[n]);
  }

  lemma BoundaryMentioned(envs: Envelopes, value: Value, x: Uint32)
    requires x in CommitBoundaries(value, envs)
    ensures Mentioned(envs, value, x)
  {
    var n :| n in envs && x in Boundaries(value, envs[n]);
    assert MentionsUpTo(envs[n], value, x);
  }

  /** For nodes that all support an interval there is a boundary, as high, that they support. */
  lemma BoundaryFor(votes: bool, envs: Envelopes, nodes: set<NodeId>, value: Value, cur: Interval) returns (x: Uint32)
    requires cur.first <= cur.second && Mentioned(envs, value, cur.second)
    requires forall n | n in nodes :: n in envs && SupportsCommit(votes, value, cur, envs[n])
    ensures x in CommitBoundaries(value, envs) && cur.second <= x
    ensures forall n | n in nodes :: SupportsCommit(votes, value, Interval(x, x), envs[n])
  {
    hide SupportsCommit, Boundaries, Mentioned;
    var z := MentionedBoundary(envs, value, cur.second);
    x := CommonCommit(votes, envs, nodes, value, cur, z);
  }

  lemma RatifiedBoundary(q: QSet, envs: Envelopes, value: Value, cur: Interval) returns (x: Uint32)
    requires cur.first <= cur.second && Mentioned(envs, value, cur.second) && CommitRatified(q, envs, value, cur)
    ensures x in CommitBoundaries(value, envs) && cur.second <= x && CommitRatified(q, envs, value, Interval(x, x))
  {
    hide Slice, SelfSufficient, CommitBoundaries, CommitPredicate, VotesCommit, Mentioned;
    var u :| IsQuorumIn(u, q, envs, QuorumSetOf, st => CommitPredicate(value, cur, st));
    QuorumMembers(u, q, envs, QuorumSetOf, st => CommitPredicate(value, cur, st));
    x := BoundaryFor(false, envs, u, value, cur);
    assert IsQuorumIn(u, q, envs, QuorumSetOf, st => CommitPredicate(value, Interval(x, x), st));
  }

  lemma AcceptableBoundary(q: QSet, envs: Envelopes, value: Value, cur: Interval) returns (x: Uint32)
    requires cur.first <= cur.second && Mentioned(envs, value, cur.second) && CommitAcceptable(q, envs, value, cur)
    ensures x in CommitBoundaries(value, envs) && cur.second <= x && CommitAcceptable(q, envs, value, Interval(x, x))
  {
    hide Slice, SelfSufficient, CommitBoundaries, CommitPredicate, VotesCommit, Mentioned, VBlocking;
    var s := Claiming(envs, st => CommitPredicate(value, cur, st));
    if VBlocking(q, s) {
      x := BoundaryFor(false, envs, s, value, cur);
      assert s <= Claiming(envs, st => CommitPredicate(value, Interval(x, x), st));
      BlockingMonotone(q, s, Claiming(envs, st => CommitPredicate(value, Interval(x, x), st)));
    } else {
      var u :| IsQuorumIn(u, q, envs, QuorumSetOf, st => CommitPredicate(value, cur, st) || VotesCommit(value, cur, st));
      QuorumMembers(u, q, envs, QuorumSetOf, st => CommitPredicate(value, cur, st) || VotesCommit(value, cur, st));
      x := BoundaryFor(true, envs, u, value, cur);
      AcceptedByQuorum(u, q, envs, QuorumSetOf,
                       st => VotesCommit(value, Interval(x, x), st), st => CommitPredicate(value, Interval(x, x), st));
    }
  }

  /** If no boundary above `done` can be committed alone, no interval above `done` can be committed. */
  lemma BoundariesSuffice(q: QSet, envs: Envelopes, confirm: bool, value: Value, done: int)
    ensures NothingToCommit(q, envs, confirm, value, done) <==>
            forall x | x in CommitBoundaries(value, envs) && x > done :: !Committable(q, envs, confirm, value, Interval(x, x))
  {
    hide Mentioned, CommitBoundaries, CommitRatified, CommitAcceptable;
    forall x | x in CommitBoundaries(value, envs) ensures Mentioned(envs, value, x) {
      BoundaryMentioned(envs, value, x);
    }
    forall cur: Interval | cur.first <= cur.second && cur.second > done && Mentioned(envs, value, cur.second)
                           && Committable(q, envs, confirm, value, cur)
      ensures exists x | x in CommitBoundaries(value, envs) && x > done :: Committable(q, envs, confirm, value, Interval(x, x))
    {
      var x;
      if confirm {
        x := RatifiedBoundary(q, envs, value, cur);
      } else {
        x := AcceptableBoundary(q, envs, value, cur);
      }
    }
  }

  /** Among the boundaries below another counter there is a highest one. */
  lemma {:induction false} NextBelow(boundaries: set<Uint32>, first: Uint32, m: Uint32) returns (y: Uint32)
    requires m in boundaries && m < first
    ensures IsNextBelow(boundaries, first, y) && m <= y
    decreases first - m
  {
    if forall z | z in boundaries && z < first :: z <= m {
      y := m;
    } else {
      var z :| z in boundaries && z < first && z > m;
      y := NextBelow(boundaries, first, z);
    }
  }

  /** Who supports an interval from x supports it from the next boundary below a counter above x as well. */
  lemma SupportsFrom(votes: bool, st: Statement, value: Value, x: Uint32, y: Uint32, cur: Interval)
    requires SupportsCommit(votes, value, Interval(x, cur.second), st) && x < cur.first <= cur.second
    requires y < cur.first && forall z | z in Boundaries(value, st) && z < cur.first :: z <= y
    ensures SupportsCommit(votes, value, Interval(y, cur.second), st)
  {
    match st.pledges
    case Prepare(_, _, _, nC, _) => assert nC in Boundaries(value, st);
    case Confirm(_, _, nCommit, _) => assert nCommit in Boundaries(value, st);
    case Externalize(commit, _) => assert commit.counter in Boundaries(value, st);
  }

  lemma BoundaryBegins(envs: Envelopes, value: Value, x: Uint32) returns (m: Uint32)
    requires Begun(envs, value, x)
    ensures m in CommitBoundaries(value, envs) && m <= x
  {
    var n :| n in envs && MentionsFrom(envs[n], value, x);
    m := match envs[n].pledges
      case Prepare(_, _, _, nC, _) => nC
      case Confirm(_, _, nCommit, _) => nCommit
      case Externalize(commit, _) => commit.counter;
    assert m in Boundaries(value, envs[n]);
  }

  /** Supporters of an interval from x are supporters from the next boundary below its start. */
  lemma CommittableFrom(q: QSet, envs: Envelopes, confirm: bool, value: Value, x: Uint32, y: Uint32, cur: Interval)
    requires Committable(q, envs, confirm, value, Interval(x, cur.second)) && x < cur.first <= cur.second
    requires IsNextBelow(CommitBoundaries(value, envs), cur.first, y)
    ensures Committable(q, envs, confirm, value, Interval(y, cur.second))
  {
    hide Slice, SelfSufficient, CommitPredicate, VotesCommit, VBlocking, Boundaries;
    var wide, narrow := Interval(x, cur.second), Interval(y, cur.second);
    forall n, z | n in envs && z in Boundaries(value, envs[n]) && z < cur.first ensures z <= y {
      assert z in CommitBoundaries(value, envs);
    }
    forall n, votes | n in envs && SupportsCommit(votes, value, wide, envs[n])
      ensures SupportsCommit(votes, value, narrow, envs[n])
    {
      SupportsFrom(votes, envs[n], value, x, y, cur);
    }
    assert forall n | n in envs && CommitPredicate(value, wide, envs[n]) :: SupportsCommit(false, value, wide, envs[n]);
    assert forall n | n in envs && SupportsCommit(false, value, narrow, envs[n]) :: CommitPredicate(value, narrow, envs[n]);
    if confirm {
      var u :| IsQuorumIn(u, q, envs, QuorumSetOf, st => CommitPredicate(value, wide, st));
      QuorumMembers(u, q, envs, QuorumSetOf, st => CommitPredicate(value, wide, st));
      assert IsQuorumIn(u, q, envs, QuorumSetOf, st => CommitPredicate(value, narrow, st));
    } else {
      AcceptableFrom(q, envs, value, wide, narrow);
    }
  }

  lemma AcceptableFrom(q: QSet, envs: Envelopes, value: Value, wide: Interval, narrow: Interval)
    requires CommitAcceptable(q, envs, value, wide)
    requires forall n, votes | n in envs && SupportsCommit(votes, value, wide, envs[n]) ::
               SupportsCommit(votes, value, narrow, envs[n])
    ensures CommitAcceptable(q, envs, value, narrow)
  {
    hide Slice, SelfSufficient, CommitPredicate, VotesCommit, VBlocking;
    var s := Claiming(envs, st => CommitPredicate(value, wide, st));
    forall n | n in envs && CommitPredicate(value, wide, envs[n]) ensures CommitPredicate(value, narrow, envs[n]) {
      assert SupportsCommit(false, value, wide, envs[n]);
    }
    if VBlocking(q, s) {
      BlockingMonotone(q, s, Claiming(envs, st => CommitPredicate(value, narrow, st)));
    } else {
      var u :| IsQuorumIn(u, q, envs, QuorumSetOf, st => CommitPredicate(value, wide, st) || VotesCommit(value, wide, st));
      QuorumMembers(u, q, envs, QuorumSetOf, st => CommitPredicate(value, wide, st) || VotesCommit(value, wide, st));
      forall n | n in u ensures CommitPredicate(value, narrow, envs[n]) || VotesCommit(value, narrow, envs[n]) {
        assert SupportsCommit(true, value, wide, envs[n]);
      }
      AcceptedByQuorum(u, q, envs, QuorumSetOf, st => VotesCommit(value, narrow, st), st => CommitPredicate(value, narrow, st));
    }
  }

  /** If the next lower boundary does not extend an interval, no lower counter does. */
  lemma LowestBoundary(q: QSet, envs: Envelopes, confirm: bool, value: Value, cur: Interval)
    requires cur.first <= cur.second
    requires forall y | IsNextBelow(CommitBoundaries(value, envs), cur.first, y) ::
               !Committable(q, envs, confirm, value, Interval(y, cur.second))
    ensures NothingLower(q, envs, confirm, value, cur)
  {
    hide Committable, CommitBoundaries, Begun, IsNextBelow;
    forall x: Uint32 | x < cur.first && Begun(envs, value, x)
      ensures !Committable(q, envs, confirm, value, Interval(x, cur.second))
    {
      var m := BoundaryBegins(envs, value, x);
      var y := NextBelow(CommitBoundaries(value, envs), cur.first, m);
      if Committable(q, envs, confirm, value, Interval(x, cur.second)) {
        CommittableFrom(q, envs, confirm, value, x, y, cur);
      }
    }
  }

  // --- what the statements offer to a node ---------------------------------------------------------

  /** A ballot backed by the hint can be accepted as prepared. */
  ghost predicate OffersPrepared(q: QSet, s: State, envs: Envelopes, hint: Statement, x: Ballot) {
    Backs(hint, x) && MayRaisePrepared(s, x) && PreparedAcceptable(q, envs, x)
  }

  /** A ballot backed by the hint, above h, can be confirmed as prepared. */
  ghost predicate OffersConfirmed(q: QSet, s: State, envs: Envelopes, hint: Statement, x: Ballot) {
    && s.phase == PREPARE && s.p.Some?
    && Backs(hint, x) && !(s.h.Some? && AtMost(x, s.h.get)) && Ratified(q, envs, x)
  }

  /** The hint votes to commit a value, or has accepted that it is committed. */
  ghost predicate CommitsTo(hint: Statement, value: Value, confirm: bool) {
    exists cur: Interval :: if confirm then CommitPredicate(value, cur, hint) else VotesCommit(value, cur, hint)
  }

  /** An interval of a value the hint votes to commit, ending above h, can be accepted as committed. */
  ghost predicate OffersAccept(q: QSet, s: State, envs: Envelopes, hint: Statement, value: Value, cur: Interval) {
    && s.phase != EXTERNALIZE && CommitsTo(hint, value, false)
    && (s.phase == CONFIRM ==> s.h.Some? && s.h.get.value == value && cur.second > s.h.get.counter)
    && 0 < cur.second && cur.first <= cur.second && Mentioned(envs, value, cur.second)
    && CommitAcceptable(q, envs, value, cur)
  }

  /** An interval of the committed value, which the hint has accepted too, can be confirmed as committed. */
  ghost predicate OffersExternalize(q: QSet, s: State, envs: Envelopes, hint: Statement, cur: Interval) {
    && s.phase == CONFIRM && s.c.Some? && CommitsTo(hint, s.c.get.value, true)
    && 0 < cur.second && cur.first <= cur.second && Mentioned(envs, s.c.get.value, cur.second)
    && CommitRatified(q, envs, s.c.get.value, cur)
  }

  lemma HintBacked(hint: Statement, top: Ballot)
    requires top in HintBallots(hint)
    ensures Backs(hint, top)
  {
  }

  lemma SuggestedBelow(top: Ballot, st: Statement, y: Ballot)
    requires y in Suggested(top, st)
    ensures LessAndCompatible(y, top)
  {
  }

  lemma BacksLower(hint: Statement, top: Ballot, y: Ballot)
    requires Backs(hint, top) && LessAndCompatible(y, top)
    ensures Backs(hint, y)
  {
  }

  /** The hint backs every candidate. */
  lemma CandidateBacked(hint: Statement, envs: Envelopes, y: Ballot)
    requires y in PrepareCandidates(hint, envs)
    ensures Backs(hint, y)
  {
    hide HintBallots, Suggested, Backs;
    var top, n :| top in HintBallots(hint) && n in envs && y in Suggested(top, envs[n]);
    HintBacked(hint, top);
    SuggestedBelow(top, envs[n], y);
    BacksLower(hint, top, y);
  }

  lemma MayRaiseHigher(s: State, x: Ballot, y: Ballot)
    requires MayRaisePrepared(s, x) && LessAndCompatible(x, y)
    ensures MayRaisePrepared(s, y)
  {
  }

  /** If no candidate can be accepted above a ballot, nothing offered is above it. */
  lemma PreparedOffers(q: QSet, s: State, envs: Envelopes, hint: Statement, best: Option<Ballot>)
    requires Fresh(hint, envs)
    requires forall x | x in PrepareCandidates(hint, envs) && !(best.Some? && AtMost(x, best.get)) ::
               !(MayRaisePrepared(s, x) && PreparedAcceptable(q, envs, x))
    ensures forall x | OffersPrepared(q, s, envs, hint, x) :: best.Some? && AtMost(x, best.get)
  {
    hide PrepareCandidates, PreparedAcceptable, Backs, MayRaisePrepared;
    forall x | OffersPrepared(q, s, envs, hint, x) ensures best.Some? && AtMost(x, best.get) {
      var y := AcceptableCandidate(q, hint, envs, x);
      MayRaiseHigher(s, x, y);
    }
  }

  lemma ConfirmedOffers(q: QSet, s: State, envs: Envelopes, hint: Statement, best: Option<Ballot>)
    requires Fresh(hint, envs)
    requires forall x | x in PrepareCandidates(hint, envs) && !(best.Some? && AtMost(x, best.get))
                        && !(s.h.Some? && AtMost(x, s.h.get)) :: !Ratified(q, envs, x)
    ensures forall x | OffersConfirmed(q, s, envs, hint, x) :: best.Some? && AtMost(x, best.get)
  {
    hide PrepareCandidates, Ratified, Backs;
    forall x | OffersConfirmed(q, s, envs, hint, x) ensures best.Some? && AtMost(x, best.get) {
      var y := RatifiedCandidate(q, hint, envs, x);
    }
  }

  /** The value that the code takes from a hint is the one the hint commits to. */
  lemma HintValueIs(hint: Statement, value: Value, confirm: bool)
    ensures CommitsTo(hint, value, confirm) <==> HintValue(hint, confirm) == Some(value)
  {
    if HintValue(hint, confirm) == Some(value) {
      var cur := match hint.pledges
        case Prepare(_, _, _, nC, nH) => Interval(nC, nH)
        case Confirm(_, _, nCommit, nH) => Interval(nCommit, nH)
        case Externalize(commit, _) => Interval(commit.counter, commit.counter);
      assert if confirm then CommitPredicate(value, cur, hint) else VotesCommit(value, cur, hint);
    }
  }
}
