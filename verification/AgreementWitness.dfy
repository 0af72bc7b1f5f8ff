/**
 The agreement theorem is not empty: a network of one node, in which that node
 externalises whatever value it starts with.
 */
module AgreementWitness {
  import opened QuorumSets
  import opened Quorums
  import opened Ballots
  import opened Agreement
  import opened BallotChecks

  function Lone(n: NodeId): Network {
    Network({n}, map[n := Alone(n)])
  }

  lemma LoneSound(n: NodeId)
    ensures Lone(n).Sound()
  {
    hide Slice, VBlocking;
    AloneSlice(n);
    assert InRange(Alone(n));
    forall u1: set<NodeId>, u2: set<NodeId> | Lone(n).Closed(u1) && Lone(n).Closed(u2) ensures u1 * u2 * {n} != {} {
      assert n in u1 * {n} && n in u2 * {n};
      assert n in u1 * u2 * {n};
    }
  }

  /** The states on the way: voted, accepted as prepared, confirmed, accepted as committed, externalised. */
  function Stage(i: nat, x: Value): (s: State)
    ensures CanSpeak(s)
  {
    var b := Some(Ballot(1, x));
    if i == 0 then INITIAL
    else if i == 1 then State(PREPARE, b, None, None, None, None)
    else if i == 2 then State(PREPARE, b, b, None, None, None)
    else if i == 3 then State(PREPARE, b, b, None, b, b)
    else if i == 4 then State(CONFIRM, b, b, None, b, b)
    else State(EXTERNALIZE, b, b, None, b, b)
  }

  function StageAction(i: nat, x: Value): Action {
    var b := Ballot(1, x);
    if i <= 1 then Bump(b)
    else if i == 2 then AcceptPrepared(b)
    else if i == 3 then ConfirmPrepared(b, b)
    else if i == 4 then AcceptCommit(b, b)
    else ConfirmCommit(b, b)
  }

  function Voice(n: NodeId, i: nat, x: Value): Statement {
    Statement(n, Alone(n), PledgesOf(Stage(i, x)))
  }

  function Spoken(n: NodeId, i: nat, x: Value): set<Statement> {
    if i == 0 then {} else Spoken(n, i - 1, x) + {Voice(n, i, x)}
  }

  function WorldAt(n: NodeId, i: nat, x: Value): World {
    World(map[n := Stage(i, x)], map[n := Spoken(n, i, x)])
  }

  function Heard(n: NodeId, i: nat, x: Value): Envelopes {
    if i <= 1 then map[] else map[n := Voice(n, i - 1, x)]
  }

  /** Each stage follows from the one before on the node's own last statement. */
  lemma StageSteps(n: NodeId, i: nat, x: Value)
    requires 1 <= i <= 5
    ensures Steps(Alone(n), Stage(i - 1, x), Heard(n, i, x), StageAction(i, x), Stage(i, x))
  {
    hide HasQuorum, VBlocking, Claiming;
    var b := Ballot(1, x);
    var one := Interval(1, 1);
    var st := Voice(n, i - 1, x);
    if i == 2 {
      LoneAccepts(n, st, b);
    } else if i == 3 {
      AloneRatifies(n, st, s => HasPreparedBallot(b, s));
    } else if i == 4 {
      LoneCommits(n, st, x, one);
    } else if i == 5 {
      AloneRatifies(n, st, s => CommitPredicate(x, one, s));
    }
  }

  lemma LoneAccepts(n: NodeId, st: Statement, b: Ballot)
    requires st.node == n && st.qset == Alone(n) && VotesPrepared(b, st)
    ensures PreparedAcceptable(Alone(n), map[n := st], b)
  {
    hide Slice, VBlocking, VotesPrepared, HasPreparedBallot;
    AloneSlice(n);
    AcceptedByQuorum({n}, Alone(n), map[n := st], QuorumSetOf, s => VotesPrepared(b, s), s => HasPreparedBallot(b, s));
  }

  lemma LoneCommits(n: NodeId, st: Statement, x: Value, cur: Interval)
    requires st.node == n && st.qset == Alone(n) && VotesCommit(x, cur, st)
    ensures CommitAcceptable(Alone(n), map[n := st], x, cur)
  {
    hide Slice, VBlocking, VotesCommit, CommitPredicate;
    AloneSlice(n);
    AcceptedByQuorum({n}, Alone(n), map[n := st], QuorumSetOf, s => VotesCommit(x, cur, s), s => CommitPredicate(x, cur, s));
  }

  lemma StageFollows(n: NodeId, i: nat, x: Value)
    requires 1 <= i <= 5
    ensures Follows(Lone(n), WorldAt(n, i - 1, x), WorldAt(n, i, x))
  {
    hide Steps, Stage, PledgesOf, Alone;
    StageSteps(n, i, x);
    var w, w' := WorldAt(n, i - 1, x), WorldAt(n, i, x);
    assert i > 1 ==> Voice(n, i - 1, x) in Spoken(n, i - 1, x);
    assert w'.state == w.state[n := Stage(i, x)];
    assert Next(Lone(n), w, n, Heard(n, i, x), StageAction(i, x), w');
  }

  /** Some run of a sound network externalises, and any value can be the one. */
  lemma SomeRunExternalizes(n: NodeId, x: Value) returns (run: seq<World>)
    ensures Lone(n).Sound() && IsRun(Lone(n), run) && n in Lone(n).intact
    ensures var s := run[|run| - 1].state; n in s && s[n].phase == EXTERNALIZE && s[n].c == Some(Ballot(1, x))
  {
    hide Follows, Network.Sound;
    LoneSound(n);
    run := [WorldAt(n, 0, x), WorldAt(n, 1, x), WorldAt(n, 2, x), WorldAt(n, 3, x), WorldAt(n, 4, x), WorldAt(n, 5, x)];
    StageFollows(n, 1, x);
    StageFollows(n, 2, x);
    StageFollows(n, 3, x);
    StageFollows(n, 4, x);
    StageFollows(n, 5, x);
  }
}
