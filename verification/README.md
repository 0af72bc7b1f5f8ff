# Verified models of swarm-core algorithms

Dafny models of the algorithmic core of swarm-core, with proofs. `dafny verify
dfyconfig.toml` checks everything.

## What is modelled

**Consensus** (`src/scp`). Quorum sets, their slices and v-blocking sets; normalisation
and sanity; quorums as greatest self-sufficient sets; federated voting; the ballot
protocol of a node; and a network of nodes. The main theorem is agreement:
`Agreement.Agree`. A world holds the state of each intact node and everything it ever
said. In a step one intact node acts on statements it received: any statements that
intact nodes made, in any order, old or new, and any statements at all from the other
nodes. The assumptions are those of the protocol (`Network.Sound`): the other nodes
neither block an intact node nor form one of its slices, and quorums of intact nodes
share an intact node. `ThresholdNetwork.ToleratesFaults` shows that 3f + 1 nodes with f
faults meet them. `BallotProtocol.Node` is the object with its loops; each method is
proved to make a step of the relation that the agreement proof uses, or none, and
`NodeRuns.ChainIsPath` turns its steps into a path of the network.

**Option parsing** (`lib/util/getopt_long.c`). The in-place block exchange along
gcd-many cycles, and the resumable scanner over a whole run, with the values and arguments
that the words mean (`GetoptMeaning`).

**JSON** (`lib/json/jsoncpp.cpp`). Both writers and the reader, with 64-bit integers,
escapes and surrogate pairs. `JsonText` writes the texts down as a grammar of its own, with
white space, comments and every spelling of a string. `JsonAccepted.AcceptedExactly` proves
that the reader accepts exactly those texts, each as what it stands for. What the writers
print is proved to be among them, and for the indenting writer also how it is laid out.

**Test sections** (`lib/catch.hpp`). The tracker tree and the loop that re-runs a test.

**Codecs and arithmetic** (`lib/util`). 128-bit arithmetic, CRC-16, base-16/32/64,
decimal formatting, and the least-recently-used cache.

**HTTP requests** (`lib/http`). The character machine, the texts it accepts and its
chunked feeding.

Each component has its specification functions in one module and its stateful form,
with the loops and fields of the source, in another. Methods are proved against the
specification functions; the laws are lemmas about those functions.

## Where the code does less than its comments say

- `getopt_long.c` stops with -1 on a word such as `-a-` when `-` is no option and there is
  no table of long options, without moving the skipped operands. So the partition of
  the words holds if and only if no such word is reached (`GetoptScanner.ScanAll`).
- With sane inner sets, `isVBlocking` and `isQuorumSlice` are dual for all node sets if and
  only if the threshold lies between 1 and the number of entries
  (`QuorumSets.DualityNeedsRange`).
- `findClosestVBlocking` counts a repeated validator as often as it is listed. Without
  inner sets the number it finds is the least one if and only if no more than the
  threshold of entries are present or no present validator is repeated
  (`VBlockingFlat.FlatLeast`); with inner sets it is the least one for sane sets.
- With an excluded node, an inner set that lists it with threshold 1 can look blocked to
  `findClosestVBlocking`, which then reports a blocked set where there is a slice. For sane
  sets, having no such inner set is exactly what is needed (`VBlockingAlone.AloneFails`).
- `attemptPreparedConfirmed` does not compare the value of the ballot to commit with the
  value of h. A run of three steps leads to a state in which it takes a ballot of another
  value, and checkInvariants stops the node (`BallotChecks.MixedCommit`);
  `BallotChecks.WhenStops` says exactly when a transition stops the node.
- In CONFIRM, `attemptPreparedAccept` notes that p and c have one value. They do if and only
  if p had the value of the commit when that was accepted (`BallotStray.FitsExactly`), and
  `BallotStray.StrayPrepared` leads to a state in which they do not.
- `readObject` takes a closing brace behind a comma for an empty object when the last name was
  empty, and behind a comment it takes any token that is no closing brace for a comma. The
  grammar of `JsonAccepted.AcceptedExactly` includes both; `JsonAccepted.CommaBehindEmptyName`
  is an example.
- Behind a leading surrogate, `decodeUnicodeCodePoint` takes any code unit and uses its lower
  ten bits (`JsonStrings.SpelledExactly`).
- An interval from counter 0 counts as none in `findExtendedInterval`. Only statements of
  ill-behaved nodes can support one, and never enough of them in a sound network
  (`CommitCounters.NeverReachesZero`).

## Model

| member | source | states |
|---|---|---|
| Agreement.Agree | src/scp/BallotProtocol.cpp:1106-1459 | In every run, whatever ill-behaved nodes send and however messages are lost, delayed or reordered, two intact nodes that externalise, at the same or at different times, externalise the same value |
| Agreement.CommitsAgreeInRun | src/scp/BallotProtocol.cpp:1106-1274 | Already the values that intact nodes accept as committed are equal, in every world of every run |
| Agreement.ExternalizedForGood | src/scp/BallotProtocol.cpp:1436-1459 | A node that externalised never changes its state again |
| Agreement.RunGood | src/scp/BallotProtocol.cpp:748-1459 | The global invariant holds in every world of every run |
| Agreement.NextGood | src/scp/BallotProtocol.cpp:748-1459 | Every step of every intact node keeps the global invariant: no committed ballot is aborted, every commit goes back to a quorum of votes, every abort is founded |
| Agreement.CommitJustified | src/scp/BallotProtocol.cpp:1148-1193 | What federated voting accepts as committed was aborted by no intact node and goes back to votes of a quorum |
| Agreement.AbortJustified | src/scp/BallotProtocol.cpp:748-833 | What federated voting accepts as prepared aborts only ballots that are kept out for good and that no intact node committed |
| Agreement.NotBoth | src/scp/BallotProtocol.cpp:748-833 | A ballot that all intact members of a quorum voted to commit is aborted by no intact node |
| Agreement.CommitsAgree | src/scp/BallotProtocol.cpp:1106-1274 | A ballot that may be committed has the value of every ballot committed so far |
| Agreement.OthersKeptOut | src/scp/BallotProtocol.cpp:748-833 | Once a ballot may be committed, every ballot of another value is kept out: by a quorum that voted against it, or by a lower commit |
| Agreement.RatifiedIsPrepared | src/scp/BallotProtocol.cpp:870-946 | A ballot confirmed as prepared was reported prepared by an intact node |
| Agreement.RatifiedMayCommit | src/scp/BallotProtocol.cpp:1371-1434 | An interval confirmed as committed starts at a ballot that may be committed |
| Agreement.BackedAborts | src/scp/BallotProtocol.cpp:982-1016 | Behind votes of a quorum to commit stands a prepared ballot that aborts every lower ballot of another value |
| Agreement.PreparePhase | src/scp/BallotProtocol.cpp:485-546 | A statement of the PREPARE phase keeps the network consistent |
| Agreement.LaterPhases | src/scp/BallotProtocol.cpp:485-546 | A statement of the CONFIRM or EXTERNALIZE phase keeps the network consistent |
| BallotDiscipline.DisciplineStep | src/scp/BallotProtocol.cpp:748-1459 | Every step keeps the discipline of one node: ballots only grow, and votes to commit stand until their ballots are accepted as aborted |
| BallotDiscipline.ContradictionStep | src/scp/BallotProtocol.cpp:835-868 | A node that voted to commit a ballot and voted to abort it had accepted the abort |
| BallotDiscipline.GrowStep | src/scp/BallotProtocol.cpp:371-426 | The current ballot never falls in the PREPARE phase, and ballots voted for do not abort the ballots being committed |
| BallotDiscipline.StandStep | src/scp/BallotProtocol.cpp:835-868 | A vote to commit stays in c and h, or one of the prepared ballots aborts it |
| BallotProtocol.Node.AdvanceSlot | src/scp/BallotProtocol.cpp:1765-1848 | Runs four turns, in each of which the node takes what is offered for the hint on the statements it then has: a prepared ballot, a confirmed one, an accepted commit, a ratified commit; a turn passes only if nothing is offered. The steps are a chain of the protocol, and a node that is still in CONFIRM on return has no ratified interval for the hint, save one from counter 0 |
| BallotAdvance.RatifiedExternalizes | src/scp/BallotProtocol.cpp:1816-1824 | A node in CONFIRM for whose committed value some interval is ratified, with a hint of that value, is in EXTERNALIZE with that value when AdvanceSlot returns, even if it accepts further ballots and intervals on the way; the one exception is an interval from counter 0 |
| BallotAdvance.ExternalizesInRun | src/scp/BallotProtocol.cpp:1816-1824 | The same without exception for an intact node in a run of a sound network |
| BallotAdvance.StillOffered | src/scp/BallotProtocol.cpp:1816-1824 | Accepting a further interval as committed leaves part of every ratified interval ratified |
| BallotAdvance.CommitsStand | src/scp/BallotProtocol.cpp:1816-1824 | The attempts on prepared ballots change nothing of what a node in CONFIRM claims to be committed |
| BallotProtocol.Node.AttemptPreparedAccept | src/scp/BallotProtocol.cpp:748-833 | Accepts the highest candidate that federated voting accepts and that raises p or p'; for a current hint it does nothing only if no ballot at all that the hint votes for or has prepared could be accepted and would raise them |
| BallotProtocol.Node.AttemptPreparedConfirmed | src/scp/BallotProtocol.cpp:870-946 | Confirms the highest ratified candidate above h, with the lowest c that is allowed; for a current hint it does nothing only if no ballot at all above h that the hint votes for or has prepared is ratified |
| BallotProtocol.Node.FindHigh | src/scp/BallotProtocol.cpp:886-908 | Finds the highest ratified candidate above h, and nothing exactly when there is none |
| BallotProtocol.Node.FindLow | src/scp/BallotProtocol.cpp:914-942 | Finds the lowest ballot from b on such that all candidates from it up to h are ratified |
| BallotProtocol.Node.AttemptAcceptCommit | src/scp/BallotProtocol.cpp:1106-1231 | Accepts the widest interval of the hinted value: no interval that can be accepted ends higher, and it cannot start lower; does nothing only if no interval whatever above h (above 0 in PREPARE) can be accepted, or if an interval from counter 0 can |
| BallotProtocol.Node.AttemptConfirmCommit | src/scp/BallotProtocol.cpp:1371-1434 | Externalises with the widest ratified interval of the committed value; does nothing only if no interval whatever from above 0 is ratified, or if an interval from counter 0 is |
| BallotCandidates.AcceptableCandidate | src/scp/BallotProtocol.cpp:633-746 | The candidates are enough: if federated voting accepts a ballot that a current hint votes for or has prepared, it accepts a candidate of the same value that is not below it |
| BallotCandidates.RatifiedCandidate | src/scp/BallotProtocol.cpp:633-746 | The same for ratified ballots |
| BallotCandidates.BoundariesSuffice | src/scp/BallotProtocol.cpp:1056-1104 | The boundaries are enough: some interval above a counter can be committed if and only if an interval of one boundary above it can |
| BallotCandidates.LowestBoundary | src/scp/BallotProtocol.cpp:1018-1054 | If the next lower boundary does not extend an interval that can be committed, no lower counter does |
| BallotCandidates.HintValueIs | src/scp/BallotProtocol.cpp:1106-1146 | The value a hint is for, by what it says about commits |
| CommitCounters.NeverReachesZero | src/scp/BallotProtocol.cpp:1018-1054 | On what an intact node of a sound network receives in a run, no interval from counter 0 can be accepted or ratified, so neither attempt ever misses an interval |
| CommitCounters.RunPositive | src/scp/BallotProtocol.cpp:1233-1274 | In every world of every run, no intact node has said that it committed a ballot with counter 0 |
| BallotProtocol.Node.SetPreparedAccept | src/scp/BallotProtocol.cpp:835-868 | Raises p or p' and drops c when h is aborted; the node stops exactly when its own checks fail |
| BallotProtocol.Node.SetPreparedConfirmed | src/scp/BallotProtocol.cpp:982-1016 | Sets h, c and b as one protocol step |
| BallotProtocol.Node.SetAcceptCommit | src/scp/BallotProtocol.cpp:1233-1274 | Enters CONFIRM with c, h and b as one protocol step |
| BallotProtocol.Node.SetConfirmCommit | src/scp/BallotProtocol.cpp:1436-1459 | Enters EXTERNALIZE as one protocol step |
| BallotProtocol.Node.SetPrepared | src/scp/BallotProtocol.cpp:1544-1577 | Keeps the highest prepared ballot in p and the highest incompatible one in p', and reports whether anything changed |
| BallotMeaning.RunRemembers | src/scp/BallotProtocol.cpp:1544-1577 | In every world of every run, a node that still prepares finds in p and p' exactly the ballots that anything it ever reported rules out: two slots are as good as the whole history |
| BallotMeaning.StepMeans | src/scp/BallotProtocol.cpp:835-1459 | For each of the five transitions, which ballots the node votes to prepare and to commit and has accepted afterwards, ballot by ballot |
| BallotMeaning.StatementMeans | src/scp/BallotProtocol.cpp:485-546 | A statement votes for and claims exactly the prepared ballots that the state stands for |
| BallotMeaning.IntervalMeans | src/scp/BallotProtocol.cpp:1106-1231 | An interval is voted for, or accepted, if and only if each of its ballots is |
| BallotMeaning.GuardsMean | src/scp/BallotProtocol.cpp:748-946 | A ballot is tried for p exactly when the slots would change and stay apart, or in CONFIRM when p would rise; c is tried exactly when it is not set and no prepared ballot rules h out |
| BallotStray.FitsExactly | src/scp/BallotProtocol.cpp:1233-1274 | p has the value of c in CONFIRM if and only if it had the value of the commit when that was accepted |
| BallotStray.FitsForGood | src/scp/BallotProtocol.cpp:763-772 | However many steps the node makes in CONFIRM, p and c agree in value at the end if and only if they did at the start |
| BallotStray.StrayPrepared | src/scp/BallotProtocol.cpp:763-772 | Five enabled steps that pass the checks and lead to CONFIRM with p and c of different values |
| BallotProtocol.Node.EmitCurrentState | src/scp/BallotProtocol.cpp:548-599 | Records the node's own statement; stops the node exactly when the state is inconsistent or the statement is neither known nor sane and newer |
| BallotProtocol.Node.BumpState | src/scp/BallotProtocol.cpp:331-426 | Moves to the ballot, of h's value if there is one, exactly when it is higher and compatible with c |
| BallotProtocol.FindExtendedInterval | src/scp/BallotProtocol.cpp:1018-1054 | The interval found can be committed as a whole, no higher boundary can be committed and the next lower one does not extend it; nothing is found only if no boundary above 0 can be committed, or if an interval from boundary 0 can |
| BallotProtocol.NewerIsStrictOrder | src/scp/BallotProtocol.cpp:53-133 | Being newer is irreflexive and transitive, so statements cannot supersede each other in a circle |
| BallotProtocol.ChainStep | src/scp/BallotProtocol.cpp:1765-1848 | A chain of steps extended by a step is a chain |
| NodeRuns.ChainIsPath | src/scp/BallotProtocol.cpp:1765-1848 | What a node does on a message is a path of the network that changes no other node, so agreement covers it |
| BallotChecks.WhenStops | src/scp/BallotProtocol.cpp:548-599 | For each of the five transitions, exactly when it stops the node, in terms of the state before it: the checks of the new state, p reaching the counter of a confirmed ballot, and a statement that is newer |
| BallotChecks.WhenChecked | src/scp/BallotProtocol.cpp:600-631 | Every enabled transition leaves a state that passes checkInvariants if and only if a condition on the state before it holds; for a confirmed prepared ballot, that the resulting c is absent or has the value of h |
| BallotChecks.KeepsReporting | src/scp/BallotProtocol.cpp:548-599 | A transition that does not stop the node leaves it standing where its last statement says |
| BallotChecks.MixedCommit | src/scp/BallotProtocol.cpp:914-942 | Three steps that pass the checks, after which confirming (2, 3) as prepared takes (1, 5) as the ballot to commit and the check fails |
| AgreementWitness.SomeRunExternalizes | src/scp/BallotProtocol.cpp:748-1459 | A sound network and a run of it in which a node externalises, for any value |
| NodeRuns.NodesAgree | src/scp/BallotProtocol.cpp:1106-1459 | Nodes that go on from any world of a run and externalise have the same value |
| ThresholdNetwork.ToleratesFaults | src/scp/LocalNode.cpp:228-310 | Any 3f + 1 nodes that ask for 2f + 1 of them, with at most f ill-behaved, meet the assumptions of the agreement theorem |
| QuorumSets.IsQuorumSlice | src/scp/LocalNode.cpp:228-258 | Decides whether the nodes contain a slice, wrapping of the 32-bit counter at threshold 0 included |
| QuorumSets.IsVBlocking | src/scp/LocalNode.cpp:271-310 | Decides v-blocking as defined, with the conversion of sizes to int |
| QuorumSets.SliceMonotone | src/scp/LocalNode.cpp:228-258 | More nodes keep every slice |
| QuorumSets.BlockingMonotone | src/scp/LocalNode.cpp:271-310 | More nodes keep a set v-blocking |
| QuorumSets.SliceLocal | src/scp/LocalNode.cpp:228-258 | Only the nodes that the set mentions matter |
| QuorumSets.Duality | src/scp/LocalNode.cpp:228-310 | For thresholds in range, a set is v-blocking exactly when its complement contains no slice |
| QuorumSets.BlockingMeetsEverySlice | src/scp/LocalNode.cpp:271-310 | For thresholds in range, a set is v-blocking exactly when it meets every slice |
| QuorumSets.DualityNeedsRange | src/scp/LocalNode.cpp:271-310 | With sane inner sets, duality holds for all node sets if and only if the threshold lies between 1 and the number of entries |
| QuorumSetNormal.NormalizeQSet | src/scp/LocalNode.cpp:99-127 | The normal form has the same slices and the same v-blocking sets, nothing is left to simplify, and normal sets are left alone |
| QuorumSetNormal.IsQuorumSetSaneInternal | src/scp/LocalNode.cpp:49-89 | Sane exactly when all thresholds are in range and no node comes twice or is known already; collects the nodes |
| QuorumSetNormal.IsQuorumSetSane | src/scp/LocalNode.cpp:129-135 | Sane exactly when all thresholds are in range and no validator is repeated anywhere |
| QuorumSetNormal.MajorityIntersects | src/scp/LocalNode.cpp:49-89 | With the extra checks, any two sets of nodes that contain a slice have a node in common, nested sets included |
| QuorumSetNormal.FlatMajority | src/scp/LocalNode.cpp:59-63 | Without inner sets the extra checks hold if and only if any two such sets have a node in common |
| Quorums.IsQuorum | src/scp/LocalNode.cpp:339-371 | True exactly when some self-sufficient subset of the filtered nodes contains a slice of the given set |
| Quorums.GreatestQuorum | src/scp/LocalNode.cpp:354-370 | What the loop leaves is the greatest quorum: it contains a slice exactly when any quorum does |
| Quorums.QuorumSurvives | src/scp/LocalNode.cpp:355-368 | Removing unsupported nodes removes no member of any quorum |
| Quorums.KeepSupported | src/scp/LocalNode.cpp:357-367 | Keeps exactly the nodes with a slice among all of them, in order |
| VBlockingSearch.FindClosestVBlocking | src/scp/LocalNode.cpp:390-469 | For every sane quorum set the result is a smallest set of nodes without which no slice is left, and empty exactly when none is left already; with an excluded node, a smallest such set without it, if no set lists that node with threshold 1; for sets without inner sets, sane or not, the result cuts off all slices, and its size is the least if and only if no more than the threshold of entries are present or none of those is listed twice |
| VBlockingSearch.TakeCheapest | src/scp/LocalNode.cpp:452-468 | The loop takes the validators first and then the smallest cuts |
| VBlockingFlat.FlatLeast | src/scp/LocalNode.cpp:390-469 | Without inner sets, the number of entries taken is the least number of nodes if and only if at most threshold entries are present or no present node is listed twice |
| VBlockingFlat.FlatFound | src/scp/LocalNode.cpp:390-469 | Without inner sets, the entries taken cut off all slices, repeated or not |
| VBlockingFlat.CheapCut | src/scp/LocalNode.cpp:401-421 | Fewer than k nodes take away k entries as soon as one of them is listed twice |
| VBlockingExcluded.ClosestStripped | src/scp/LocalNode.cpp:403-420 | A closest cut of the quorum set without the excluded node is a closest cut that avoids it while it counts as present |
| VBlockingExcluded.CutExists | src/scp/LocalNode.cpp:403-420 | A cut that avoids the excluded node exists exactly when that node alone is no slice |
| VBlockingAlone.AloneFails | src/scp/LocalNode.cpp:403-450 | For sane sets in which the excluded node alone is no slice: the search is right for all nodes if and only if no set lists the excluded node with threshold 1; otherwise it reports a blocked set for nodes that contain a slice |
| VBlockingAlone.Misjudged | src/scp/LocalNode.cpp:434-450 | The nodes for which that happens, for every such set |
| VBlockingDistance.CutCostsMore | src/scp/LocalNode.cpp:395-468 | Every set that cuts off all slices is at least as large as the greedy choice |
| VBlockingDistance.SmallestFirst | src/scp/LocalNode.cpp:459-466 | Any choice of at least k inner sets costs at least the k smallest cuts |
| VBlockingDistance.FoundClosest | src/scp/LocalNode.cpp:452-468 | The greedy choice cuts off all slices and is a smallest such set |
| VBlockingSearch.RepeatedValidator | src/scp/LocalNode.cpp:390-469 | With a repeated validator the result can be too large: two entries where one node is enough |
| Quorums.FederatedAccept | src/scp/Slot.cpp:369-398 | True exactly when the accepting nodes block, or those that voted or accepted contain a quorum |
| Quorums.FederatedRatify | src/scp/Slot.cpp:400-407 | True exactly when the voting nodes contain a quorum |
| BallotMeaning.SliceOfExternalized | src/scp/Slot.cpp:295-326 | Any slice of nodes that externalised a value ratifies its commit, whatever quorum sets those nodes have |
| BlockSwap.Gcd | lib/util/getopt_long.c:107-120 | Returns a common divisor that is a combination of both numbers |
| BlockSwap.GcdIsGreatest | lib/util/getopt_long.c:107-120 | Every common divisor divides it, so it is the greatest |
| BlockSwap.PermuteArgs | lib/util/getopt_long.c:127-157 | The walk over all cycles exchanges the two blocks, each in its order, and touches nothing else |
| BlockSwap.FollowCycle | lib/util/getopt_long.c:143-155 | One inner loop turns one cycle |
| BlockSwap.OrbitInjective | lib/util/getopt_long.c:142-156 | A cycle visits each of its cells once |
| BlockSwap.OrbitReaches | lib/util/getopt_long.c:142-156 | A cycle visits every cell of its residue class |
| BlockSwap.TurnedIsExchanged | lib/util/getopt_long.c:142-156 | All cycles together exchange the blocks |
| BlockSwap.CycleLength | lib/util/getopt_long.c:137-140 | The computed length is the true length of every cycle, and no block is empty |
| GetoptScanner.FindLong | lib/util/getopt_long.c:186-212 | Finds the exact name, else the unambiguous abbreviation |
| GetoptScanner.Scanner.ParseLongOptions | lib/util/getopt_long.c:164-283 | Handles a long option as the specification step says, error cases, argument and flag cells included |
| GetoptScanner.Scanner.ParseOption | lib/util/getopt_long.c:399-476 | Handles the option at the scan position as the specification step says |
| GetoptScanner.Scanner.SkipOperand | lib/util/getopt_long.c:344-374 | Keeps the invariant of the scan while an operand is skipped |
| GetoptScanner.Scanner.Finish | lib/util/getopt_long.c:324-343 | Ends with the stable partition and optind at the first operand |
| GetoptScanner.Scanner.GetoptInternal | lib/util/getopt_long.c:289-477 | Reports the next option of the original words: the letter or table value that the word names, and as argument the text behind the equals sign or the letter, or the next word, or none; at the end the vector is partitioned exactly when the scan was not interrupted |
| GetoptScanner.Scanner.FetchWord | lib/util/getopt_long.c:317-397 | Passes over operands to the next option word, or ends the scan |
| GetoptMeaning.ReportsMean | lib/util/getopt_long.c:289-477 | Every report of a whole run is what its place in the original words means |
| GetoptMeaning.OptionIs | lib/util/getopt_long.c:399-476 | The specification step does at an option what the word means: a known option gives its value and its argument, anything else the error value and no argument |
| GetoptMeaning.LookUpDenotes | lib/util/getopt_long.c:186-212 | The search of the table finds the entry that a name denotes, exactly or as the only abbreviation |
| GetoptScanner.ScanAll | lib/util/getopt_long.c:289-477 | The whole run ends, returns the values and arguments that the original words mean, sets exactly the cells of the flags given, and leaves the stable partition unless, without long options and with a dash that is no option letter, it reaches a word that ends in a dash and has no letter taking an argument; then it does not |
| GetoptScanner.ExchangeSettles | lib/util/getopt_long.c:362-371 | A call of permute_args moves the skipped operands behind the options and keeps both orders |
| GetoptScanner.InterruptedUnsorted | lib/util/getopt_long.c:421-432 | A scan that stops on a dangling dash leaves the vector unpartitioned |
| GetoptInterruption.InterruptedExactly | lib/util/getopt_long.c:421-432 | A scan is interrupted if and only if there are no long options, a dash is no option letter, and a word is reached that has no letter taking an argument and ends in a dash |
| GetoptInterruption.LettersOutcome | lib/util/getopt_long.c:421-476 | What becomes of a scan at the letters of a word is decided by the first letter that takes an argument and the last character |
| GetoptScanner.InterruptionExample | lib/util/getopt_long.c:421-432 | The words file and -a- with option a are such a case |
| GetoptSpec.StepProgress | lib/util/getopt_long.c:399-476 | Each call finishes the word or moves along it, and returns -1 only on a dangling dash |
| GetoptSpec.StepLocal | lib/util/getopt_long.c:399-476 | A step reads no word before the scan position |
| JsonReader.WriteThenRead | lib/json/jsoncpp.cpp:332-403 | For every printable value, writing compactly and parsing succeeds without errors and returns the value up to the integer tags of the reader |
| JsonReader.WriteStyledThenRead | lib/json/jsoncpp.cpp:3216-3225 | Writing with indentation and parsing succeeds and returns what the value stands for, for members in any order and with repeated names; for printable values the value itself up to integer tags |
| JsonReading.RoundTrip | lib/json/jsoncpp.cpp:3162-3208 | The same as WriteThenRead for the specification functions |
| JsonAccepted.AcceptedExactly | lib/json/jsoncpp.cpp:332-677 | The reader accepts exactly the texts of the grammar (white space and comments, strings in any spelling, numbers, lists and tables) and reads each as what it stands for: the last member of each name counts, and members are ordered by name |
| JsonAccepted.ValueIsDoc | lib/json/jsoncpp.cpp:332-677 | Whatever a value is read from is a gap and a text of that value |
| JsonAccepted.CommaBehindEmptyName | lib/json/jsoncpp.cpp:592-601 | Behind an empty name the object may end after a comma |
| JsonReading.ReadDoc | lib/json/jsoncpp.cpp:332-677 | Every text of the grammar is read as what it stands for, whatever follows it that does not continue a number |
| JsonReading.ReadsMeaning | lib/json/jsoncpp.cpp:291-330 | A whole text is read as its meaning |
| JsonReading.GapToken | lib/json/jsoncpp.cpp:405-420 | White space and comments between tokens are passed over |
| JsonReading.CommentIsToken | lib/json/jsoncpp.cpp:514-564 | A comment of either form is one token, whatever follows |
| JsonMembers.InsertUpdates | lib/json/jsoncpp.cpp:2379-2396 | Inserting a member keeps the order, gives the name its new value and changes no other member |
| JsonMembers.MembersGather | lib/json/jsoncpp.cpp:587-640 | Members read in any order give each name once, with its last value |
| JsonMembers.ReadBackMeans | lib/json/jsoncpp.cpp:587-677 | What is read from a value is what the value stands for |
| JsonMembers.MeansUnique | lib/json/jsoncpp.cpp:587-677 | A value stands for one value only |
| JsonMembers.ParsedOrdered | lib/json/jsoncpp.cpp:587-677 | In everything that is read, members are ordered by name without repetition |
| JsonReading.ParseFast | lib/json/jsoncpp.cpp:332-403 | The compact text of a value is read back in front of any delimiter |
| JsonStrings.SpelledExactly | lib/json/jsoncpp.cpp:793-844 | A string token decodes to a string if and only if it spells it: plain characters, the eight escapes of one letter, and Unicode escapes in digits of either case |
| JsonStrings.SpelledString | lib/json/jsoncpp.cpp:575-585 | In any spelling a string is one token, whatever follows, and is read as the string |
| JsonStrings.WrittenClean | lib/json/jsoncpp.cpp:3075-3135 | What the writers put between quotes spells the string and holds no bare control character |
| JsonScalars.AccumulateExact | lib/json/jsoncpp.cpp:689-735 | The digit loop gives up exactly when the number exceeds the limit |
| JsonScalars.IntegerDecoding | lib/json/jsoncpp.cpp:689-735 | A digit token decodes as an exact integer if and only if it fits the 64-bit limit of its sign, and as a double otherwise |
| JsonScalars.NumberDecodes | lib/json/jsoncpp.cpp:689-735 | A number token is decoded to exactly what it stands for: an integer of 64 bits if it has digits only, and otherwise its text |
| JsonScalars.ScalarReads | lib/json/jsoncpp.cpp:332-403 | Every text of a scalar is read as the scalar |
| JsonScalars.ScalarRead | lib/json/jsoncpp.cpp:332-403 | A scalar is read only from one of its texts |
| JsonScalars.DecimalValue | lib/json/jsoncpp.cpp:145-151 | A printed number denotes the number |
| JsonUnicode.Utf8Decodes | lib/json/jsoncpp.cpp:100-126 | codePointToUTF8 is inverted by a decoder, and each length is used for its own range |
| JsonUnicode.CodePointReads | lib/json/jsoncpp.cpp:846-873 | Reading inverts the escape of every code point but leading surrogates, surrogate pairs included |
| JsonUnicode.EscapedCodePoint | lib/json/jsoncpp.cpp:793-901 | An escaped code point decodes to its UTF-8 form |
| JsonFastWriter.UintToString | lib/json/jsoncpp.cpp:145-151 | Fills the buffer backwards with the digits and stays inside it |
| JsonFastWriter.IntegerToString | lib/json/jsoncpp.cpp:3003-3022 | Sign and digits fit the buffer, for every 64-bit integer and the smallest one too |
| JsonFastWriter.ValueToQuotedString | lib/json/jsoncpp.cpp:3075-3135 | Quotes and escapes every character |
| JsonFastWriter.FastWriter.Write | lib/json/jsoncpp.cpp:3154-3160 | The document is the compact text and a line feed |
| JsonFastWriter.FastWriter.WriteValue | lib/json/jsoncpp.cpp:3162-3208 | Appends the compact text of the value and nothing else |
| JsonStyledWriter.StyledWriter.Write | lib/json/jsoncpp.cpp:3216-3225 | The document is exactly the laid-out text: each member and each item of a long array on its own row, indented by its depth, short arrays on one line |
| JsonStyledWriter.StyledWriter.WriteIndent | lib/json/jsoncpp.cpp:3354-3363 | Starts a row with the indentation, unless the document already ends in one |
| JsonIndentation.StyledAligned | lib/json/jsoncpp.cpp:3216-3375 | Every line of the output starts with three blanks for each bracket that is open there, the one that the line closes not counted |
| JsonIndentation.StyledHeight | lib/json/jsoncpp.cpp:3216-3375 | The number of lines: one for each scalar and short array, two for the brackets of any other container, and those of its items or members, which share no line |
| JsonIndentation.OneLineExactly | lib/json/jsoncpp.cpp:3322-3345 | An array is written on one line if and only if its items are scalars or empty and the line is shorter than 74 characters; the test of the number of items changes nothing |
| JsonStyledLaws.StyledRoundTrip | lib/json/jsoncpp.cpp:3216-3225 | Reading the laid-out text returns the value |
| JsonStyledLaws.StyledStrips | lib/json/jsoncpp.cpp:3216-3375 | Without white space outside strings the laid-out text is the compact one |
| JsonStyledWriter.StyledWriter.WriteValue | lib/json/jsoncpp.cpp:3227-3277 | Appends exactly the laid-out text of the value, or collects its compact text as a child value |
| JsonStyledWriter.StyledWriter.WriteArrayValue | lib/json/jsoncpp.cpp:3279-3320 | Appends exactly the laid-out array, from fresh child values in all three layouts |
| JsonStyledWriter.StyledWriter.IsMultilineArray | lib/json/jsoncpp.cpp:3322-3345 | True exactly when the items do not fit on one line; child values are empty or exactly those of this array, never stale |
| JsonStyledWriter.StyledWriter.WriteObjectValue | lib/json/jsoncpp.cpp:3250-3275 | Appends exactly the laid-out object |
| JsonStyledLaws.StripAppend | lib/json/jsoncpp.cpp:3216-3375 | Removing layout works piece by piece, with the string state carried over |
| JsonReader.Reader.Parse | lib/json/jsoncpp.cpp:291-330 | Succeeds, without errors, if and only if the document starts with a text of the grammar, and returns what it stands for; members are ordered by name |
| JsonReader.Reader.ReadValue | lib/json/jsoncpp.cpp:332-403 | Reads the value that the specification reads, or fails with it |
| JsonReader.Reader.ReadArray | lib/json/jsoncpp.cpp:642-677 | The same for arrays |
| JsonReader.Reader.ReadObject | lib/json/jsoncpp.cpp:587-640 | The same for objects, members in any order and repeated names included |
| JsonReader.Reader.ReadToken | lib/json/jsoncpp.cpp:422-491 | Finds the kind and the extent of the next token |
| JsonReader.Reader.ReadString | lib/json/jsoncpp.cpp:575-585 | Finds the end of a string and whether it is closed |
| JsonReader.Reader.ReadComment | lib/json/jsoncpp.cpp:514-535 | Finds the extent of a comment and whether it is one |
| JsonReader.Reader.DecodeNumber | lib/json/jsoncpp.cpp:689-735 | Decodes as specified, and no step leaves the 64-bit range |
| JsonReader.Reader.DecodeString | lib/json/jsoncpp.cpp:793-844 | Decodes as specified or fails with an error |
| JsonReader.Reader.DecodeCodePoint | lib/json/jsoncpp.cpp:846-873 | Reads a code point or a surrogate pair as specified |
| JsonReader.Reader.DecodeEscapeSequence | lib/json/jsoncpp.cpp:875-901 | Reads four hexadecimal digits or fails with an error |
| JsonReader.Reader.RecoverFromError | lib/json/jsoncpp.cpp:913-924 | Skips to behind the first token of the given kind, or to the end |
| TrackerRunner.RunTest | lib/catch.hpp:7733-7752 | The loop ends after exactly the listed runs; without exceptions every leaf section is entered exactly once, in depth-first order; in any case no leaf is entered twice and the order is depth-first |
| TrackerRunner.RunCycle | lib/catch.hpp:7938-7984 | One cycle is one visit of the test case with its exceptions caught |
| TrackerRunner.RunContext.ExecuteSection | lib/catch.hpp:8015-8034 | A section statement does what the specification step says, to the trackers, the cycle, the log and the exception |
| TrackerRunner.RunContext.ExecuteBody | lib/catch.hpp:8015-8034 | The sections inside a section run in order until one throws |
| TrackerRunner.RunContext.SectionStarted | lib/catch.hpp:7804-7817 | Included exactly when the cycle is not over and the section is not complete; no stale tracker is taken for an open one |
| TrackerRunner.RunContext.SectionEnded | lib/catch.hpp:7831-7842 | Closes the innermost section; the states for which close reports an internal error do not occur |
| TrackerRunner.RunContext.SectionEndedEarly | lib/catch.hpp:7844-7852 | The innermost section of an exception fails, the outer ones are closed |
| TrackerRunner.RunContext.Acquire | lib/catch.hpp:9261-9282 | Finds or adds the tracker and opens it unless the cycle is over or it is complete |
| TrackerRunner.RunContext.Open | lib/catch.hpp:9192-9197 | Opens a child and marks its parent as executing children |
| TrackerRunner.RunContext.OpenChild | lib/catch.hpp:9181-9187 | Changes one tracker only, because those above are executing children already |
| TrackerRunner.RunContext.Close | lib/catch.hpp:9199-9227 | Completes the tracker exactly when nothing is left in it, and ends the cycle |
| TrackerRunner.RunContext.Fail | lib/catch.hpp:9228-9234 | Fails the tracker, marks its parent and ends the cycle |
| TrackerRuns.EnterRuns | lib/catch.hpp:9181-9282 | A visit performs exactly the first remaining run of a section and leaves exactly the others |
| TrackerRuns.SubsRuns | lib/catch.hpp:9181-9282 | The same for the sections inside a section |
| TrackerLaws.OneRunPerLeaf | lib/catch.hpp:7748-7752 | Without exceptions the runs are one for each leaf, in depth-first order |
| TrackerLaws.LeavesInOrder | lib/catch.hpp:7748-7852 | With exceptions the leaves entered are a subsequence of the depth-first order |
| TrackerLaws.NeverTwice | lib/catch.hpp:7748-7852 | No leaf section is entered twice |
| TrackerLaws.EnterSettles | lib/catch.hpp:9261-9287 | A section that completed or failed is never entered again: its tracker stays as it is |
| Uint128Division.DivMod | lib/util/uint128_t.cpp:239-270 | For every non-zero divisor the loop ends with q and r such that lhs = q * rhs + r and r < rhs; division by zero is reported |
| Uint128Division.DivideTurn | lib/util/uint128_t.cpp:261-268 | One turn keeps the dividend and the power-of-two multiple of the divisor |
| Uint128Division.Align | lib/util/uint128_t.cpp:254-260 | Starts from the highest multiple that can be needed |
| Uint128Division.OrUAdds | lib/util/uint128_t.cpp:262-265 | In the quotient the bitwise or is an addition |
| Uint128Division.DivisionUnique | lib/util/uint128_t.cpp:239-270 | The results are the quotient and the remainder |
| Uint128Division.Modulo | lib/util/uint128_t.cpp:281-283 | The remainder, though computed through wrapping product and difference |
| Uint128Division.Bits | lib/util/uint128_t.cpp:320-338 | The bit length |
| Uint128Division.Str | lib/util/uint128_t.cpp:340-359 | The text denotes the number, has the asked length, and no other leading zero; bad bases are reported |
| Uint128Division.Significant | lib/util/uint128_t.cpp:348-354 | The digit loop ends with the digits of the number |
| Uint128Product.Multiply | lib/util/uint128_t.cpp:200-232 | The product modulo 2^128 |
| Uint128Product.Products | lib/util/uint128_t.cpp:202-210 | The partial products fit 64 bits |
| Uint128Product.Columns | lib/util/uint128_t.cpp:212-231 | The columns do not overflow and combine to the sum of the shifted products |
| Uint128Product.KeptProducts | lib/util/uint128_t.cpp:200-232 | The dropped products do not matter modulo 2^128 |
| Uint128.AddIsModular | lib/util/uint128_t.cpp:181-183 | The sum modulo 2^128 |
| Uint128.SubIsModular | lib/util/uint128_t.cpp:191-193 | The difference modulo 2^128 |
| Uint128.GreaterIsGreater | lib/util/uint128_t.cpp:159-175 | The comparison of the numbers |
| Uint128.ShiftLeftIsTimes | lib/util/uint128_t.cpp:85-105 | The number times a power of two, modulo 2^128, for every shift |
| Uint128.ShiftRightIsDivide | lib/util/uint128_t.cpp:107-127 | The number divided by a power of two, for every shift |
| Crc16.Compute | lib/util/crc16.cpp:82-89 | Computes the folded CRC |
| Crc16Polynomial.CrcIsRemainder | lib/util/crc16.cpp:32-89 | The CRC is the one remainder of the message times x^16 modulo x^16 + x^12 + x^5 + 1, for every length |
| Crc16Polynomial.RemainderUnique | lib/util/crc16.cpp:32-45 | Quotient and remainder of a polynomial are unique |
| Crc16.BurstDetected | lib/util/crc16.cpp:82-89 | Any change confined to two adjacent bytes changes the CRC |
| Crc16.OwnCrcGivesZero | lib/util/crc16.cpp:82-89 | Two bytes bring the CRC to zero exactly when they are the CRC of the message, high byte first |
| Crc16Register.TableIsBits | lib/util/crc16.cpp:47-80 | Each of the 256 table entries is what eight bit steps make of its index |
| Crc16Register.StepIsBits | lib/util/crc16.cpp:82-89 | The table step equals eight bit steps |
| Crc16Register.Shift8Linear | lib/util/crc16.cpp:47-80 | Eight bit steps are linear |
| Crc16Register.Shift8Injective | lib/util/crc16.cpp:47-80 | Eight bit steps are injective |
| BaseNCodec.EncodeThenDecode | lib/util/basen.h:150-251 | For every byte sequence and every codec the loops give the bytes back, through a text of the announced size |
| BaseNCodec.Encode | lib/util/basen.h:211-251 | The text is one letter for each group of bits, and padding; the loop with the backlog ends |
| BaseNCodec.PadOut | lib/util/basen.h:246-250 | Padding until the bits end on a byte |
| BaseNCodec.Decode | lib/util/basen.h:150-209 | The bytes are the whole bytes of the letters' bits, and a truncated one without proper padding |
| BaseNCodec.DecodeValue | lib/util/basen.h:174-198 | One value goes into the buffer, and full bytes come out |
| BaseN.RoundTrip | lib/util/basen.h:150-251 | Decoding inverts encoding |
| BaseN.TextLength | lib/util/basen.h:275-288 | The text has the size that encoded_size16, encoded_size32 and encoded_size64 announce |
| BaseN.JunkIsIgnored | lib/util/basen.h:159-173 | Characters outside the alphabet, inserted anywhere, do not change the letters or the count of equal signs that decoding depends on |
| BaseN.PartialBits | lib/util/basen.h:253-259 | Extracts the bits of one byte |
| BaseN.OverlapBits | lib/util/basen.h:261-269 | Extracts the bits across two bytes |
| BaseN.Codec.LetterRoundTrip | lib/util/basen.h:60-148 | Every letter decodes to its value and is not the padding |
| BaseN.Codec.DigitIs | lib/util/basen.h:60-148 | A character has a value if and only if it is in the alphabet, and the value is its place there |
| HttpParser.RequestParser.Consume | lib/http/request_parser.cpp:29-286 | Consumes one character as the machine says, and the last header exists wherever it is used |
| HttpGrammar.TokenIs | lib/http/request_parser.cpp:301-328 | The characters of a token are exactly letters, digits and the fifteen marks of section 2.2 of RFC 1945 |
| HttpGrammar.ControlIs | lib/http/request_parser.cpp:296-299 | Control characters are exactly 0 to 31 and 127 |
| HttpParser.RequestParser.ConsumeHeader | lib/http/request_parser.cpp:189-282 | The same for the header states |
| HttpLanguage.AcceptedExactly | lib/http/request_parser.cpp:29-286 | A text is accepted if and only if it starts with a request line with versions of one or more digits, header lines and continuation lines, and an empty line |
| HttpLanguage.AcceptedText | lib/http/request_parser.cpp:29-286 | What an accepted text was, part by part: the characters consumed are its rendering and the request is its meaning, with continuation lines joined |
| HttpLanguage.RenderAccepted | lib/http/request_parser.cpp:29-286 | Every such text is accepted on exactly its last character and gives the request it means |
| HttpLanguage.PrintThenParse | lib/http/request_parser.cpp:29-286 | The text of every well-formed request is accepted on exactly its last character and gives the request back |
| HttpLanguage.ParseThenPrint | lib/http/request_parser.cpp:29-286 | Every accepted request is well-formed, and printing it and parsing that gives the same request, whatever the text was |
| HttpParser.RequestParser.Parse | lib/http/request_parser.hpp:38-49 | Verdict, request and consumed count are those of feeding the characters one by one |
| HttpSpec.FeedJoin | lib/http/request_parser.hpp:38-49 | Feeding in two parts is feeding at once |
| HttpSpec.NoVerdictBefore | lib/http/request_parser.hpp:38-49 | There is no verdict before the last consumed character |
| HttpParser.ReadRequest | lib/http/connection.cpp:42-76 | However the input is split into chunks, verdict, request and consumed count are the same |
| HttpSpec.ChunksDoNotMatter | lib/http/connection.cpp:42-76 | The same for the specification functions |
| LruCache.Execute | lib/util/lrucache.hpp:53-100 | After every run of operations the cache is what the specification says, with list and index linked and within capacity |
| LruCache.Cache.Put | lib/util/lrucache.hpp:53-69 | Puts the item in front and pushes out the last one if there are too many; list and index stay linked |
| LruCache.Cache.Get | lib/util/lrucache.hpp:71-79 | Returns the value and moves the item to the front, or reports a missing key and changes nothing |
| LruCache.Cache.EraseIfExists | lib/util/lrucache.hpp:81-87 | Removes the item from list and index, if there is one |
| LruCache.Cache.Clear | lib/util/lrucache.hpp:89-92 | Empties list and index |
| LruCache.Cache.Exists | lib/util/lrucache.hpp:94-96 | True exactly when the list has the key |
| LruCache.Cache.Size | lib/util/lrucache.hpp:98-100 | The length of the list |
| LruCache.SameSize | lib/util/lrucache.hpp:53-100 | List and index have the same size |
| LruSpec.RunKeeps | lib/util/lrucache.hpp:53-100 | No key is there twice, and the capacity is never exceeded |
| LruSpec.HitIsLastPut | lib/util/lrucache.hpp:53-79 | Every value in the cache is the last one put under its key and not erased |
| LruSpec.SortedByUse | lib/util/lrucache.hpp:53-79 | The list is sorted by the time of last use |
| LruSpec.EvictsLeastRecent | lib/util/lrucache.hpp:63-68 | A put pushes out at most one other key, the one whose last use is longest ago |
| LruInclusion.Inclusion | lib/util/lrucache.hpp:53-100 | For every run of operations, what a smaller cache holds is what a larger one holds with some items left out, in the same order, and the lengths differ by no more than the capacities |
| LruInclusion.HitsInclude | lib/util/lrucache.hpp:71-79 | A look-up that succeeds in a smaller cache returns the same value from a larger one |
| LruInclusion.PrefixWhileHits | lib/util/lrucache.hpp:53-100 | As long as look-ups hit in the smaller cache, it holds the front of what the larger one holds |
| FormatInt.CountDigits | lib/util/format.h:505-510 | For every 64-bit number the count from the bit length is the length of the decimal numeral |
| FormatInt.EstimateIsClose | lib/util/format.h:508-509 | For each bit length the estimate is off by less than one digit |
| FormatInt.CountDigitsByDivision | lib/util/format.h:520-533 | The fallback loop counts the same |
| FormatInt.FormatDecimal | lib/util/format.h:539-559 | Fills exactly the counted cells with the numeral and nothing else |
| FormatInt.FormatBackwards | lib/util/format.h:2203-2222 | The numeral ends before the last cell and the buffer is large enough |
| FormatInt.FormatSigned | lib/util/format.h:2224-2232 | Sign and numeral, for every 64-bit integer and the smallest one too |

## Left out

- Agreement.Agree: covers nodes whose checkInvariants aborts on failure, as in builds with debug assertions; a build without them is not covered. Restoring a node from a stored envelope and changing quorum sets during a slot are not modelled.
- BallotProtocol.Node.AdvanceSlot: the processing of the node's own statement inside emitCurrentStateStatement is not nested; it is a further call with that statement as hint. attemptBump, the heard-from-quorum flag and the limit on recursion are not modelled.
- BallotProtocol.Node.BumpState: the choice of counter by attemptBump and the timer that leads to it are parameters.
- Nomination, envelope signatures, value validation by the driver, and everything of `src` outside `src/scp`.
- Ballot values are natural numbers: the protocol only compares them, and 0 stands for the empty value.
- VBlockingSearch.FindClosestVBlocking: of quorum sets that are not sane, only those without inner sets are covered; for a single set of nodes, having no set that lists the excluded node with threshold 1 is sufficient and not necessary.
- GetoptScanner.ScanAll: a vector of at least one word, table values other than -1, and no use of optreset; error messages are not modelled.
- JSON numbers with fraction or exponent: a real keeps the text that sscanf gets. Comments are skipped, not collected; reader features other than the default ones and sparse arrays are not modelled.
- JsonReader.Reader.Parse: the partly built value after a failure is not modelled, nor is the failure of sscanf on the text of a malformed real, which is kept as a real.
- JsonReader.Reader.DecodeNumber: whether sscanf converts the text of a real is not modelled.
- JsonReader.Reader.ReadObject: names that hold a NUL character are compared whole, not up to that character.
- JsonStyledWriter.StyledWriter.Write: values that hold a real are left out, because their digits come from sprintf.
- JsonStyledWriter.StyledWriter.WriteValue: values that hold a real are left out, for the same reason.
- TrackerRunner.RunTest: trackers are nodes of a tree addressed by paths rather than heap objects; filters, abort limits, generators and the counts of assertions are not modelled. Siblings have different names.
- HttpParser.RequestParser.Consume: version numbers are natural numbers; overflow of int is not modelled.
- LruCache.Cache.Get: list iterators are node numbers; the exception for a missing key is an empty result.
- The other operators of the 128-bit class are one-line combinations of those modelled, or mixed with narrower types.
- Floating-point output and format strings of `lib/util/format.h`.
- FormatInt.FormatDecimal: the digit table is a function of its index.
- Sockets, files, logging, reporters and command lines.
