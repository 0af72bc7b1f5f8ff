/**
 findClosestVBlocking of src/scp/LocalNode.cpp: a smallest set of nodes whose
 failure leaves a node without quorum slice.
 */
module VBlockingSearch {
  import opened QuorumSets
  import opened QuorumSetNormal
  import opened VBlockingDistance
  import opened VBlockingExcluded
  import opened VBlockingFlat

  /** The order of the multiset: by size, equal ones in order of insertion. */
  function Insert(parts: seq<Part>, p: Part): (r: seq<Part>)
    ensures |r| == |parts| + 1
    ensures forall x :: x in r <==> x in parts || x == p
  {
    if parts == [] then [p]
    else if |p.cut| < |parts[|parts| - 1].cut| then Insert(parts[..|parts| - 1], p) + [parts[|parts| - 1]]
    else parts + [p]
  }

  lemma {:induction false} InsertSorted(parts: seq<Part>, p: Part)
    requires BySize(parts)
    ensures BySize(Insert(parts, p))
    decreases |parts|
  {
    if parts != [] && |p.cut| < |parts[|parts| - 1].cut| {
      var front, last := parts[..|parts| - 1], parts[|parts| - 1];
      InsertSorted(front, p);
      forall x | x in Insert(front, p) ensures |x.cut| <= |last.cut| {
        assert x in front || x == p;
      }
    }
  }

  lemma {:induction false} InsertIndexed(parts: seq<Part>, p: Part)
    requires Indexed(parts) && forall x | x in parts :: x.index != p.index
    ensures Indexed(Insert(parts, p))
    decreases |parts|
  {
    if parts != [] && |p.cut| < |parts[|parts| - 1].cut| {
      var front, last := parts[..|parts| - 1], parts[|parts| - 1];
      InsertIndexed(front, p);
      assert forall x | x in front :: x.index != last.index;
    }
  }

  /** Parts of the first k inner sets. */
  ghost predicate PartsUpTo(qs: seq<QSet>, nodes: set<NodeId>, k: nat, parts: seq<Part>)
    requires k <= |qs|
  {
    PartsOf(qs, nodes, parts) && Indices(parts) == Alive(qs[..k], nodes)
  }

  lemma NextPart(qs: seq<QSet>, nodes: set<NodeId>, k: nat, parts: seq<Part>, cut: seq<NodeId>)
    requires k < |qs| && PartsUpTo(qs, nodes, k, parts) && Closest(qs[k], nodes, cut)
    ensures cut == [] ==> PartsUpTo(qs, nodes, k + 1, parts)
    ensures cut != [] ==> PartsUpTo(qs, nodes, k + 1, Insert(parts, Part(k, cut)))
  {
    hide Slice, Insert, Nodes, BySize, Indexed;
    assert Alive(qs[..k + 1], nodes) == Alive(qs[..k], nodes) + (if Slice(qs[k], nodes) then {k} else {});
    if cut != [] {
      var p := Part(k, cut);
      var more := Insert(parts, p);
      InsertSorted(parts, p);
      forall x | x in parts ensures x.index != k {
        assert x.index in Indices(parts);
      }
      InsertIndexed(parts, p);
      assert Indices(more) == Indices(parts) + {k};
      forall i | 0 <= i < |more| ensures PartOf(qs, nodes, more[i]) {
        assert more[i] in parts || more[i] == p;
      }
    }
  }

  /** Sizes are 64-bit numbers: below zero they wrap around. */
  function Wrap(n: int): (r: nat)
    requires n >= -0x1_0000_0000
    ensures n >= 0 ==> r == n
  {
    if n < 0 then n + 0x1_0000_0000_0000_0000 else n
  }

  lemma {:induction false} CountRest(vs: seq<NodeId>, k: nat, s: set<NodeId>)
    requires k <= |vs|
    ensures Count(vs, s) <= Count(vs[..k], s) + |vs| - k
    decreases |vs|
  {
    if k < |vs| {
      CountRest(vs[..|vs| - 1], k, s);
      assert vs[..|vs| - 1][..k] == vs[..k];
    } else {
      assert vs[..k] == vs;
    }
  }

  lemma {:induction false} SlicesRest(qs: seq<QSet>, k: nat, s: set<NodeId>)
    requires k <= |qs|
    ensures SlicesIn(qs, s) <= SlicesIn(qs[..k], s) + |qs| - k
    decreases |qs|
  {
    hide Slice;
    if k < |qs| {
      SlicesRest(qs[..|qs| - 1], k, s);
      assert qs[..|qs| - 1][..k] == qs[..k];
    } else {
      assert qs[..k] == qs;
    }
  }

  lemma NoSlice(q: QSet, nodes: set<NodeId>)
    requires Sane(q) && Count(q.validators, nodes) + SlicesIn(q.inner, nodes) < q.threshold
    ensures Closest(q, nodes, [])
  {
    hide Count, SlicesIn, Sane, Nodes;
    ThresholdPositive(q);
    assert nodes - AsSet([]) == nodes;
  }

  /** Too many validators are missing already. */
  lemma BlockedByValidators(q: QSet, nodes: set<NodeId>, k: nat)
    requires Sane(q) && k <= |q.validators|
    requires k - Count(q.validators[..k], nodes) == 1 + q.Entries() - q.threshold
    ensures Closest(q, nodes, [])
  {
    hide Count, SlicesIn, Sane, Closest;
    CountRest(q.validators, k, nodes);
    NoSlice(q, nodes);
  }

  /** Too many entries are missing already. */
  lemma BlockedByInner(q: QSet, nodes: set<NodeId>, k: nat, parts: seq<Part>)
    requires Sane(q) && k <= |q.inner| && PartsUpTo(q.inner, nodes, k, parts)
    requires |q.validators| - Count(q.validators, nodes) + (k - |parts|) == 1 + q.Entries() - q.threshold
    ensures Closest(q, nodes, [])
  {
    hide Count, SlicesIn, Sane, Closest, BySize, Alive, Indices;
    SlicesRest(q.inner, k, nodes);
    AliveCount(q.inner[..k], nodes);
    IndexCount(parts);
    NoSlice(q, nodes);
  }

  lemma PresentStep(vs: seq<NodeId>, i: nat, nodes: set<NodeId>)
    requires i < |vs|
    ensures Present(vs[..i + 1], nodes) == Present(vs[..i], nodes) + (if vs[i] in nodes then [vs[i]] else [])
  {
    assert vs[..i + 1][..i] == vs[..i];
  }

  lemma NothingJoined(taken: seq<NodeId>, parts: seq<Part>)
    ensures taken + Joined(parts[..0]) == taken
  {
  }

  lemma OneMoreCut(taken: seq<NodeId>, parts: seq<Part>, it: nat)
    requires it < |parts|
    ensures taken + Joined(parts[..it]) + parts[it].cut == taken + Joined(parts[..it + 1])
  {
    assert parts[..it + 1][..it] == parts[..it];
  }

  /** The prefix of the validators seen so far, without the excluded node. */
  lemma SeenPrefix(vs: seq<NodeId>, i: nat, e: Excluded, nodes: set<NodeId>)
    requires i < |vs|
    ensures var seen, next := Drop(vs[..i], e), Drop(vs[..i + 1], e);
            && |next| == |seen| + (if e.Is(vs[i]) then 0 else 1) && next <= Drop(vs, e)
            && Present(next, nodes) == Present(seen, nodes) + (if !e.Is(vs[i]) && vs[i] in nodes then [vs[i]] else [])
  {
    hide Drop, Present;
    DropStep(vs, i, e);
    var seen, next := Drop(vs[..i], e), Drop(vs[..i + 1], e);
    if !e.Is(vs[i]) {
      PresentStep(next, |seen|, nodes);
      assert next[..|seen|] == seen && next[..|seen| + 1] == next;
    } else {
      assert next == seen;
    }
  }

  /** Too few validators are present already. */
  lemma FlatBlocked(q: QSet, nodes: set<NodeId>, k: nat)
    requires Flattened(q) && k <= |q.validators|
    requires k - Count(q.validators[..k], nodes) == 1 + q.Entries() - q.threshold
    ensures FlatSize(q, nodes) == 0
  {
    hide Count;
    CountRest(q.validators, k, nodes);
  }

  /** For a flat set: the entries found cut, and when they are as few as possible. */
  ghost predicate FlatResult(q: QSet, nodes: set<NodeId>, res: seq<NodeId>) {
    && Cuts(q, nodes, AsSet(res)) && |res| == FlatSize(q, nodes)
    && (Least(q, nodes, |res|)
        <==> Count(q.validators, nodes) <= q.threshold || Distinct(Present(q.validators, nodes)))
  }

  lemma FlatTaken(q: QSet, nodes: set<NodeId>, res: seq<NodeId>)
    requires Flattened(q) && |res| == FlatSize(q, nodes) && res <= Present(q.validators, nodes)
    ensures FlatResult(q, nodes, res)
  {
    hide Cuts, Count, Present, Least, Distinct;
    FlatFound(q, nodes);
    FlatLeast(q, nodes);
    assert res == Present(q.validators, nodes)[..FlatSize(q, nodes)];
  }

  /** The entries still to take are those that a flat set has to lose. */
  lemma FlatLeft(q: QSet, nodes: set<NodeId>, left: int)
    requires left == 1 + q.Entries() - q.threshold - (|q.validators| - Count(q.validators, nodes)) && left > 0
    ensures Flattened(q) ==> left == FlatSize(q, nodes)
  {
    hide Count;
  }

  /** What the search promises about the quorum set without the excluded node. */
  ghost predicate Found(q: QSet, nodes: set<NodeId>, excluded: Excluded, res: seq<NodeId>) {
    var p := Stripped(q, excluded);
    && (Fits(q, excluded) && Sane(p) ==> Closest(p, nodes, res))
    && (Fits(q, excluded) && Flattened(p) ==> FlatResult(p, nodes, res))
    && (Sane(q) ==> (res == [] <==> !Slice(p, nodes)))
  }

  /** What this means for the quorum set itself. */
  lemma WhatIsFound(q: QSet, nodes: set<NodeId>, excluded: Excluded, res: seq<NodeId>)
    requires Found(q, nodes, excluded, res)
    ensures excluded.Nobody? && Sane(q) ==> Closest(q, nodes, res)
    ensures excluded.Nobody? && Flattened(q) ==> FlatResult(q, nodes, res)
    ensures excluded.Only? && Sane(q) && NeverAlone(q, excluded.node) ==> ClosestAvoiding(q, nodes, excluded.node, res)
  {
    hide Closest, Sane, Stripped, NeverAlone, ClosestAvoiding, Flattened, FlatResult, Fits, Slice;
    if excluded.Nobody? {
      StrippedNobody(q);
      if Sane(q) || Flattened(q) { FitsNobody(q); }
    } else if Sane(q) && NeverAlone(q, excluded.node) {
      SaneStripped(q, excluded.node);
      ClosestStripped(q, nodes, excluded.node, res);
    }
  }

  lemma FitsNobody(q: QSet)
    requires Sane(q) || Flattened(q)
    ensures Fits(q, Nobody)
  {
    hide Fits;
    NobodyFits(q);
  }

  lemma StrippedParts(q: QSet, e: Excluded)
    ensures var p := Stripped(q, e);
            && p.validators == Drop(q.validators, e) && p.inner == AllStripped(q.inner, e)
            && (Fits(q, e) ==> q.threshold - p.threshold == |q.validators| - |p.validators| && AllFit(q.inner, e))
            && (Fits(q, e) && (Sane(p) || Flattened(p)) ==> 1 <= q.threshold <= q.Entries())
  {
    hide Drop;
    var p := Stripped(q, e);
    if Sane(p) { SaneParts(p); }
  }

  /** In a sane set a threshold above the excluded entries is lowered by them, any other falls to one. */
  lemma SaneThreshold(q: QSet, e: Excluded)
    requires Sane(q)
    ensures 1 <= q.threshold <= q.Entries()
    ensures var p := Stripped(q, e);
            var gone := |q.validators| - |p.validators|;
            gone <= q.threshold && p.threshold == if gone < q.threshold then q.threshold - gone else 1
  {
    SaneParts(q);
    if e.Only? {
      DropDistinct(q.validators, e.node);
    } else {
      DropNobody(q.validators);
    }
  }

  // --- giving up early ----------------------------------------------------------------------

  /** Too many validators are missing. */
  lemma ValidatorsMissing(q: QSet, e: Excluded, nodes: set<NodeId>, k: nat)
    requires var p := Stripped(q, e);
             && k <= |p.validators|
             && (1 <= q.threshold <= q.Entries() ==> k - Count(p.validators[..k], nodes) == 1 + q.Entries() - q.threshold)
    ensures Found(q, nodes, e, [])
  {
    hide Closest, Sane, FlatResult, Flattened, Fits, Count, Present, Stripped;
    var p := Stripped(q, e);
    StrippedParts(q, e);
    if Fits(q, e) && Sane(p) { BlockedByValidators(p, nodes, k); }
    if Fits(q, e) && Flattened(p) {
      FlatBlocked(p, nodes, k);
      FlatTaken(p, nodes, []);
    }
    if Sane(q) {
      CountRest(p.validators, k, nodes);
      SaneThreshold(q, e);
    }
  }

  /** Too many entries are missing. */
  lemma EntriesMissing(q: QSet, e: Excluded, nodes: set<NodeId>, k: nat, parts: seq<Part>)
    requires var p := Stripped(q, e);
             && k < |p.inner| && Gathered(q, e, nodes, k + 1, parts)
             && (1 <= q.threshold <= q.Entries() ==>
                   |p.validators| - Count(p.validators, nodes) + (k + 1 - |parts|) == 1 + q.Entries() - q.threshold)
    ensures Found(q, nodes, e, [])
  {
    hide Closest, Sane, FlatResult, Fits, Count, Stripped, PartsUpTo;
    var p := Stripped(q, e);
    StrippedParts(q, e);
    if Fits(q, e) && Sane(p) { BlockedByInner(p, nodes, k + 1, parts); }
    if Sane(q) {
      SlicesRest(p.inner, k + 1, nodes);
      SaneThreshold(q, e);
    }
  }

  // --- the inner sets ------------------------------------------------------------------------

  /** The parts of the first k inner sets, closest cuts if the sets are good enough. */
  ghost predicate Gathered(q: QSet, e: Excluded, nodes: set<NodeId>, k: nat, parts: seq<Part>)
    requires k <= |q.inner|
  {
    var p := Stripped(q, e);
    && (Fits(q, e) && Sane(p) ==> PartsUpTo(p.inner, nodes, k, parts))
    && (Sane(q) ==> |parts| == SlicesIn(p.inner[..k], nodes) && forall x | x in parts :: x.cut != [])
  }

  lemma GatherNothing(q: QSet, e: Excluded, nodes: set<NodeId>)
    ensures Gathered(q, e, nodes, 0, [])
  {
    hide Sane, Fits;
  }

  lemma GatherNext(q: QSet, e: Excluded, nodes: set<NodeId>, k: nat, parts: seq<Part>, cut: seq<NodeId>)
    requires k < |q.inner| && Gathered(q, e, nodes, k, parts) && Found(q.inner[k], nodes, e, cut)
    ensures Gathered(q, e, nodes, k + 1, if cut == [] then parts else Insert(parts, Part(k, cut)))
  {
    hide Closest, Sane, FlatResult, Flattened, Fits, Stripped, PartsUpTo, Insert, Slice, SlicesIn;
    var p := Stripped(q, e);
    StrippedParts(q, e);
    StrippedAt(q.inner, e, k);
    if Fits(q, e) && Sane(p) {
      SaneParts(p);
      InnerSane(p.inner, k);
      FitsAt(q.inner, e, k);
      NextPart(p.inner, nodes, k, parts, cut);
    }
    if Sane(q) {
      SaneParts(q);
      InnerSane(q.inner, k);
      SlicesStep(p.inner, k, nodes);
    }
  }

  // --- taking ------------------------------------------------------------------------------------

  function Min(a: nat, b: nat): nat {
    if a < b then a else b
  }

  /** The top-level validators first, then the inner sets with the smallest cuts. */
  function Cheapest(present: seq<NodeId>, parts: seq<Part>, left: nat): seq<NodeId> {
    var take := Min(|present|, left);
    present[..take] + Joined(parts[..Min(|parts|, left - take)])
  }

  lemma CheapestFlat(present: seq<NodeId>, left: nat)
    requires left <= |present|
    ensures Cheapest(present, [], left) == present[..left]
  {
  }

  lemma CheapestEmpty(present: seq<NodeId>, parts: seq<Part>, left: nat)
    requires left > 0 && forall x | x in parts :: x.cut != []
    ensures Cheapest(present, parts, left) == [] <==> present == [] && parts == []
  {
    if present == [] && parts != [] {
      var rest := Min(|parts|, left);
      assert parts[..rest][rest - 1] in parts;
    }
  }

  method TakeCheapest(present: seq<NodeId>, parts: seq<Part>, left: nat) returns (res: seq<NodeId>)
    ensures res == Cheapest(present, parts, left)
  {
    hide Joined;
    res := present;
    if |res| > left {
      res := res[..left];
    }
    ghost var taken := res;
    var leftTillBlock: int := left - |res|;
    var it := 0;
    NothingJoined(taken, parts);
    while leftTillBlock != 0 && it < |parts|
      invariant 0 <= it <= |parts| && leftTillBlock >= 0 && leftTillBlock + it == left - |taken|
      invariant res == taken + Joined(parts[..it])
      decreases leftTillBlock
    {
      OneMoreCut(taken, parts, it);
      res := res + parts[it].cut;
      leftTillBlock := leftTillBlock - 1;
      it := it + 1;
    }
  }

  /** What is left to take when all entries are known. */
  ghost predicate ToTake(q: QSet, e: Excluded, nodes: set<NodeId>, parts: seq<Part>, left: nat) {
    var p := Stripped(q, e);
    1 <= q.threshold <= q.Entries() ==>
      && left > 0
      && left == 1 + q.Entries() - q.threshold - (|p.validators| - Count(p.validators, nodes)) - (|p.inner| - |parts|)
  }

  lemma TakenClosest(q: QSet, e: Excluded, nodes: set<NodeId>, parts: seq<Part>, left: nat)
    requires Gathered(q, e, nodes, |q.inner|, parts) && ToTake(q, e, nodes, parts, left)
    requires Fits(q, e) && Sane(Stripped(q, e))
    ensures Closest(Stripped(q, e), nodes, Cheapest(Present(Stripped(q, e).validators, nodes), parts, left))
  {
    hide Closest, Sane, Fits, Count, Stripped, Present, Joined, Slice, SlicesIn;
    var p := Stripped(q, e);
    StrippedParts(q, e);
    SaneParts(p);
    assert p.inner[..|p.inner|] == p.inner;
    FoundClosest(p, nodes, parts, left, Cheapest(Present(p.validators, nodes), parts, left));
  }

  lemma TakenFlat(q: QSet, e: Excluded, nodes: set<NodeId>, left: nat)
    requires ToTake(q, e, nodes, [], left) && Fits(q, e) && Flattened(Stripped(q, e))
    ensures var p := Stripped(q, e); FlatResult(p, nodes, Cheapest(Present(p.validators, nodes), [], left))
  {
    hide Fits, Count, Stripped, Present, Joined, FlatResult;
    var p := Stripped(q, e);
    StrippedParts(q, e);
    FlatLeft(p, nodes, left);
    FlatFound(p, nodes);
    CheapestFlat(Present(p.validators, nodes), left);
    FlatTaken(p, nodes, Present(p.validators, nodes)[..left]);
  }

  lemma TakenEmpty(q: QSet, e: Excluded, nodes: set<NodeId>, parts: seq<Part>, left: nat)
    requires Gathered(q, e, nodes, |q.inner|, parts) && ToTake(q, e, nodes, parts, left) && Sane(q)
    ensures var p := Stripped(q, e); Cheapest(Present(p.validators, nodes), parts, left) == [] <==> !Slice(p, nodes)
  {
    hide Sane, Fits, Count, SlicesIn, Stripped, Present, Joined, Cheapest, PartsUpTo;
    var p := Stripped(q, e);
    StrippedParts(q, e);
    SaneThreshold(q, e);
    assert p.inner[..|q.inner|] == p.inner;
    CheapestEmpty(Present(p.validators, nodes), parts, left);
  }

  /** What is taken is what the search promises. */
  lemma Taken(q: QSet, e: Excluded, nodes: set<NodeId>, parts: seq<Part>, left: nat)
    requires Gathered(q, e, nodes, |q.inner|, parts) && ToTake(q, e, nodes, parts, left) && (q.inner == [] ==> parts == [])
    ensures Found(q, nodes, e, Cheapest(Present(Stripped(q, e).validators, nodes), parts, left))
  {
    hide Sane, Fits, Count, Stripped, Present, Cheapest, Closest, FlatResult, Slice, Gathered, ToTake;
    var p := Stripped(q, e);
    StrippedParts(q, e);
    if Fits(q, e) && Sane(p) { TakenClosest(q, e, nodes, parts, left); }
    if Fits(q, e) && Flattened(p) { TakenFlat(q, e, nodes, left); }
    if Sane(q) { TakenEmpty(q, e, nodes, parts, left); }
  }

  lemma StrippedFields(q: QSet, e: Excluded)
    ensures Stripped(q, e).validators == Drop(q.validators, e) && |Stripped(q, e).inner| == |q.inner|
  {
  }

  lemma SeenMissing(q: QSet, e: Excluded, nodes: set<NodeId>, i: nat)
    requires i <= |q.validators| && Drop(q.validators[..i], e) <= Drop(q.validators, e)
    requires var seen := Drop(q.validators[..i], e);
             1 <= q.threshold <= q.Entries() ==> |seen| - |Present(seen, nodes)| == 1 + q.Entries() - q.threshold
    ensures Found(q, nodes, e, [])
  {
    hide Found, Present, Stripped, Drop, Count;
    StrippedFields(q, e);
    var seen := Drop(q.validators[..i], e);
    assert Drop(q.validators, e)[..|seen|] == seen;
    ValidatorsMissing(q, e, nodes, |seen|);
  }

  lemma NothingSeen(q: QSet, e: Excluded, nodes: set<NodeId>)
    ensures Drop(q.validators[..0], e) == [] && Present([], nodes) == []
  {
  }

  // --- the search ------------------------------------------------------------------------------

  /**
   The smallest set of nodes whose failure blocks q, for every sane quorum set; with an
   excluded node, the smallest one without it, unless a set lists it with threshold one.
   For sets without inner sets, sane or not: a cut, and when its size is the least one.
   */
  method FindClosestVBlocking(q: QSet, nodes: set<NodeId>, excluded: Excluded) returns (res: seq<NodeId>)
    ensures excluded.Nobody? && Sane(q) ==> Closest(q, nodes, res)
    ensures excluded.Nobody? && Flattened(q) ==> FlatResult(q, nodes, res)
    ensures excluded.Only? && Sane(q) && NeverAlone(q, excluded.node) ==> ClosestAvoiding(q, nodes, excluded.node, res)
    ensures Found(q, nodes, excluded, res)
    decreases q
  {
    hide Closest, Sane, Flattened, FlatResult, Present, Insert, Cheapest, Count, Wrap;
    hide Stripped, AllStripped, Drop, NeverAlone, ClosestAvoiding, Found, Gathered, Excluded.Is;
    var n := |q.validators| + |q.inner|;
    var leftTillBlock: int := Wrap(1 + n - q.threshold);
    ghost var p, inRange := Stripped(q, excluded), 1 <= q.threshold <= n;
    StrippedFields(q, excluded);
    NothingSeen(q, excluded, nodes);
    res := [];
    for i := 0 to |q.validators|
      invariant res == Present(Drop(q.validators[..i], excluded), nodes) && leftTillBlock >= 0
      invariant inRange ==>
        leftTillBlock == 1 + n - q.threshold - (|Drop(q.validators[..i], excluded)| - |res|) && leftTillBlock > 0
    {
      SeenPrefix(q.validators, i, excluded, nodes);
      if !excluded.Is(q.validators[i]) {
        if q.validators[i] !in nodes {
          leftTillBlock := Wrap(leftTillBlock - 1);
          if leftTillBlock == 0 {
            SeenMissing(q, excluded, nodes, i + 1);
            WhatIsFound(q, nodes, excluded, []);
            return [];
          }
        } else {
          res := res + [q.validators[i]];
        }
      }
    }
    assert q.validators[..|q.validators|] == q.validators;
    GatherNothing(q, excluded, nodes);
    var parts: seq<Part> := [];
    for k := 0 to |q.inner|
      invariant |parts| <= k && leftTillBlock >= 0 && Gathered(q, excluded, nodes, k, parts)
      invariant inRange ==>
        leftTillBlock == 1 + n - q.threshold - (|p.validators| - |res|) - (k - |parts|) && leftTillBlock > 0
    {
      var cut := FindClosestVBlocking(q.inner[k], nodes, excluded);
      GatherNext(q, excluded, nodes, k, parts, cut);
      if |cut| == 0 {
        leftTillBlock := Wrap(leftTillBlock - 1);
        if leftTillBlock == 0 {
          EntriesMissing(q, excluded, nodes, k, parts);
          WhatIsFound(q, nodes, excluded, []);
          return [];
        }
      } else {
        parts := Insert(parts, Part(k, cut));
      }
    }
    Taken(q, excluded, nodes, parts, leftTillBlock);
    res := TakeCheapest(res, parts, leftTillBlock);
    WhatIsFound(q, nodes, excluded, res);
  }

  // --- a set that is not sane ------------------------------------------------------------------

  /** A validator that is listed twice is counted twice: two entries where one node is enough. */
  method RepeatedValidator() returns (q: QSet, nodes: set<NodeId>, res: seq<NodeId>)
    ensures ThresholdsOk(q, false) && !Distinct(Flat(q))
    ensures |res| == 2 && exists t: set<NodeId> :: Cuts(q, nodes, t) && |t| == 1
  {
    hide Sane, Closest, Least, Found, Cuts, Flattened, FlatSize, Count, ThresholdsOk, Distinct, Flat, Present;
    q, nodes := QSet(1, [7, 7], []), {7};
    res := FindClosestVBlocking(q, nodes, Nobody);
    SevenTwice(q);
  }

  lemma SevenTwice(q: QSet)
    requires q == QSet(1, [7, 7], [])
    ensures Flattened(q) && ThresholdsOk(q, false) && FlatSize(q, {7}) == 2
    ensures !Distinct(Flat(q)) && Cuts(q, {7}, {7}) && |{7}| == 1
  {
    assert [7, 7][..1] == [7] && [7][..0] == [];
    assert Flat(q)[0] == Flat(q)[1] == 7;
    assert {7} - {7} == {};
    NoneCounted([7, 7]);
  }
}
