/**
 The distance to a v-blocking set (findClosestVBlocking in src/scp/LocalNode.cpp):
 a smallest set of nodes whose failure leaves a node without quorum slice.
 */
module VBlockingDistance {
  import opened QuorumSets
  import opened QuorumSetNormal
  import opened ThresholdNetwork

  /** Without t, the nodes contain no slice of q. */
  predicate Cuts(q: QSet, nodes: set<NodeId>, t: set<NodeId>) {
    !Slice(q, nodes - t)
  }

  /** What the sanity check of quorum sets accepts. */
  predicate Sane(q: QSet) {
    ThresholdsOk(q, false) && Distinct(Flat(q))
  }

  /** What the search finds: nothing more than needed, among the nodes and in q. */
  ghost predicate Closest(q: QSet, nodes: set<NodeId>, res: seq<NodeId>) {
    && AsSet(res) <= nodes * Nodes(q) && Distinct(res)
    && Cuts(q, nodes, AsSet(res))
    && (res == [] <==> !Slice(q, nodes))
    && forall t: set<NodeId> | Cuts(q, nodes, t) :: |res| <= |t|
  }

  /** An inner set that still has a slice, and what it takes to cut it. */
  datatype Part = Part(index: nat, cut: seq<NodeId>)

  // --- sane sets share no nodes -----------------------------------------------------------

  lemma {:induction false} FlatNodes(q: QSet)
    ensures Nodes(q) == AsSet(Flat(q))
    decreases q
  {
    AllFlatNodes(q.inner);
  }

  lemma {:induction false} AllFlatNodes(qs: seq<QSet>)
    ensures Members(qs) == AsSet(AllFlat(qs))
    decreases qs
  {
    hide Nodes, Flat;
    if qs != [] {
      AllFlatNodes(qs[..|qs| - 1]);
      FlatNodes(qs[|qs| - 1]);
    }
  }

  lemma {:induction false} MemberNodes(qs: seq<QSet>, i: nat)
    requires i < |qs|
    ensures Nodes(qs[i]) <= Members(qs)
    decreases |qs|
  {
    hide Nodes;
    if i < |qs| - 1 {
      MemberNodes(qs[..|qs| - 1], i);
    }
  }

  lemma {:induction false} InnerSane(qs: seq<QSet>, i: nat)
    requires AllThresholdsOk(qs, false) && Distinct(AllFlat(qs)) && i < |qs|
    ensures Sane(qs[i])
    decreases |qs|
  {
    hide ThresholdsOk, Flat;
    var front, last := AllFlat(qs[..|qs| - 1]), Flat(qs[|qs| - 1]);
    DistinctParts(front, last);
    if i < |qs| - 1 {
      InnerSane(qs[..|qs| - 1], i);
    }
  }

  lemma DistinctParts(a: seq<NodeId>, b: seq<NodeId>)
    requires Distinct(a + b)
    ensures Distinct(a) && Distinct(b) && AsSet(a) !! AsSet(b)
  {
    forall i, j | 0 <= i < j < |a| ensures a[i] != a[j] {
      assert (a + b)[i] != (a + b)[j];
    }
    forall i, j | 0 <= i < j < |b| ensures b[i] != b[j] {
      assert (a + b)[|a| + i] != (a + b)[|a| + j];
    }
    forall i, j | 0 <= i < |a| && 0 <= j < |b| ensures a[i] != b[j] {
      assert (a + b)[i] != (a + b)[|a| + j];
    }
  }

  lemma {:induction false} InnerApart(qs: seq<QSet>, i: nat, j: nat)
    requires Distinct(AllFlat(qs)) && i < j < |qs|
    ensures Nodes(qs[i]) !! Nodes(qs[j])
    decreases |qs|
  {
    hide Nodes, Flat, Distinct, AsSet, Members;
    var front, last := AllFlat(qs[..|qs| - 1]), Flat(qs[|qs| - 1]);
    DistinctParts(front, last);
    if j < |qs| - 1 {
      InnerApart(qs[..|qs| - 1], i, j);
    } else {
      AllFlatNodes(qs[..|qs| - 1]);
      FlatNodes(qs[j]);
      MemberNodes(qs[..|qs| - 1], i);
      assert qs[..|qs| - 1][i] == qs[i];
    }
  }

  lemma SaneParts(q: QSet)
    requires Sane(q)
    ensures 1 <= q.threshold <= q.Entries()
    ensures Distinct(q.validators) && Distinct(AllFlat(q.inner)) && AllThresholdsOk(q.inner, false)
    ensures AsSet(q.validators) !! Members(q.inner)
  {
    DistinctParts(q.validators, AllFlat(q.inner));
    AllFlatNodes(q.inner);
  }

  // --- counting entries -------------------------------------------------------------------

  /** The inner sets that have a slice among the nodes. */
  function Alive(qs: seq<QSet>, s: set<NodeId>): set<nat> {
    set i: nat | i < |qs| && Slice(qs[i], s)
  }

  lemma {:induction false} AliveCount(qs: seq<QSet>, s: set<NodeId>)
    ensures |Alive(qs, s)| == SlicesIn(qs, s)
    decreases |qs|
  {
    hide Slice;
    if qs == [] {
      assert Alive(qs, s) == {};
    } else {
      var front, last := qs[..|qs| - 1], |qs| - 1;
      AliveCount(front, s);
      if Slice(qs[last], s) {
        assert Alive(qs, s) == Alive(front, s) + {last};
      } else {
        assert Alive(qs, s) == Alive(front, s);
      }
    }
  }

  lemma FinerSets(a: set<nat>, b: set<nat>)
    requires a <= b
    ensures |a| <= |b| && |b - a| == |b| - |a|
  {
    assert b == a + (b - a);
  }

  // --- parts ---------------------------------------------------------------------------------

  predicate Indexed(parts: seq<Part>) {
    forall i, j | 0 <= i < j < |parts| :: parts[i].index != parts[j].index
  }

  function Indices(parts: seq<Part>): set<nat> {
    set p | p in parts :: p.index
  }

  lemma {:induction false} IndexCount(parts: seq<Part>)
    requires Indexed(parts)
    ensures |Indices(parts)| == |parts|
    decreases |parts|
  {
    if parts == [] {
      assert Indices(parts) == {};
    } else {
      var front, last := parts[..|parts| - 1], parts[|parts| - 1];
      IndexCount(front);
      assert Indices(parts) == Indices(front) + {last.index};
    }
  }

  predicate BySize(parts: seq<Part>) {
    forall i, j | 0 <= i < j < |parts| :: |parts[i].cut| <= |parts[j].cut|
  }

  /** Nodes in all the cuts. */
  function Total(parts: seq<Part>): nat {
    if parts == [] then 0 else Total(parts[..|parts| - 1]) + |parts[|parts| - 1].cut|
  }

  /** Nodes in the cuts of the chosen parts, and the number of those parts. */
  function Chosen(parts: seq<Part>, chosen: set<nat>): nat {
    if parts == [] then 0
    else Chosen(parts[..|parts| - 1], chosen) + (if parts[|parts| - 1].index in chosen then |parts[|parts| - 1].cut| else 0)
  }

  function HowMany(parts: seq<Part>, chosen: set<nat>): (n: nat)
    ensures n <= |parts|
  {
    if parts == [] then 0
    else HowMany(parts[..|parts| - 1], chosen) + (if parts[|parts| - 1].index in chosen then 1 else 0)
  }

  /** Taking the smallest cuts first is best: any choice of at least k parts is as expensive. */
  lemma {:induction false} SmallestFirst(parts: seq<Part>, chosen: set<nat>, k: nat)
    requires BySize(parts) && (forall i | 0 <= i < |parts| :: parts[i].cut != [])
    requires k <= HowMany(parts, chosen)
    ensures Chosen(parts, chosen) >= Total(parts[..k]) + (HowMany(parts, chosen) - k)
    decreases |parts|
  {
    if parts == [] {
      assert parts[..k] == [];
    } else {
      var front, last := parts[..|parts| - 1], parts[|parts| - 1];
      if k < |parts| {
        assert front[..k] == parts[..k];
      }
      if last.index !in chosen {
        SmallestFirst(front, chosen, k);
      } else if k <= HowMany(front, chosen) {
        SmallestFirst(front, chosen, k);
      } else {
        SmallestFirst(front, chosen, k - 1);
        assert front[..k - 1] == parts[..k][..k - 1];
        assert k < |parts| ==> |parts[k - 1].cut| <= |last.cut|;
      }
    }
  }

  lemma {:induction false} HowManyAll(parts: seq<Part>, chosen: set<nat>)
    requires Indexed(parts) && chosen <= Indices(parts)
    ensures HowMany(parts, chosen) == |chosen|
    decreases |parts|
  {
    hide Indices;
    if parts == [] {
      NoIndex();
    } else {
      var front, last := parts[..|parts| - 1], parts[|parts| - 1];
      LastIndex(parts);
      HowManyAll(front, chosen - {last.index});
      HowManyLocal(front, chosen, chosen - {last.index});
      SizeWithout(chosen, last.index);
    }
  }

  lemma NoIndex()
    ensures Indices([]) == {}
  {
  }

  lemma LastIndex(parts: seq<Part>)
    requires parts != []
    ensures Indices(parts) == Indices(parts[..|parts| - 1]) + {parts[|parts| - 1].index}
  {
    assert parts == parts[..|parts| - 1] + [parts[|parts| - 1]];
  }

  lemma SizeWithout(chosen: set<nat>, x: nat)
    ensures |chosen| == |chosen - {x}| + (if x in chosen then 1 else 0)
  {
    if x in chosen {
      assert chosen == (chosen - {x}) + {x};
    } else {
      assert chosen == chosen - {x};
    }
  }

  lemma {:induction false} HowManyLocal(parts: seq<Part>, a: set<nat>, b: set<nat>)
    requires forall i | 0 <= i < |parts| :: parts[i].index in a <==> parts[i].index in b
    ensures HowMany(parts, a) == HowMany(parts, b)
    decreases |parts|
  {
    if parts != [] {
      HowManyLocal(parts[..|parts| - 1], a, b);
    }
  }

  // --- what any cut costs -----------------------------------------------------------------------

  /** The parts are the inner sets with a slice, each with a closest cut of its own. */
  ghost predicate PartsOf(qs: seq<QSet>, nodes: set<NodeId>, parts: seq<Part>) {
    && Indexed(parts) && BySize(parts)
    && forall i | 0 <= i < |parts| :: PartOf(qs, nodes, parts[i])
  }

  ghost predicate PartOf(qs: seq<QSet>, nodes: set<NodeId>, part: Part) {
    part.index < |qs| && part.cut != [] && Closest(qs[part.index], nodes, part.cut)
  }

  function Span(qs: seq<QSet>, parts: seq<Part>): set<NodeId>
    requires forall i | 0 <= i < |parts| :: parts[i].index < |qs|
  {
    if parts == [] then {} else Span(qs, parts[..|parts| - 1]) + Nodes(qs[parts[|parts| - 1].index])
  }

  lemma {:induction false} SpanApart(qs: seq<QSet>, parts: seq<Part>, j: nat)
    requires Distinct(AllFlat(qs)) && j < |qs|
    requires forall i | 0 <= i < |parts| :: parts[i].index < |qs| && parts[i].index != j
    ensures Span(qs, parts) !! Nodes(qs[j])
    decreases |parts|
  {
    hide Nodes, AllFlat, Distinct;
    if parts != [] {
      var last := parts[|parts| - 1].index;
      SpanApart(qs, parts[..|parts| - 1], j);
      if last < j {
        InnerApart(qs, last, j);
      } else {
        InnerApart(qs, j, last);
      }
    }
  }

  lemma {:induction false} SpanInside(qs: seq<QSet>, parts: seq<Part>)
    requires forall i | 0 <= i < |parts| :: parts[i].index < |qs|
    ensures Span(qs, parts) <= Members(qs)
    decreases |parts|
  {
    hide Nodes, Members;
    if parts != [] {
      SpanInside(qs, parts[..|parts| - 1]);
      MemberNodes(qs, parts[|parts| - 1].index);
    }
  }

  /** Whoever takes the slices from an inner set pays at least its closest cut, inside that set. */
  lemma InnerCost(q: QSet, nodes: set<NodeId>, cut: seq<NodeId>, t: set<NodeId>)
    requires Closest(q, nodes, cut) && Cuts(q, nodes, t)
    ensures |cut| <= |t * Nodes(q)|
  {
    hide Nodes, Slice;
    SliceLocal(q, nodes - t, nodes - t * Nodes(q));
    assert Cuts(q, nodes, t * Nodes(q));
  }

  lemma SplitSize(t: set<NodeId>, a: set<NodeId>, b: set<NodeId>)
    requires a !! b
    ensures |t * (a + b)| == |t * a| + |t * b|
  {
    assert t * (a + b) == t * a + t * b;
    assert (t * a) * (t * b) == {};
  }

  /** The inner sets that t leaves without slice cost at least their cuts. */
  lemma {:induction false} PackedCost(qs: seq<QSet>, nodes: set<NodeId>, parts: seq<Part>, t: set<NodeId>, killed: set<nat>)
    requires Distinct(AllFlat(qs)) && PartsOf(qs, nodes, parts)
    requires forall i | i in killed && i < |qs| :: Cuts(qs[i], nodes, t)
    ensures Chosen(parts, killed) <= |t * Span(qs, parts)|
    decreases |parts|
  {
    hide Nodes, AllFlat, Distinct, Cuts, Closest;
    if parts != [] {
      var front, last := parts[..|parts| - 1], parts[|parts| - 1];
      assert PartOf(qs, nodes, last);
      PackedCost(qs, nodes, front, t, killed);
      SpanApart(qs, front, last.index);
      SplitSize(t, Span(qs, front), Nodes(qs[last.index]));
      if last.index in killed {
        InnerCost(qs[last.index], nodes, last.cut, t);
      }
    }
  }

  /** Any cut of q costs the validators it takes and the cuts of the inner sets it takes. */
  lemma CutCost(q: QSet, nodes: set<NodeId>, parts: seq<Part>, t: set<NodeId>)
    requires Sane(q) && PartsOf(q.inner, nodes, parts)
    ensures var killed := Alive(q.inner, nodes) - Alive(q.inner, nodes - t);
            Count(q.validators, nodes) - Count(q.validators, nodes - t) + Chosen(parts, killed) <= |t|
  {
    hide Nodes, AllFlat, Distinct, Slice, Sane, Span, Count, Members, Chosen, AllThresholdsOk;
    SaneParts(q);
    var v, m := AsSet(q.validators), Span(q.inner, parts);
    SpanInside(q.inner, parts);
    var killed := Alive(q.inner, nodes) - Alive(q.inner, nodes - t);
    PackedCost(q.inner, nodes, parts, t, killed);
    CountIsSize(q.validators, nodes);
    CountIsSize(q.validators, nodes - t);
    TakenSize(nodes, t, v);
    SplitSize(t, v, m);
    SubsetSize(t * (v + m), t);
  }

  lemma TakenSize(nodes: set<NodeId>, t: set<NodeId>, v: set<NodeId>)
    ensures |nodes * v| - |(nodes - t) * v| <= |t * v|
  {
    assert nodes * v <= (nodes - t) * v + t * v;
    SubsetSize(nodes * v, (nodes - t) * v + t * v);
  }

  /** Any cut of q costs at least as much as taking `left` entries, the cheapest first. */
  lemma CutCostsMore(q: QSet, nodes: set<NodeId>, parts: seq<Part>, t: set<NodeId>, left: nat)
    requires Sane(q) && PartsOf(q.inner, nodes, parts) && Indices(parts) == Alive(q.inner, nodes)
    requires Cuts(q, nodes, t)
    requires left == Count(q.validators, nodes) + |parts| - q.threshold + 1
    ensures left <= Count(q.validators, nodes) ==> left <= |t|
    ensures left > Count(q.validators, nodes) ==>
              && left - Count(q.validators, nodes) <= |parts|
              && Count(q.validators, nodes) + Total(parts[..left - Count(q.validators, nodes)]) <= |t|
  {
    hide Count, Chosen, SlicesIn, BySize, Indexed, Closest, Total, Indices;
    var a, a' := Count(q.validators, nodes), Count(q.validators, nodes - t);
    var alive, alive' := Alive(q.inner, nodes), Alive(q.inner, nodes - t);
    CutCost(q, nodes, parts, t);
    IndexCount(parts);
    AliveCount(q.inner, nodes - t);
    AliveShrinks(q.inner, nodes, t);
    FinerSets(alive', alive);
    var killed := alive - alive';
    HowManyAll(parts, killed);
    ThresholdPositive(q);
    assert a' + |alive'| <= q.threshold - 1;
    CountMonotone(q.validators, nodes - t, nodes);
    assert (a - a') + |killed| >= left;
    assert forall i | 0 <= i < |parts| :: PartOf(q.inner, nodes, parts[i]);
    var k := if left > a then left - a else 0;
    SmallestFirst(parts, killed, k);
  }

  lemma ThresholdPositive(q: QSet)
    requires Sane(q)
    ensures q.threshold >= 1 && Need(q.threshold) == q.threshold
  {
  }

  lemma AliveShrinks(qs: seq<QSet>, nodes: set<NodeId>, t: set<NodeId>)
    ensures Alive(qs, nodes - t) <= Alive(qs, nodes)
  {
    hide Slice;
    forall i | i in Alive(qs, nodes - t) ensures i in Alive(qs, nodes) {
      SliceMonotone(qs[i], nodes - t, nodes);
    }
  }

  // --- the cut that is found --------------------------------------------------------------------

  /** All the cuts, one after the other. */
  function Joined(parts: seq<Part>): (r: seq<NodeId>)
    ensures |r| == Total(parts)
  {
    if parts == [] then [] else Joined(parts[..|parts| - 1]) + parts[|parts| - 1].cut
  }

  lemma {:induction false} JoinedInside(qs: seq<QSet>, nodes: set<NodeId>, parts: seq<Part>)
    requires Distinct(AllFlat(qs)) && PartsOf(qs, nodes, parts)
    ensures AsSet(Joined(parts)) <= nodes * Span(qs, parts) && Distinct(Joined(parts))
    decreases |parts|
  {
    hide Nodes, AllFlat, Cuts;
    if parts != [] {
      var front, last := parts[..|parts| - 1], parts[|parts| - 1];
      assert PartOf(qs, nodes, last);
      JoinedInside(qs, nodes, front);
      SpanApart(qs, front, last.index);
      JoinDistinct(Joined(front), last.cut);
      AsSetJoin(Joined(front), last.cut);
    }
  }

  lemma JoinDistinct(a: seq<NodeId>, b: seq<NodeId>)
    requires Distinct(a) && Distinct(b) && AsSet(a) !! AsSet(b)
    ensures Distinct(a + b)
  {
    forall i, j | 0 <= i < j < |a + b| ensures (a + b)[i] != (a + b)[j] {
      if i < |a| <= j {
        assert a[i] in AsSet(a) && b[j - |a|] in AsSet(b);
      }
    }
  }

  lemma {:induction false} CutInJoined(parts: seq<Part>, k: nat)
    requires k < |parts|
    ensures AsSet(parts[k].cut) <= AsSet(Joined(parts))
    decreases |parts|
  {
    var front := parts[..|parts| - 1];
    AsSetJoin(Joined(front), parts[|parts| - 1].cut);
    if k < |front| {
      CutInJoined(front, k);
    }
  }

  /** Validators among the nodes, in order. */
  function Present(vs: seq<NodeId>, nodes: set<NodeId>): (r: seq<NodeId>)
    ensures |r| == Count(vs, nodes)
    ensures AsSet(r) == AsSet(vs) * nodes
  {
    if vs == [] then []
    else
      var front := Present(vs[..|vs| - 1], nodes);
      assert vs == vs[..|vs| - 1] + [vs[|vs| - 1]];
      assert AsSet(vs) == AsSet(vs[..|vs| - 1]) + {vs[|vs| - 1]};
      assert AsSet(front + [vs[|vs| - 1]]) == AsSet(front) + {vs[|vs| - 1]};
      if vs[|vs| - 1] in nodes then front + [vs[|vs| - 1]] else front
  }

  lemma {:induction false} PresentDistinct(vs: seq<NodeId>, nodes: set<NodeId>)
    requires Distinct(vs)
    ensures Distinct(Present(vs, nodes))
    decreases |vs|
  {
    if vs != [] {
      var front, last := vs[..|vs| - 1], vs[|vs| - 1];
      PresentDistinct(front, nodes);
      assert last !in front;
      assert last !in AsSet(Present(front, nodes));
      if last in nodes {
        JoinDistinct(Present(front, nodes), [last]);
      }
    }
  }

  /** Taking some validators and the cuts of some inner sets leaves only the others. */
  lemma TakenAway(q: QSet, nodes: set<NodeId>, parts: seq<Part>, take: nat, rest: nat, r: seq<NodeId>)
    requires Sane(q) && PartsOf(q.inner, nodes, parts) && Indices(parts) == Alive(q.inner, nodes)
    requires take <= Count(q.validators, nodes) && rest <= |parts|
    requires r == Present(q.validators, nodes)[..take] + Joined(parts[..rest])
    ensures Count(q.validators, nodes - AsSet(r)) <= Count(q.validators, nodes) - take
    ensures SlicesIn(q.inner, nodes - AsSet(r)) <= |parts| - rest
  {
    hide Count, SlicesIn, Joined, Present, Sane, Closest, BySize, Slice;
    SaneParts(q);
    var taken := Present(q.validators, nodes)[..take];
    AsSetJoin(taken, Joined(parts[..rest]));
    FewerValidators(q.validators, nodes, taken, AsSet(r));
    FewerInner(q.inner, nodes, parts, rest, AsSet(r));
  }

  lemma FewerValidators(vs: seq<NodeId>, nodes: set<NodeId>, taken: seq<NodeId>, r: set<NodeId>)
    requires Distinct(vs) && taken <= Present(vs, nodes) && AsSet(taken) <= r
    ensures Count(vs, nodes - r) <= Count(vs, nodes) - |taken|
  {
    hide Count, Present, Distinct, AsSet;
    PresentDistinct(vs, nodes);
    CountIsSize(vs, nodes);
    CountIsSize(vs, nodes - r);
    PrefixNodes(taken, Present(vs, nodes));
    LeftSize(nodes, AsSet(vs), AsSet(taken), r);
  }

  lemma PrefixNodes(taken: seq<NodeId>, all: seq<NodeId>)
    requires Distinct(all) && taken <= all
    ensures |AsSet(taken)| == |taken| && AsSet(taken) <= AsSet(all)
  {
    assert forall i | 0 <= i < |taken| :: taken[i] == all[i];
    CountIsSize(taken, {});
  }

  lemma LeftSize(nodes: set<NodeId>, v: set<NodeId>, taken: set<NodeId>, r: set<NodeId>)
    requires taken <= v * nodes && taken <= r
    ensures |(nodes - r) * v| <= |nodes * v| - |taken|
  {
    SubsetSize((nodes - r) * v, nodes * v - taken);
    assert nodes * v == (nodes * v - taken) + taken;
  }

  lemma FewerInner(qs: seq<QSet>, nodes: set<NodeId>, parts: seq<Part>, rest: nat, r: set<NodeId>)
    requires PartsOf(qs, nodes, parts) && Indices(parts) == Alive(qs, nodes) && rest <= |parts|
    requires AsSet(Joined(parts[..rest])) <= r
    ensures SlicesIn(qs, nodes - r) <= |parts| - rest
  {
    hide SlicesIn, Slice, BySize, Joined, AsSet;
    AliveCount(qs, nodes - r);
    IndexCount(parts);
    var gone := Indices(parts[..rest]);
    assert Indexed(parts[..rest]);
    IndexCount(parts[..rest]);
    forall i | i in Alive(qs, nodes - r) ensures i in Indices(parts) - gone {
      SliceMonotone(qs[i], nodes - r, nodes);
      assert i in Alive(qs, nodes);
      if i in gone {
        var p :| p in parts[..rest] && p.index == i;
        var k :| 0 <= k < rest && parts[..rest][k] == p;
        assert PartOf(qs, nodes, parts[k]);
        CutInJoined(parts[..rest], k);
        SliceMonotone(qs[i], nodes - r, nodes - AsSet(p.cut));
      }
    }
    assert Alive(qs, nodes - r) <= Indices(parts) - gone;
    FinerSets(Alive(qs, nodes - r), Indices(parts) - gone);
    FinerSets(gone, Indices(parts));
  }

  /** What is taken is a closest cut. */
  lemma FoundClosest(q: QSet, nodes: set<NodeId>, parts: seq<Part>, left: nat, r: seq<NodeId>)
    requires Sane(q) && PartsOf(q.inner, nodes, parts) && Indices(parts) == Alive(q.inner, nodes)
    requires left == Count(q.validators, nodes) + |parts| - q.threshold + 1 && left > 0
    requires var take := if Count(q.validators, nodes) > left then left else Count(q.validators, nodes);
             r == Present(q.validators, nodes)[..take] + Joined(parts[..left - take])
    ensures Closest(q, nodes, r)
  {
    hide Count, SlicesIn, Joined, Present, Sane, PartsOf, Nodes, Total, Indices, Alive;
    var take := if Count(q.validators, nodes) > left then left else Count(q.validators, nodes);
    ThresholdPositive(q);
    TakenAway(q, nodes, parts, take, left - take, r);
    FoundInside(q, nodes, parts, take, left - take, r);
    AliveParts(q.inner, nodes, parts);
    TotalSome(q.inner, nodes, parts, left - take);
    forall t: set<NodeId> | Cuts(q, nodes, t) ensures |r| <= |t| {
      CutCostsMore(q, nodes, parts, t, left);
      NoTotal(parts);
    }
  }

  lemma NoTotal(parts: seq<Part>)
    ensures Total(parts[..0]) == 0
  {
  }

  lemma AliveParts(qs: seq<QSet>, nodes: set<NodeId>, parts: seq<Part>)
    requires PartsOf(qs, nodes, parts) && Indices(parts) == Alive(qs, nodes)
    ensures SlicesIn(qs, nodes) == |parts|
  {
    hide BySize, Slice;
    AliveCount(qs, nodes);
    IndexCount(parts);
  }

  lemma TotalSome(qs: seq<QSet>, nodes: set<NodeId>, parts: seq<Part>, rest: nat)
    requires PartsOf(qs, nodes, parts) && rest <= |parts|
    ensures rest > 0 ==> Total(parts[..rest]) > 0
  {
    hide BySize, Indexed, Closest;
    if rest > 0 {
      assert PartOf(qs, nodes, parts[rest - 1]);
    }
  }

  lemma FoundInside(q: QSet, nodes: set<NodeId>, parts: seq<Part>, take: nat, rest: nat, r: seq<NodeId>)
    requires Sane(q) && PartsOf(q.inner, nodes, parts)
    requires take <= Count(q.validators, nodes) && rest <= |parts|
    requires r == Present(q.validators, nodes)[..take] + Joined(parts[..rest])
    ensures AsSet(r) <= nodes * Nodes(q) && Distinct(r)
  {
    hide Count, Joined, Present, Sane, Closest, Span, Members;
    SaneParts(q);
    var taken, cut := Present(q.validators, nodes)[..take], parts[..rest];
    PresentDistinct(q.validators, nodes);
    assert AsSet(taken) <= AsSet(q.validators) * nodes;
    assert PartsOf(q.inner, nodes, cut);
    JoinedInside(q.inner, nodes, cut);
    SpanInside(q.inner, cut);
    JoinDistinct(taken, Joined(cut));
    AsSetJoin(taken, Joined(cut));
  }
}
