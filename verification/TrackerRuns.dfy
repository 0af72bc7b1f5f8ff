/**
 Every visit of a section performs the first of its remaining runs and leaves the
 others: the runs of a test case are exactly those that TrackerSpec.Runs lists.
 */
module TrackerRuns {
  import opened TrackerSpec

  // --- children and their runs ---------------------------------------------------------

  lemma FindIs(subs: seq<Section>, children: seq<Tracker>, k: nat)
    requires KidsMatch(subs, children) && Distinct(subs) && k < |subs| && k <= |children|
    ensures Find(children, subs[k].name) == k
  {
    var i := Find(children, subs[k].name);
    assert i < |children| ==> Matches(subs[i], children[i]);
    assert k < |children| ==> Matches(subs[k], children[k]);
  }

  lemma FreshMatches(sec: Section)
    ensures Matches(sec, Fresh(sec.name))
  {
  }

  lemma FreshKid(subs: seq<Section>, children: seq<Tracker>)
    requires KidsMatch(subs, children) && |children| < |subs|
    ensures KidsMatch(subs, children + [Fresh(subs[|children|].name)])
    ensures Kids(subs, children + [Fresh(subs[|children|].name)]) == Kids(subs, children)
  {
    hide Kids, KidsMatch;
    FreshKidMatches(subs, children);
    FreshKidRuns(subs, children);
  }

  lemma FreshKidMatches(subs: seq<Section>, children: seq<Tracker>)
    requires KidsMatch(subs, children) && |children| < |subs|
    ensures KidsMatch(subs, children + [Fresh(subs[|children|].name)])
  {
    hide Matches, InOrder, Fresh;
    FreshMatches(subs[|children|]);
    FreshInOrder(children, subs[|children|].name);
  }

  lemma FreshInOrder(children: seq<Tracker>, name: Name)
    requires InOrder(children)
    ensures InOrder(children + [Fresh(name)])
  {
    hide Tracker.IsComplete;
    var more := children + [Fresh(name)];
    forall i, j | 0 <= i < j < |more| ensures !more[i].IsComplete() ==> more[j] == Fresh(more[j].name) {
      assert more[i] == children[i];
      assert j < |children| ==> more[j] == children[j];
    }
  }

  lemma {:induction false} FreshKidRuns(subs: seq<Section>, children: seq<Tracker>)
    requires |children| < |subs|
    ensures Kids(subs, children + [Fresh(subs[|children|].name)]) == Kids(subs, children)
    decreases |children|
  {
    hide Runs;
    var kid := Fresh(subs[|children|].name);
    if children == [] {
      assert [] + [kid] == [kid] && [kid][1..] == [];
    } else {
      assert (children + [kid])[1..] == children[1..] + [kid];
      FreshKidRuns(subs[1..], children[1..]);
    }
  }

  /** Complete children have no runs left. */
  lemma {:induction false} KidsAfter(subs: seq<Section>, children: seq<Tracker>, k: nat)
    requires k <= |children| <= |subs|
    requires forall i | 0 <= i < k :: children[i].IsComplete()
    ensures Kids(subs, children) == Kids(subs[k..], children[k..])
    decreases k
  {
    if k == 0 {
      assert subs[0..] == subs && children[0..] == children;
    } else {
      KidsAfter(subs[1..], children[1..], k - 1);
      assert subs[1..][k - 1..] == subs[k..] && children[1..][k - 1..] == children[k..];
      assert Runs(subs[0], children[0]) == [];
    }
  }

  /** The runs of the child under way come first. */
  lemma KidsAt(subs: seq<Section>, children: seq<Tracker>, k: nat)
    requires k < |children| <= |subs|
    requires forall i | 0 <= i < k :: children[i].IsComplete()
    ensures Kids(subs, children) == Runs(subs[k], children[k]) + Kids(subs[k + 1..], children[k + 1..])
  {
    hide Runs;
    KidsAfter(subs, children, k);
    assert subs[k..][1..] == subs[k + 1..] && children[k..][1..] == children[k + 1..];
  }

  lemma IncompleteHasRuns(sec: Section, t: Tracker)
    requires !t.IsComplete()
    ensures Runs(sec, t) != []
  {
  }

  /** With all children known, nothing is left exactly when the last one is complete. */
  lemma NothingLeft(subs: seq<Section>, children: seq<Tracker>)
    requires KidsMatch(subs, children) && |children| == |subs| > 0
    ensures Kids(subs, children) == [] <==> children[|children| - 1].IsComplete()
  {
    hide Matches, Runs;
    var last := |children| - 1;
    assert forall i | 0 <= i < last :: children[i].IsComplete() || !children[last].IsComplete();
    if children[last].IsComplete() {
      KidsAfter(subs, children, |children|);
      assert subs[|children|..] == [];
    } else {
      SomethingLeft(subs, children, last);
    }
  }

  lemma {:induction false} SomethingLeft(subs: seq<Section>, children: seq<Tracker>, k: nat)
    requires k < |children| <= |subs| && !children[k].IsComplete()
    ensures Kids(subs, children) != []
    decreases k
  {
    hide Runs;
    if k == 0 {
      IncompleteHasRuns(subs[0], children[0]);
    } else {
      SomethingLeft(subs[1..], children[1..], k - 1);
    }
  }

  // --- once the cycle is over, sections are only registered ------------------------------------

  lemma {:induction false} SubsWhenDone(all: seq<Section>, k: nat, t: Tracker)
    requires KidsMatch(all, t.children) && Distinct(all) && k <= |all| && k <= |t.children|
    ensures var o := Subs(all[k..], t, true);
            && !o.threw && o.done && o.leaves == []
            && o.tracker.state == t.state && o.tracker.name == t.name
            && KidsMatch(all, o.tracker.children) && |o.tracker.children| == |all|
            && Kids(all, o.tracker.children) == Kids(all, t.children)
    decreases |all| - k
  {
    hide KidsMatch, Kids, Distinct, Tracker.IsComplete;
    if k == |all| {
      KidsBound(all, t.children);
    } else {
      FindIs(all, t.children, k);
      KidsBound(all, t.children);
      if k == |t.children| {
        FreshKid(all, t.children);
      }
      var t1 := Acquired(t, all[k].name);
      assert OneSub(all[k], t, true) == Outcome(t1, true, false, []);
      assert all[k..][1..] == all[k + 1..];
      SubsWhenDone(all, k + 1, t1);
    }
  }

  lemma KidsBound(all: seq<Section>, children: seq<Tracker>)
    requires KidsMatch(all, children)
    ensures |children| <= |all|
  {
  }

  // --- a visit performs the first remaining run ---------------------------------------------------

  /** What running the sections inside a section achieves. */
  ghost predicate Advanced(all: seq<Section>, before: seq<Run>, t: Tracker, o: Outcome) {
    var after := Kids(all, o.tracker.children);
    && KidsMatch(all, o.tracker.children) && o.tracker.name == t.name
    && (before == [] ==> o == Outcome(t, false, false, []))
    && (before != [] ==>
          && o.done && before[0] == Run(o.leaves, o.threw) && after == before[1..]
          && (!o.threw ==> o.tracker.state == ExecutingChildren && |o.tracker.children| == |all|)
          && (o.threw ==>
                && o.tracker.children != []
                && (|| o.tracker.state == NeedsAnotherRun
                    || (o.tracker.state == ExecutingChildren && !o.tracker.children[|o.tracker.children| - 1].IsComplete()))))
  }

  /** What entering a section achieves. */
  ghost predicate Visited(sec: Section, t: Tracker, o: Outcome) {
    && Runs(sec, t) != [] && Runs(sec, t)[0] == Run(o.leaves, o.threw)
    && Runs(sec, o.tracker) == Runs(sec, t)[1..]
    && Matches(sec, o.tracker)
    && (o.tracker.state == Failed ==> o.threw)
    && (o.threw && o.tracker.IsComplete() ==> o.tracker.state == Failed)
  }

  lemma {:induction false} EnterRuns(sec: Section, t: Tracker)
    requires WellNamed(sec) && Matches(sec, t) && !t.IsComplete()
    ensures Visited(sec, t, Enter(sec, t))
    decreases sec, 0
  {
    hide KidsMatch, Subs, Advanced;
    if sec.subs == [] {
      EnterLeaf(sec, t);
    } else {
      var t0 := t.(state := Executing);
      assert sec.subs[0..] == sec.subs;
      SubsRuns(sec.subs, 0, t0);
      EnterParent(sec, t, Subs(sec.subs, t0, false));
    }
  }

  lemma EnterLeaf(sec: Section, t: Tracker)
    requires Matches(sec, t) && !t.IsComplete() && sec.subs == []
    ensures Visited(sec, t, Enter(sec, t))
  {
    var t0 := t.(state := Executing);
    assert Subs(sec.subs, t0, false) == Outcome(t0, false, false, []);
    OwnLeaf(sec.name);
    var o := Enter(sec, t);
    assert o.tracker == t.(state := if sec.throws then Failed else CompletedSuccessfully);
    assert o.threw == sec.throws && o.leaves == [[sec.name]];
  }

  lemma OwnLeaf(name: Name)
    ensures Under(name, [[]]) == [[name]]
  {
    assert [name] + [] == [name];
  }

  lemma NamedFirst(name: Name, runs: seq<Run>, rest: seq<Run>)
    requires runs != [] && runs == [runs[0]] + rest
    ensures Named(name, runs) != []
    ensures Named(name, runs)[0] == Run(Under(name, runs[0].leaves), runs[0].threw)
    ensures Named(name, runs)[1..] == Named(name, rest)
  {
    hide Under;
  }

  lemma EnterParent(sec: Section, t: Tracker, inside: Outcome)
    requires Matches(sec, t) && !t.IsComplete() && sec.subs != []
    requires inside == Subs(sec.subs, t.(state := Executing), false)
    requires Advanced(sec.subs, Kids(sec.subs, t.children), t.(state := Executing), inside)
    ensures Visited(sec, t, Enter(sec, t))
  {
    hide *;
    if inside.threw {
      ParentThrown(sec, t, inside);
    } else if sec.throws {
      ParentFails(sec, t, inside);
    } else {
      ParentCloses(sec, t, inside);
    }
  }

  /** An exception from inside passes through: the section stays open. */
  lemma ParentThrown(sec: Section, t: Tracker, inside: Outcome)
    requires Matches(sec, t) && !t.IsComplete() && sec.subs != [] && inside.threw
    requires inside == Subs(sec.subs, t.(state := Executing), false)
    requires Advanced(sec.subs, Kids(sec.subs, t.children), t.(state := Executing), inside)
    ensures Visited(sec, t, Enter(sec, t))
  {
    hide Kids, Subs, Matches, KidsMatch, Named, Cut, Plain, Under;
    var before, after := Kids(sec.subs, t.children), Kids(sec.subs, inside.tracker.children);
    NameOf(sec, t);
    var t' := inside.tracker.Closed();
    assert t' == inside.tracker && !t'.IsComplete();
    StillMatches(sec, t');
    ThrownCut(before);
    ThrownPlain(before);
    NamedFirst(sec.name, Cut(before), Cut(after));
    NamedFirst(sec.name, Plain(before), Plain(after));
  }

  /** A section that throws after a normal run inside it fails. */
  lemma ParentFails(sec: Section, t: Tracker, inside: Outcome)
    requires Matches(sec, t) && !t.IsComplete() && sec.subs != [] && !inside.threw && sec.throws
    requires inside == Subs(sec.subs, t.(state := Executing), false)
    requires Advanced(sec.subs, Kids(sec.subs, t.children), t.(state := Executing), inside)
    ensures Visited(sec, t, Enter(sec, t))
  {
    hide Kids, Subs, Matches, KidsMatch, Named, Plain, Under;
    var before := Kids(sec.subs, t.children);
    NameOf(sec, t);
    StillMatches(sec, inside.tracker.(state := Failed));
    assert Cut(before) == [Run(inside.leaves, true)];
    assert Cut(before) == [Cut(before)[0]] + [];
    NamedFirst(sec.name, Cut(before), []);
  }

  /** A section that does not throw is complete once nothing is left inside it. */
  lemma ParentCloses(sec: Section, t: Tracker, inside: Outcome)
    requires Matches(sec, t) && !t.IsComplete() && sec.subs != [] && !inside.threw && !sec.throws
    requires inside == Subs(sec.subs, t.(state := Executing), false)
    requires Advanced(sec.subs, Kids(sec.subs, t.children), t.(state := Executing), inside)
    ensures Visited(sec, t, Enter(sec, t))
  {
    hide Kids, Subs, Matches, KidsMatch, Named, Cut, Plain, Under;
    var before, after := Kids(sec.subs, t.children), Kids(sec.subs, inside.tracker.children);
    NameOf(sec, t);
    var t' := inside.tracker.Closed();
    if before == [] {
      LastPlain();
      NamedFirst(sec.name, [Run([], false)], []);
    } else {
      NothingLeft(sec.subs, inside.tracker.children);
      assert t'.IsComplete() <==> after == [];
      NormalPlain(before);
      NamedFirst(sec.name, Plain(before), if after == [] then [] else Plain(after));
    }
    StillMatches(sec, t');
  }

  lemma LastPlain()
    ensures Plain([]) == [Run([], false)]
    ensures [Run([], false)] == [Run([], false)] + []
  {
  }

  lemma NameOf(sec: Section, t: Tracker)
    requires Matches(sec, t)
    ensures t.name == sec.name
  {
  }

  lemma StillMatches(sec: Section, t: Tracker)
    requires t.name == sec.name && t.state != NotStarted && t.state != Executing && KidsMatch(sec.subs, t.children)
    ensures Matches(sec, t)
  {
  }

  lemma ThrownCut(runs: seq<Run>)
    requires runs != [] && runs[0].threw
    ensures Cut(runs) == [runs[0]] + Cut(runs[1..])
  {
  }

  lemma ThrownPlain(runs: seq<Run>)
    requires runs != [] && runs[0].threw
    ensures Plain(runs) == [runs[0]] + Plain(runs[1..])
  {
    assert runs == [runs[0]] + runs[1..];
  }

  lemma NormalPlain(runs: seq<Run>)
    requires runs != [] && !runs[0].threw
    ensures Plain(runs) == [runs[0]] + (if runs[1..] == [] then [] else Plain(runs[1..]))
  {
    assert runs == [runs[0]] + runs[1..];
  }

  /** All children before k are complete; the sections from k on make the first remaining run. */
  lemma {:induction false} SubsRuns(all: seq<Section>, k: nat, t: Tracker)
    requires Distinct(all) && (forall i | 0 <= i < |all| :: WellNamed(all[i]))
    requires KidsMatch(all, t.children) && k <= |all| && k <= |t.children|
    requires forall i | 0 <= i < k :: t.children[i].IsComplete()
    ensures Advanced(all, Kids(all, t.children), t, Subs(all[k..], t, false))
    decreases all, 1, |all| - k
  {
    hide *;
    KidsBound(all, t.children);
    if k == |all| {
      SubsNone(all, t);
    } else {
      FindIs(all, t.children, k);
      AcquireNext(all, t, k);
      var t1 := Acquired(t, all[k].name);
      if t1.children[k].IsComplete() {
        SubsRuns(all, k + 1, t1);
        SubsSkip(all, k, t);
      } else {
        KidAt(all, t1.children, k);
        EnterRuns(all[k], t1.children[k]);
        SubsEnter(all, k, t);
      }
    }
  }

  lemma SubsNone(all: seq<Section>, t: Tracker)
    requires KidsMatch(all, t.children) && |t.children| >= |all|
    requires forall i | 0 <= i < |all| :: t.children[i].IsComplete()
    ensures Advanced(all, Kids(all, t.children), t, Subs(all[|all|..], t, false))
  {
    hide Kids, Matches;
    KidsAfter(all, t.children, |all|);
    EmptyKids(all[|all|..], t.children[|all|..]);
  }

  /** The next section finds its tracker, or gets a new one. */
  lemma AcquireNext(all: seq<Section>, t: Tracker, k: nat)
    requires KidsMatch(all, t.children) && k < |all| && k <= |t.children| && Find(t.children, all[k].name) == k
    ensures var t1 := Acquired(t, all[k].name);
            && KidsMatch(all, t1.children) && Kids(all, t1.children) == Kids(all, t.children)
            && k < |t1.children| && t1.children[..k] == t.children[..k]
            && t1.name == t.name && t1.state == t.state
            && (t1.children[k].IsComplete() ==> t1 == t)
  {
    hide Kids, KidsMatch;
    if k == |t.children| {
      KidsBound(all, t.children);
      FreshKid(all, t.children);
    }
  }

  lemma SubsSkip(all: seq<Section>, k: nat, t: Tracker)
    requires k < |all| && k < |t.children| && Find(t.children, all[k].name) == k && t.children[k].IsComplete()
    ensures Subs(all[k..], t, false) == Subs(all[k + 1..], t, false)
  {
    assert all[k..][1..] == all[k + 1..] && all[k..][0] == all[k];
    assert OneSub(all[k], t, false) == Outcome(t, false, false, []);
  }

  lemma SubsEnter(all: seq<Section>, k: nat, t: Tracker)
    requires Distinct(all) && KidsMatch(all, t.children) && k < |all| && k <= |t.children|
    requires forall i | 0 <= i < k :: t.children[i].IsComplete()
    requires Find(t.children, all[k].name) == k
    requires var t1 := Acquired(t, all[k].name);
             && KidsMatch(all, t1.children) && Kids(all, t1.children) == Kids(all, t.children)
             && k < |t1.children| && t1.children[..k] == t.children[..k] && t1.name == t.name
             && !t1.children[k].IsComplete() && Visited(all[k], t1.children[k], Enter(all[k], t1.children[k]))
    ensures Advanced(all, Kids(all, t.children), t, Subs(all[k..], t, false))
  {
    hide KidsMatch, Kids, Matches, Enter, Runs, Distinct, Find;
    var t1 := Acquired(t, all[k].name);
    var o := Enter(all[k], t1.children[k]);
    forall i | 0 <= i < k ensures t1.children[i].IsComplete() {
      assert t1.children[i] == t1.children[..k][i] == t.children[i];
    }
    Replace(all, t1.children, k, o);
    var one := OneSub(all[k], t, false);
    assert all[k..][1..] == all[k + 1..] && all[k..][0] == all[k];
    if !one.threw {
      SubsWhenDone(all, k + 1, one.tracker);
      assert one.leaves + [] == one.leaves;
    }
  }

  lemma EmptyKids(subs: seq<Section>, children: seq<Tracker>)
    requires subs == []
    ensures Kids(subs, children) == []
  {
  }

  lemma KidAt(all: seq<Section>, children: seq<Tracker>, k: nat)
    requires KidsMatch(all, children) && k < |children|
    ensures Matches(all[k], children[k])
  {
  }

  /** The child under way is replaced by what the visit left of it. */
  lemma Replace(all: seq<Section>, children: seq<Tracker>, k: nat, o: Outcome)
    requires KidsMatch(all, children) && k < |children| && !children[k].IsComplete()
    requires forall i | 0 <= i < k :: children[i].IsComplete()
    requires Visited(all[k], children[k], o)
    ensures var children' := children[k := o.tracker];
            && KidsMatch(all, children')
            && Kids(all, children) != [] && Kids(all, children)[0] == Run(o.leaves, o.threw)
            && Kids(all, children') == Kids(all, children)[1..]
            && (!o.tracker.IsComplete() ==> !children'[|children'| - 1].IsComplete())
  {
    hide Runs, Kids, Matches;
    var children' := children[k := o.tracker];
    KidsAt(all, children, k);
    KidsAt(all, children', k);
    assert children'[k + 1..] == children[k + 1..];
    assert forall j | k < j < |children| :: children'[j] == Fresh(children'[j].name);
    FirstOf(Runs(all[k], children[k]), Kids(all[k + 1..], children[k + 1..]));
  }

  lemma FirstOf(a: seq<Run>, b: seq<Run>)
    requires a != []
    ensures (a + b)[0] == a[0] && (a + b)[1..] == a[1..] + b
  {
  }
}
