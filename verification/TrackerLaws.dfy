/**
 What the runs of a test case amount to: without exceptions every leaf section is
 entered exactly once, in depth-first order; with exceptions never more than once.
 */
module TrackerLaws {
  import opened TrackerSpec

  /** The leaf sections of a section, in depth-first order, each as its path of names. */
  function LeafPaths(sec: Section): seq<seq<Name>>
    decreases sec, 0
  {
    if sec.subs == [] then [[sec.name]] else Under(sec.name, AllPaths(sec.subs))
  }

  function AllPaths(subs: seq<Section>): seq<seq<Name>>
    decreases subs, 1
  {
    if subs == [] then [] else LeafPaths(subs[0]) + AllPaths(subs[1..])
  }

  predicate ThrowFree(sec: Section)
    decreases sec
  {
    !sec.throws && forall i | 0 <= i < |sec.subs| :: ThrowFree(sec.subs[i])
  }

  /** One normal run for each path. */
  function RunsOf(paths: seq<seq<Name>>): (r: seq<Run>)
    ensures |r| == |paths|
    ensures forall i | 0 <= i < |paths| :: r[i] == Run([paths[i]], false)
  {
    seq(|paths|, i requires 0 <= i < |paths| => Run([paths[i]], false))
  }

  lemma RunsOfUnder(name: Name, paths: seq<seq<Name>>)
    ensures Named(name, RunsOf(paths)) == RunsOf(Under(name, paths))
  {
    forall i | 0 <= i < |paths| ensures Named(name, RunsOf(paths))[i] == RunsOf(Under(name, paths))[i] {
      assert Under(name, [paths[i]]) == [[name] + paths[i]];
    }
  }

  lemma RunsOfJoin(a: seq<seq<Name>>, b: seq<seq<Name>>)
    ensures RunsOf(a) + RunsOf(b) == RunsOf(a + b)
  {
  }

  lemma {:induction false} HasLeaf(sec: Section)
    ensures LeafPaths(sec) != []
    decreases sec
  {
    if sec.subs != [] {
      HasLeaf(sec.subs[0]);
      assert |AllPaths(sec.subs)| > 0;
    }
  }

  /** Without exceptions: one run for each leaf, in depth-first order. */
  lemma {:induction false} OneRunPerLeaf(sec: Section)
    requires ThrowFree(sec)
    ensures Runs(sec, Fresh(sec.name)) == RunsOf(LeafPaths(sec))
    decreases sec, 0
  {
    hide RunsOf, Named, Under;
    if sec.subs == [] {
      SingleRun(sec.name);
    } else {
      AllRunPerLeaf(sec.subs);
      HasLeaf(sec.subs[0]);
      PlainRuns(AllPaths(sec.subs));
      RunsOfUnder(sec.name, AllPaths(sec.subs));
    }
  }

  lemma SingleRun(name: Name)
    ensures RunsOf([[name]]) == [Run([[name]], false)]
  {
  }

  lemma PlainRuns(paths: seq<seq<Name>>)
    requires paths != []
    ensures Plain(RunsOf(paths)) == RunsOf(paths)
  {
  }

  lemma {:induction false} AllRunPerLeaf(subs: seq<Section>)
    requires forall i | 0 <= i < |subs| :: ThrowFree(subs[i])
    ensures Kids(subs, []) == RunsOf(AllPaths(subs))
    decreases subs, 1
  {
    hide Runs, LeafPaths, RunsOf, ThrowFree;
    if subs == [] {
      NoRuns();
    } else {
      OneRunPerLeaf(subs[0]);
      AllRunPerLeaf(subs[1..]);
      RunsOfJoin(LeafPaths(subs[0]), AllPaths(subs[1..]));
    }
  }

  lemma NoRuns()
    ensures RunsOf([]) == []
  {
  }

  // --- with exceptions ------------------------------------------------------------------

  /** All leaves that a sequence of runs enters, in order. */
  function Entered(runs: seq<Run>): seq<seq<Name>> {
    if runs == [] then [] else runs[0].leaves + Entered(runs[1..])
  }

  /** a is what remains of b when some elements are left out. */
  predicate Subsequence(a: seq<seq<Name>>, b: seq<seq<Name>>) {
    if a == [] then true
    else if b == [] then false
    else (a[0] == b[0] && Subsequence(a[1..], b[1..])) || Subsequence(a, b[1..])
  }

  lemma {:induction false} SubsequenceJoin(a: seq<seq<Name>>, b: seq<seq<Name>>, c: seq<seq<Name>>, d: seq<seq<Name>>)
    requires Subsequence(a, b) && Subsequence(c, d)
    ensures Subsequence(a + c, b + d)
    decreases |b|
  {
    if b == [] {
      assert a + c == c && b + d == d;
    } else {
      assert (b + d)[1..] == b[1..] + d;
      if a == [] {
        assert a + c == c;
        SubsequenceJoin([], b[1..], c, d);
        assert [] + c == c;
        Skip(c, b + d);
      } else if a[0] == b[0] && Subsequence(a[1..], b[1..]) {
        SubsequenceJoin(a[1..], b[1..], c, d);
        assert (a + c)[1..] == a[1..] + c;
      } else {
        SubsequenceJoin(a, b[1..], c, d);
      }
    }
  }

  lemma Skip(a: seq<seq<Name>>, b: seq<seq<Name>>)
    requires b != [] && Subsequence(a, b[1..])
    ensures Subsequence(a, b)
  {
  }

  lemma {:induction false} SubsequenceOfPrefix(a: seq<seq<Name>>, more: seq<seq<Name>>, b: seq<seq<Name>>)
    requires Subsequence(a + more, b)
    ensures Subsequence(a, b)
    decreases |b|
  {
    if a != [] && b != [] {
      if (a + more)[0] == b[0] && Subsequence((a + more)[1..], b[1..]) {
        assert (a + more)[1..] == a[1..] + more;
        SubsequenceOfPrefix(a[1..], more, b[1..]);
      } else {
        SubsequenceOfPrefix(a, more, b[1..]);
      }
    }
  }

  lemma {:induction false} SubsequenceUnder(name: Name, a: seq<seq<Name>>, b: seq<seq<Name>>)
    requires Subsequence(a, b)
    ensures Subsequence(Under(name, a), Under(name, b))
    decreases |b|
  {
    if a != [] {
      assert Under(name, b)[1..] == Under(name, b[1..]);
      if a[0] == b[0] && Subsequence(a[1..], b[1..]) {
        assert Under(name, a)[1..] == Under(name, a[1..]);
        SubsequenceUnder(name, a[1..], b[1..]);
      } else {
        SubsequenceUnder(name, a, b[1..]);
      }
    }
  }

  lemma {:induction false} EnteredJoin(a: seq<Run>, b: seq<Run>)
    ensures Entered(a + b) == Entered(a) + Entered(b)
    decreases |a|
  {
    if a == [] {
      assert a + b == b;
    } else {
      assert (a + b)[1..] == a[1..] + b;
      EnteredJoin(a[1..], b);
    }
  }

  lemma {:induction false} EnteredNamed(name: Name, runs: seq<Run>)
    ensures Entered(Named(name, runs)) == Under(name, Entered(runs))
    decreases |runs|
  {
    if runs != [] {
      assert Named(name, runs)[1..] == Named(name, runs[1..]);
      EnteredNamed(name, runs[1..]);
      assert Under(name, runs[0].leaves + Entered(runs[1..])) == Under(name, runs[0].leaves) + Under(name, Entered(runs[1..]));
    }
  }

  lemma EnteredPlain(runs: seq<Run>)
    ensures Entered(Plain(runs)) == Entered(runs)
  {
    EnteredJoin(runs, [Run([], false)]);
    assert Entered([Run([], false)]) == [] by { assert [Run([], false)][1..] == []; }
  }

  /** Cutting the runs short only drops leaves at the end. */
  lemma {:induction false} EnteredCut(runs: seq<Run>) returns (dropped: seq<seq<Name>>)
    ensures Entered(runs) == Entered(Cut(runs)) + dropped
    decreases |runs|
  {
    if runs == [] {
      dropped := [];
      assert [Run([], true)][1..] == [];
    } else if runs[0].threw {
      dropped := EnteredCut(runs[1..]);
      assert ([runs[0]] + Cut(runs[1..]))[1..] == Cut(runs[1..]);
    } else {
      dropped := Entered(runs[1..]);
      assert [Run(runs[0].leaves, true)][1..] == [];
    }
  }

  /** Whatever throws, leaves are entered in depth-first order, and none is entered twice. */
  lemma {:induction false} LeavesInOrder(sec: Section)
    ensures Subsequence(Entered(Runs(sec, Fresh(sec.name))), LeafPaths(sec))
    decreases sec, 0
  {
    hide Cut, Plain, Named, Under, Subsequence, Kids, AllPaths;
    if sec.subs == [] {
      LeafEntered(sec);
    } else {
      var inner := Kids(sec.subs, []);
      AllInOrder(sec.subs);
      EnteredPlain(inner);
      var dropped := EnteredCut(inner);
      SubsequenceOfPrefix(Entered(Cut(inner)), dropped, AllPaths(sec.subs));
      EnteredNamed(sec.name, Cut(inner));
      EnteredNamed(sec.name, Plain(inner));
      SubsequenceUnder(sec.name, Entered(if sec.throws then Cut(inner) else Plain(inner)), AllPaths(sec.subs));
    }
  }

  lemma LeafEntered(sec: Section)
    requires sec.subs == []
    ensures Subsequence(Entered(Runs(sec, Fresh(sec.name))), LeafPaths(sec))
  {
    assert Entered([Run([[sec.name]], sec.throws)][1..]) == [];
    assert Entered([Run([[sec.name]], sec.throws)]) == [[sec.name]];
  }

  lemma {:induction false} AllInOrder(subs: seq<Section>)
    ensures Subsequence(Entered(Kids(subs, [])), AllPaths(subs))
    decreases subs, 1
  {
    hide Runs, LeafPaths, Subsequence;
    if subs == [] {
      NothingEntered();
    } else {
      LeavesInOrder(subs[0]);
      AllInOrder(subs[1..]);
      EnteredJoin(Runs(subs[0], Fresh(subs[0].name)), Kids(subs[1..], []));
      SubsequenceJoin(Entered(Runs(subs[0], Fresh(subs[0].name))), LeafPaths(subs[0]),
                      Entered(Kids(subs[1..], [])), AllPaths(subs[1..]));
    }
  }

  lemma NothingEntered()
    ensures Subsequence(Entered([]), [])
  {
  }

  // --- leaves are told apart by their paths ------------------------------------------------

  predicate NoRepeats(paths: seq<seq<Name>>) {
    forall i, j | 0 <= i < j < |paths| :: paths[i] != paths[j]
  }

  lemma {:induction false} PathsStart(sec: Section)
    ensures forall i | 0 <= i < |LeafPaths(sec)| :: |LeafPaths(sec)[i]| > 0 && LeafPaths(sec)[i][0] == sec.name
  {
  }

  lemma {:induction false} AllPathsStart(subs: seq<Section>, name: Name)
    requires forall i | 0 <= i < |subs| :: subs[i].name != name
    ensures forall i | 0 <= i < |AllPaths(subs)| :: |AllPaths(subs)[i]| > 0 && AllPaths(subs)[i][0] != name
    decreases subs
  {
    hide LeafPaths;
    if subs != [] {
      PathsStart(subs[0]);
      AllPathsStart(subs[1..], name);
    }
  }

  lemma {:induction false} PathsDistinct(sec: Section)
    requires WellNamed(sec)
    ensures NoRepeats(LeafPaths(sec))
    decreases sec, 0
  {
    if sec.subs != [] {
      AllDistinct(sec.subs);
      UnderDistinct(sec.name, AllPaths(sec.subs));
    }
  }

  lemma UnderDistinct(name: Name, paths: seq<seq<Name>>)
    requires NoRepeats(paths)
    ensures NoRepeats(Under(name, paths))
  {
    forall i, j | 0 <= i < j < |paths| ensures Under(name, paths)[i] != Under(name, paths)[j] {
      assert ([name] + paths[i])[1..] == paths[i] && ([name] + paths[j])[1..] == paths[j];
    }
  }

  lemma {:induction false} AllDistinct(subs: seq<Section>)
    requires Distinct(subs) && forall i | 0 <= i < |subs| :: WellNamed(subs[i])
    ensures NoRepeats(AllPaths(subs))
    decreases subs, 1
  {
    hide LeafPaths, WellNamed;
    if subs != [] {
      PathsDistinct(subs[0]);
      AllDistinct(subs[1..]);
      PathsStart(subs[0]);
      AllPathsStart(subs[1..], subs[0].name);
    }
  }

  lemma {:induction false} MemberOfLonger(a: seq<seq<Name>>, b: seq<seq<Name>>, x: seq<Name>)
    requires Subsequence(a, b) && x in a
    ensures x in b
    decreases |b|
  {
    if a[0] == b[0] && Subsequence(a[1..], b[1..]) {
      if x != a[0] {
        MemberOfLonger(a[1..], b[1..], x);
      }
    } else {
      MemberOfLonger(a, b[1..], x);
    }
  }

  lemma {:induction false} NoRepeatsInside(a: seq<seq<Name>>, b: seq<seq<Name>>)
    requires Subsequence(a, b) && NoRepeats(b)
    ensures NoRepeats(a)
    decreases |b|
  {
    if a != [] {
      if a[0] == b[0] && Subsequence(a[1..], b[1..]) {
        NoRepeatsInside(a[1..], b[1..]);
        forall i | 1 <= i < |a| ensures a[i] != a[0] {
          assert a[i] in a[1..];
          MemberOfLonger(a[1..], b[1..], a[i]);
        }
      } else {
        NoRepeatsInside(a, b[1..]);
      }
    }
  }

  /** No leaf section is ever entered twice. */
  lemma NeverTwice(sec: Section)
    requires WellNamed(sec)
    ensures NoRepeats(Entered(Runs(sec, Fresh(sec.name))))
  {
    hide *;
    LeavesInOrder(sec);
    PathsDistinct(sec);
    NoRepeatsInside(Entered(Runs(sec, Fresh(sec.name))), LeafPaths(sec));
  }

  // --- complete sections stay as they are ----------------------------------------------------

  /** Every tracker that is complete in t is still there, unchanged, in t'. */
  predicate Settled(t: Tracker, t': Tracker)
    decreases t
  {
    if t.IsComplete() then t' == t
    else AllSettled(t.children, t'.children)
  }

  predicate AllSettled(children: seq<Tracker>, children': seq<Tracker>)
    decreases children
  {
    |children| <= |children'| && forall i | 0 <= i < |children| :: Settled(children[i], children'[i])
  }

  lemma {:induction false} SettledSame(t: Tracker)
    ensures Settled(t, t)
    decreases t
  {
    AllSettledSame(t.children);
  }

  lemma {:induction false} AllSettledSame(children: seq<Tracker>)
    ensures AllSettled(children, children)
    decreases children
  {
    forall i | 0 <= i < |children| ensures Settled(children[i], children[i]) {
      SettledSame(children[i]);
    }
  }

  lemma {:induction false} SettledTransitive(t: Tracker, t': Tracker, t'': Tracker)
    requires Settled(t, t') && Settled(t', t'')
    ensures Settled(t, t'')
    decreases t
  {
    if !t.IsComplete() {
      if t'.IsComplete() {
      } else {
        AllSettledTransitive(t.children, t'.children, t''.children);
      }
    }
  }

  lemma {:induction false} AllSettledTransitive(c: seq<Tracker>, c': seq<Tracker>, c'': seq<Tracker>)
    requires AllSettled(c, c') && AllSettled(c', c'')
    ensures AllSettled(c, c'')
    decreases c
  {
    forall i | 0 <= i < |c| ensures Settled(c[i], c''[i]) {
      SettledTransitive(c[i], c'[i], c''[i]);
    }
  }

  /** A section that completed or failed is never entered again: its tracker does not change. */
  lemma {:induction false} EnterSettles(sec: Section, t: Tracker)
    requires !t.IsComplete()
    ensures AllSettled(t.children, Enter(sec, t).tracker.children)
    decreases sec, 0
  {
    hide AllSettled;
    SubsSettle(sec.subs, t.(state := Executing), false);
  }

  lemma {:induction false} SubsSettle(subs: seq<Section>, t: Tracker, done: bool)
    ensures AllSettled(t.children, Subs(subs, t, done).tracker.children)
    decreases subs, 1
  {
    hide AllSettled, Enter, OneSub;
    if subs == [] {
      AllSettledSame(t.children);
    } else {
      var one := OneSub(subs[0], t, done);
      OneSettles(subs[0], t, done);
      if !one.threw {
        SubsSettle(subs[1..], one.tracker, one.done);
        AllSettledTransitive(t.children, one.tracker.children, Subs(subs, t, done).tracker.children);
      }
    }
  }

  lemma {:induction false} OneSettles(sub: Section, t: Tracker, done: bool)
    ensures AllSettled(t.children, OneSub(sub, t, done).tracker.children)
    decreases sub, 1
  {
    hide Enter;
    AllSettledSame(t.children);
    var t1 := Acquired(t, sub.name);
    var i := Find(t.children, sub.name);
    if !done && !t1.children[i].IsComplete() {
      EnterSettles(sub, t1.children[i]);
    }
  }
}
