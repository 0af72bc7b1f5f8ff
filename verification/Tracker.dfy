/**
 The run loop of the test framework (lib/catch.hpp) over a tree of trackers that
 is updated in place; a tracker is addressed by its path from the root.
 */
module TrackerRunner {
  import opened TrackerSpec
  import opened TrackerRuns
  import opened TrackerLaws

  type Path = seq<nat>

  // --- trackers by path ---------------------------------------------------------------

  predicate Inside(t: Tracker, path: Path) {
    path == [] || (path[0] < |t.children| && Inside(t.children[path[0]], path[1..]))
  }

  function At(t: Tracker, path: Path): Tracker
    requires Inside(t, path)
  {
    if path == [] then t else At(t.children[path[0]], path[1..])
  }

  function Put(t: Tracker, path: Path, x: Tracker): (t': Tracker)
    requires Inside(t, path)
  {
    if path == [] then x
    else t.(children := t.children[path[0] := Put(t.children[path[0]], path[1..], x)])
  }

  lemma {:induction false} PutAt(t: Tracker, path: Path, x: Tracker)
    requires Inside(t, path)
    ensures Inside(Put(t, path, x), path) && At(Put(t, path, x), path) == x
    decreases |path|
  {
    if path != [] {
      PutAt(t.children[path[0]], path[1..], x);
    }
  }

  lemma {:induction false} PutPut(t: Tracker, path: Path, x: Tracker, y: Tracker)
    requires Inside(t, path)
    ensures Inside(Put(t, path, x), path) && Put(Put(t, path, x), path, y) == Put(t, path, y)
    decreases |path|
  {
    if path != [] {
      PutPut(t.children[path[0]], path[1..], x, y);
    }
  }

  lemma {:induction false} PutSame(t: Tracker, path: Path)
    requires Inside(t, path)
    ensures Put(t, path, At(t, path)) == t
    decreases |path|
  {
    if path != [] {
      PutSame(t.children[path[0]], path[1..]);
    }
  }

  /** A child of the tracker at `path`. */
  lemma {:induction false} Deeper(t: Tracker, path: Path, i: nat)
    requires Inside(t, path) && i < |At(t, path).children|
    ensures Inside(t, path + [i]) && At(t, path + [i]) == At(t, path).children[i]
    decreases |path|
  {
    if path == [] {
      assert ([] + [i])[1..] == [];
    } else {
      Deeper(t.children[path[0]], path[1..], i);
      assert (path + [i])[1..] == path[1..] + [i];
    }
  }

  lemma {:induction false} PutDeeper(t: Tracker, path: Path, i: nat, x: Tracker)
    requires Inside(t, path) && i < |At(t, path).children|
    ensures Inside(t, path + [i])
    ensures Put(t, path + [i], x) == Put(t, path, At(t, path).(children := At(t, path).children[i := x]))
    decreases |path|
  {
    if path == [] {
      assert ([] + [i])[1..] == [];
    } else {
      PutDeeper(t.children[path[0]], path[1..], i, x);
      assert (path + [i])[1..] == path[1..] + [i];
    }
  }

  /** The trackers above `path` are executing children. */
  predicate OpenAbove(t: Tracker, path: Path)
    requires Inside(t, path)
  {
    path == [] || (t.state == ExecutingChildren && OpenAbove(t.children[path[0]], path[1..]))
  }

  lemma {:induction false} OpenAbovePut(t: Tracker, path: Path, x: Tracker)
    requires Inside(t, path)
    ensures Inside(Put(t, path, x), path) && (OpenAbove(Put(t, path, x), path) <==> OpenAbove(t, path))
    decreases |path|
  {
    if path != [] {
      OpenAbovePut(t.children[path[0]], path[1..], x);
    }
  }

  lemma {:induction false} OpenAboveDeeper(t: Tracker, path: Path, i: nat)
    requires Inside(t, path) && i < |At(t, path).children|
    ensures Inside(t, path + [i])
    ensures OpenAbove(t, path + [i]) <==> OpenAbove(t, path) && At(t, path).state == ExecutingChildren
    decreases |path|
  {
    if path == [] {
      assert ([] + [i])[1..] == [];
    } else {
      OpenAboveDeeper(t.children[path[0]], path[1..], i);
      assert (path + [i])[1..] == path[1..] + [i];
    }
  }

  lemma Parent(path: Path)
    requires path != []
    ensures path == path[..|path| - 1] + [path[|path| - 1]]
  {
  }

  lemma {:induction false} InsideParent(t: Tracker, path: Path)
    requires Inside(t, path) && path != []
    ensures Inside(t, path[..|path| - 1]) && path[|path| - 1] < |At(t, path[..|path| - 1]).children|
    decreases |path|
  {
    if |path| > 1 {
      InsideParent(t.children[path[0]], path[1..]);
      assert path[..|path| - 1][1..] == path[1..][..|path| - 2];
    }
  }

  /** A change at a child, where the tracker at `path` was just changed to p. */
  lemma Nested(t: Tracker, path: Path, p: Tracker, i: nat, x: Tracker)
    requires Inside(t, path) && i < |p.children|
    ensures var t1 := Put(t, path, p);
            && Inside(t1, path + [i]) && At(t1, path + [i]) == p.children[i]
            && Put(t1, path + [i], x) == Put(t, path, p.(children := p.children[i := x]))
            && (OpenAbove(t1, path + [i]) <==> OpenAbove(t, path) && p.state == ExecutingChildren)
  {
    hide At, Put, Inside, OpenAbove;
    var t1 := Put(t, path, p);
    PutAt(t, path, p);
    Deeper(t1, path, i);
    PutDeeper(t1, path, i, x);
    PutPut(t, path, p, p.(children := p.children[i := x]));
    OpenAbovePut(t, path, p);
    OpenAboveDeeper(t1, path, i);
  }

  lemma FailEffect(t: Tracker, path: Path)
    requires Inside(t, path) && path != []
    ensures var up, i := path[..|path| - 1], path[|path| - 1];
            && Inside(t, up) && i < |At(t, up).children| && At(t, path) == At(t, up).children[i]
            && var p1 := At(t, up).(children := At(t, up).children[i := At(t, path).(state := Failed)]);
               var t1 := Put(t, path, At(t, path).(state := Failed));
               && Inside(t1, up) && At(t1, up) == p1
               && Put(t1, up, p1.(state := NeedsAnotherRun)) == Put(t, up, p1.(state := NeedsAnotherRun))
  {
    hide At, Put, Inside;
    var up, i := path[..|path| - 1], path[|path| - 1];
    Parent(path);
    InsideParent(t, path);
    Deeper(t, up, i);
    var failed := At(t, path).(state := Failed);
    PutDeeper(t, up, i, failed);
    var p1 := At(t, up).(children := At(t, up).children[i := failed]);
    PutAt(t, up, p1);
    PutPut(t, up, p1, p1.(state := NeedsAnotherRun));
  }

  // --- the run context ---------------------------------------------------------------------

  class RunContext {
    var root: Tracker
    var current: Path
    var completedCycle: bool
    var activeSections: seq<Path>
    var unfinished: nat
    /** The leaf sections entered so far. */
    var log: seq<seq<Name>>

    constructor (rootName: Name)
      ensures root == Fresh(rootName) && current == [] && activeSections == [] && unfinished == 0 && log == []
    {
      root := Fresh(rootName);
      current, completedCycle, activeSections, unfinished, log := [], false, [], 0, [];
    }

    predicate Valid()
      reads this
    {
      Inside(root, current) && OpenAbove(root, current)
    }

    function Current(): Tracker
      reads this
      requires Inside(root, current)
    {
      At(root, current)
    }

    /** openChild, on the tracker at `path`: the trackers above it are executing children already. */
    method OpenChild(path: Path)
      requires Inside(root, path) && OpenAbove(root, path)
      modifies this`root
      ensures root == Put(old(root), path, At(old(root), path).(state := ExecutingChildren))
      decreases |path|
    {
      var t := At(root, path);
      PutSame(root, path);
      if t.state != ExecutingChildren {
        PutAt(root, path, t.(state := ExecutingChildren));
        OpenAbovePut(root, path, t.(state := ExecutingChildren));
        root := Put(root, path, t.(state := ExecutingChildren));
        if path != [] {
          var up := path[..|path| - 1];
          Parent(path);
          InsideParent(root, path);
          OpenAboveDeeper(root, up, path[|path| - 1]);
          PutSame(root, up);
          OpenChild(up);
        }
      }
    }

    /** open, on a child of the current tracker. */
    method Open(i: nat)
      requires Valid() && i < |Current().children|
      modifies this`root, this`current
      ensures Inside(old(root), old(current))
      ensures root == Put(old(root), old(current),
                          var p := At(old(root), old(current));
                          p.(state := ExecutingChildren, children := p.children[i := p.children[i].(state := Executing)]))
      ensures current == old(current) + [i]
    {
      var up := current;
      var p := At(root, up);
      var child := p.children[i];
      var p1 := p.(children := p.children[i := child.(state := Executing)]);
      Deeper(root, up, i);
      PutDeeper(root, up, i, child.(state := Executing));
      root := Put(root, up + [i], child.(state := Executing));
      current := up + [i];
      OpenAbovePut(old(root), up, p1);
      PutAt(old(root), up, p1);
      PutPut(old(root), up, p1, p1.(state := ExecutingChildren));
      OpenChild(up);
    }

    /** acquire: finds or adds the tracker, and opens it unless the cycle is over or it is complete. */
    method Acquire(name: Name) returns (i: nat, started: bool)
      requires Valid()
      modifies this`root, this`current
      ensures Inside(old(root), old(current))
      ensures var p := Acquired(At(old(root), old(current)), name);
              && i == Find(At(old(root), old(current)).children, name)
              && i < |p.children|
              && started == (!completedCycle && !p.children[i].IsComplete())
              && current == (if started then old(current) + [i] else old(current))
              && root == Put(old(root), old(current),
                             if started then
                               p.(state := ExecutingChildren, children := p.children[i := p.children[i].(state := Executing)])
                             else p)
    {
      var t := At(root, current);
      i := Find(t.children, name);
      var p := Acquired(t, name);
      PutSame(root, current);
      PutAt(root, current, p);
      OpenAbovePut(root, current, p);
      root := Put(root, current, p);
      started := false;
      if !completedCycle {
        if !p.children[i].IsComplete() {
          started := true;
          Open(i);
          PutPut(old(root), old(current), p,
                 p.(state := ExecutingChildren, children := p.children[i := p.children[i].(state := Executing)]));
        }
      }
    }

    /** close, on the current tracker; in the other states it would report an internal error. */
    method Close()
      requires Valid() && current != []
      requires Current().state in {Executing, ExecutingChildren, NeedsAnotherRun}
      modifies this`root, this`current, this`completedCycle
      ensures Inside(old(root), old(current))
      ensures root == Put(old(root), old(current), At(old(root), old(current)).Closed())
      ensures current == old(current)[..|old(current)| - 1] && completedCycle
    {
      var t := At(root, current);
      PutSame(root, current);
      match t.state {
        case Executing =>
          root := Put(root, current, t.(state := CompletedSuccessfully));
        case ExecutingChildren =>
          if |t.children| == 0 || t.children[|t.children| - 1].IsComplete() {
            root := Put(root, current, t.(state := CompletedSuccessfully));
          }
        case _ =>
      }
      current := current[..|current| - 1];
      completedCycle := true;
    }

    /** fail, on the current tracker: its parent needs another run. */
    method Fail()
      requires Valid() && current != []
      modifies this`root, this`current, this`completedCycle
      ensures Inside(old(root), old(current)) && Inside(old(root), current)
      ensures current == old(current)[..|old(current)| - 1] && completedCycle
      ensures old(current)[|current|] < |At(old(root), current).children|
      ensures root == Put(old(root), current,
                          var p := At(old(root), current);
                          var i := old(current)[|current|];
                          p.(state := NeedsAnotherRun, children := p.children[i := p.children[i].(state := Failed)]))
    {
      hide At, Put, Inside, OpenAbove;
      var t := At(root, current);
      var up, i := current[..|current| - 1], current[|current| - 1];
      FailEffect(root, current);
      root := Put(root, current, t.(state := Failed));
      root := Put(root, up, At(root, up).(state := NeedsAnotherRun));
      current := up;
      completedCycle := true;
    }

    // --- sections of the test ------------------------------------------------------------

    /** The constructor of a section: it reports whether the section is to be executed. */
    method SectionStarted(name: Name) returns (included: bool)
      requires Valid()
      requires completedCycle ==> ClosedChild(Current(), name)
      modifies this
      ensures unfinished == old(unfinished) && log == old(log) && completedCycle == old(completedCycle)
      ensures Inside(old(root), old(current))
      ensures var p := Acquired(At(old(root), old(current)), name);
              var i := Find(At(old(root), old(current)).children, name);
              && i < |p.children|
              && included == (!completedCycle && !p.children[i].IsComplete())
              && current == (if included then old(current) + [i] else old(current))
              && activeSections == (if included then old(activeSections) + [current] else old(activeSections))
              && root == Put(old(root), old(current),
                             if included then
                               p.(state := ExecutingChildren, children := p.children[i := p.children[i].(state := Executing)])
                             else p)
    {
      var i, started := Acquire(name);
      ghost var p := Acquired(At(old(root), old(current)), name);
      var path := if started then current else current + [i];
      if started {
        ghost var p1 := p.(state := ExecutingChildren, children := p.children[i := p.children[i].(state := Executing)]);
        PutAt(old(root), old(current), p1);
        Deeper(root, old(current), i);
      } else {
        PutAt(old(root), old(current), p);
        Deeper(root, old(current), i);
      }
      if !At(root, path).IsOpen() {
        return false;
      }
      activeSections := activeSections + [path];
      return true;
    }

    method SectionEnded()
      requires Valid() && current != [] && activeSections != [] && activeSections[|activeSections| - 1] == current
      requires Current().state in {Executing, ExecutingChildren, NeedsAnotherRun}
      modifies this
      ensures unfinished == old(unfinished) && log == old(log) && completedCycle
      ensures Inside(old(root), old(current))
      ensures root == Put(old(root), old(current), At(old(root), old(current)).Closed())
      ensures current == old(current)[..|old(current)| - 1]
      ensures activeSections == old(activeSections)[..|old(activeSections)| - 1]
    {
      if |activeSections| != 0 {
        Close();
        activeSections := activeSections[..|activeSections| - 1];
      }
    }

    /** An exception leaves a section: the innermost one fails, the others are closed. */
    method SectionEndedEarly()
      requires Valid() && current != [] && activeSections != [] && activeSections[|activeSections| - 1] == current
      requires Current().state in {Executing, ExecutingChildren, NeedsAnotherRun}
      modifies this
      ensures unfinished == old(unfinished) + 1 && log == old(log) && completedCycle
      ensures current == old(current)[..|old(current)| - 1]
      ensures activeSections == old(activeSections)[..|old(activeSections)| - 1]
      ensures Inside(old(root), old(current)) && Inside(old(root), current)
      ensures old(unfinished) > 0 ==> root == Put(old(root), old(current), At(old(root), old(current)).Closed())
      ensures old(unfinished) == 0 ==>
                && old(current)[|current|] < |At(old(root), current).children|
                && root == Put(old(root), current,
                               var p := At(old(root), current);
                               var i := old(current)[|current|];
                               p.(state := NeedsAnotherRun, children := p.children[i := p.children[i].(state := Failed)]))
    {
      InsideParent(root, current);
      if unfinished == 0 {
        Fail();
      } else {
        Close();
      }
      activeSections := activeSections[..|activeSections| - 1];
      unfinished := unfinished + 1;
    }

    /** Sections that an exception ended are reported as ended; no tracker is active any more. */
    method HandleUnfinishedSections()
      requires activeSections == []
      modifies this
      ensures unfinished == 0
      ensures root == old(root) && activeSections == [] && log == old(log) && current == old(current)
    {
      unfinished := 0;
    }

    // --- the test -----------------------------------------------------------------------------

    /** A section statement of the test: constructor, body if included, destructor. */
    method ExecuteSection(sec: Section, trail: seq<Name>) returns (threw: bool)
      requires Valid() && unfinished == 0 && WellNamed(sec)
      requires completedCycle ==> ClosedChild(Current(), sec.name)
      requires ChildMatches(Current(), sec)
      modifies this
      ensures current == old(current) && activeSections == old(activeSections) && Inside(old(root), current)
      ensures var o := OneSub(sec, At(old(root), current), old(completedCycle));
              && root == Put(old(root), current, o.tracker)
              && completedCycle == o.done && threw == o.threw && log == old(log) + Below(trail, o.leaves)
      ensures threw <==> unfinished > 0
      decreases sec, 1
    {
      hide At, Put, Inside, OpenAbove, Subs, WellNamed, Under, Tracker.Closed, Find, Below, OneSub, Enter, Acquired,
        ChildMatches, ClosedChild, KidsMatch, Distinct;
      SkippedOutcome(sec, At(root, current), completedCycle);
      NothingBelow(trail, log);
      var included := SectionStarted(sec.name);
      if !included {
        return false;
      }
      SectionEffect(old(root), old(current), sec);
      ChildStarts(old(root), old(current), sec);
      threw := ExecuteIncluded(sec, trail);
    }

    /** The body of a section that was included, and its end. */
    method ExecuteIncluded(sec: Section, trail: seq<Name>) returns (threw: bool)
      requires Valid() && unfinished == 0 && !completedCycle
      requires current != [] && activeSections != [] && activeSections[|activeSections| - 1] == current
      requires Current().state == Executing && KidsMatch(sec.subs, Current().children)
      requires Distinct(sec.subs) && forall i | 0 <= i < |sec.subs| :: WellNamed(sec.subs[i])
      modifies this
      ensures completedCycle && (threw <==> unfinished > 0)
      ensures current == old(current)[..|old(current)| - 1]
      ensures activeSections == old(activeSections)[..|old(activeSections)| - 1]
      ensures Inside(old(root), old(current)) && Inside(old(root), current)
      ensures old(current)[|current|] < |At(old(root), current).children|
      ensures var o := Subs(sec.subs, At(old(root), old(current)), false);
              && threw == (o.threw || sec.throws)
              && log == old(log) + Below(trail, Under(sec.name, if sec.subs == [] then [[]] else o.leaves))
              && root == Ended(old(root), current, old(current)[|current|], o.tracker, !o.threw && sec.throws)
      decreases sec, 0
    {
      hide At, Put, Inside, OpenAbove, Subs, WellNamed, Under, Tracker.Closed, Below, KidsMatch, Distinct;
      if |sec.subs| == 0 {
        log := log + [trail + [sec.name]];
      }
      ghost var inside := Subs(sec.subs, At(root, current), false);
      SubsState(sec.subs, At(root, current), false);
      LogOf(sec, trail, old(log), inside);
      EndedEffect(root, current, inside.tracker);
      threw := ExecuteBody(sec.subs, trail + [sec.name]);
      threw := LeaveSection(threw, sec.throws);
    }

    /** The end of a section's body and its destructor. */
    method LeaveSection(inside: bool, throws: bool) returns (threw: bool)
      requires Valid() && current != [] && activeSections != [] && activeSections[|activeSections| - 1] == current
      requires Current().state in {Executing, ExecutingChildren, NeedsAnotherRun}
      requires inside <==> unfinished > 0
      modifies this
      ensures threw == (inside || throws) && (threw <==> unfinished > 0) && completedCycle && log == old(log)
      ensures current == old(current)[..|old(current)| - 1]
      ensures activeSections == old(activeSections)[..|old(activeSections)| - 1]
      ensures Inside(old(root), old(current)) && Inside(old(root), current)
      ensures inside || !throws ==> root == Put(old(root), old(current), At(old(root), old(current)).Closed())
      ensures !inside && throws ==>
                && old(current)[|current|] < |At(old(root), current).children|
                && root == Put(old(root), current,
                               var p := At(old(root), current);
                               var i := old(current)[|current|];
                               p.(state := NeedsAnotherRun, children := p.children[i := p.children[i].(state := Failed)]))
    {
      hide At, Put, Inside, OpenAbove, Tracker.Closed;
      threw := inside || throws;
      InsideParent(root, current);
      if threw {
        SectionEndedEarly();
      } else {
        SectionEnded();
      }
    }

    /** The sections inside a section, one after the other, until one throws. */
    method ExecuteBody(subs: seq<Section>, trail: seq<Name>) returns (threw: bool)
      requires Valid() && unfinished == 0 && !completedCycle
      requires Distinct(subs) && (forall i | 0 <= i < |subs| :: WellNamed(subs[i])) && KidsMatch(subs, Current().children)
      modifies this
      ensures current == old(current) && activeSections == old(activeSections) && Inside(old(root), current)
      ensures var o := Subs(subs, At(old(root), current), false);
              && root == Put(old(root), current, o.tracker)
              && completedCycle == o.done && threw == o.threw && log == old(log) + Below(trail, o.leaves)
      ensures threw <==> unfinished > 0
      decreases subs, 2
    {
      hide At, Put, Inside, OpenAbove, OneSub, KidsMatch, WellNamed, Distinct, Subs;
      ghost var t0 := At(root, current);
      ghost var t, sofar := t0, [];
      NothingBelow(trail, log);
      PutSame(root, current);
      assert subs[0..] == subs;
      threw := false;
      var k := 0;
      StartBody(subs, t0);
      while k < |subs|
        invariant 0 <= k <= |subs| && current == old(current) && activeSections == old(activeSections)
        invariant Inside(old(root), current) && root == Put(old(root), current, t) && Valid()
        invariant unfinished == 0 && !threw && log == old(log) + Below(trail, sofar)
        invariant Progress(subs, k, t, completedCycle)
        invariant Continues(Subs(subs, t0, false), sofar, Subs(subs[k..], t, completedCycle))
      {
        PutAt(old(root), current, t);
        ReadyFor(subs, k, t, completedCycle);
        ghost var one := OneSub(subs[k], t, completedCycle);
        BodyStep(subs, k, t, completedCycle, Subs(subs, t0, false), sofar);
        ghost var before := root;
        threw := ExecuteSection(subs[k], trail);
        PutPut(old(root), current, t, one.tracker);
        OpenAbovePut(old(root), current, one.tracker);
        BelowJoin(trail, old(log), sofar, one.leaves);
        t, sofar := one.tracker, sofar + one.leaves;
        if threw {
          return;
        }
        k := k + 1;
      }
      EndBody(subs, t, completedCycle, Subs(subs, t0, false), sofar);
    }
  }

  /** The test case as its loop sees it: an exception at its own level is caught. */
  function Caught(test: Section): Section {
    test.(throws := false)
  }

  /**
   runTest: runs the test until its tracker is complete. It ends, and the leaves it
   enters are exactly those of the runs that the specification lists.
   */
  method RunTest(rootName: Name, test: Section) returns (log: seq<seq<Name>>, cycles: nat)
    requires WellNamed(test)
    ensures cycles == |Runs(Caught(test), Fresh(test.name))|
    ensures log == Entered(Runs(Caught(test), Fresh(test.name)))
    ensures ThrowFree(Caught(test)) ==> log == LeafPaths(test) && cycles == |log|
    ensures NoRepeats(log) && Subsequence(log, LeafPaths(test))
  {
    hide Runs, Matches, Entered, WellNamed, ThrowFree, LeafPaths, Subsequence, NoRepeats;
    ghost var sec := Caught(test);
    var ctx := new RunContext(rootName);
    cycles := 0;
    ghost var t := Fresh(test.name);
    FreshMatches(sec);
    CaughtNamed(test);
    AllLeft(sec);
    var completed := false;
    while !completed
      invariant Matches(sec, t) && ctx.unfinished == 0 && ctx.activeSections == []
      invariant completed <==> t.IsComplete()
      invariant ctx.root.children == (if cycles == 0 then [] else [t])
      invariant cycles == 0 ==> t == Fresh(test.name)
      invariant cycles + |Runs(sec, t)| == |Runs(sec, Fresh(test.name))|
      invariant ctx.log + Entered(Runs(sec, t)) == Entered(Runs(sec, Fresh(test.name)))
      decreases |Runs(sec, t)|
    {
      EnterRuns(sec, t);
      NextRun(sec, t, ctx.log);
      t := RunCycle(ctx, test, t);
      completed := ctx.root.children[0].state == CompletedSuccessfully;
      cycles := cycles + 1;
    }
    log := ctx.log;
    NoneLeft(sec, t, log);
    CaughtPaths(test);
    LeavesInOrder(sec);
    NeverTwice(sec);
    if ThrowFree(sec) {
      OneRunPerLeaf(sec);
      EnteredOnce(LeafPaths(sec));
    }
  }

  /** One cycle: the test case is acquired, executed and closed. */
  method RunCycle(ctx: RunContext, test: Section, ghost t: Tracker) returns (ghost t': Tracker)
    requires WellNamed(test) && Matches(Caught(test), t) && !t.IsComplete()
    requires ctx.unfinished == 0 && ctx.activeSections == []
    requires ctx.root.children == [t] || (ctx.root.children == [] && t == Fresh(test.name))
    modifies ctx
    ensures t' == Enter(Caught(test), t).tracker && (t'.IsComplete() ==> t'.state == CompletedSuccessfully)
    ensures ctx.root.children == [t'] && ctx.unfinished == 0 && ctx.activeSections == []
    ensures ctx.log == old(ctx.log) + Enter(Caught(test), t).leaves
  {
    hide Subs, WellNamed, KidsMatch, Under, Below, At, Put, Inside, OpenAbove, Find, Acquired, Tracker.Closed, Enter, Matches;
    ctx.current, ctx.completedCycle := [], false;
    ghost var root0 := ctx.root;
    RootPath(root0);
    CycleStart(root0, test, t);
    var i, started := ctx.Acquire(test.name);
    ghost var child := t.(state := Executing);
    ghost var p1 := Acquired(root0, test.name).(state := ExecutingChildren, children := [child]);
    assert [t][0 := child] == [child];
    assert ctx.root == Put(root0, [], p1) && ctx.current == [] + [0];
    Nested(root0, [], p1, 0, child);
    if |test.subs| == 0 {
      ctx.log := ctx.log + [[test.name]];
    }
    ghost var inside := Subs(test.subs, child, false);
    var threw := ctx.ExecuteBody(test.subs, [test.name]);
    Nested(root0, [], p1, 0, inside.tracker);
    assert [child][0 := inside.tracker] == [inside.tracker];
    ghost var p2 := p1.(children := [inside.tracker]);
    assert ctx.root == Put(root0, [], p2);
    t' := inside.tracker.Closed();
    Nested(root0, [], p2, 0, t');
    SubsState(test.subs, child, false);
    ctx.Close();
    assert [inside.tracker][0 := t'] == [t'];
    PutRoot(root0, p2.(children := [t']));
    CycleEnd(test, t, old(ctx.log));
    ctx.HandleUnfinishedSections();
  }

  lemma RootPath(root: Tracker)
    ensures Inside(root, []) && OpenAbove(root, []) && At(root, []) == root
  {
  }

  lemma PutRoot(root: Tracker, x: Tracker)
    ensures Inside(root, []) && Put(root, [], x) == x
  {
  }

  /** The test case finds its tracker under the root, or adds it. */
  lemma CycleStart(root: Tracker, test: Section, t: Tracker)
    requires WellNamed(test) && Matches(Caught(test), t) && !t.IsComplete()
    requires root.children == [t] || (root.children == [] && t == Fresh(test.name))
    ensures Find(root.children, test.name) == 0 && Acquired(root, test.name).children == [t]
    ensures KidsMatch(test.subs, t.children)
    ensures Distinct(test.subs) && forall i | 0 <= i < |test.subs| :: WellNamed(test.subs[i])
  {
    CaughtMatches(test, t);
  }

  /** What the cycle did is a visit of the test case in which exceptions are caught. */
  lemma CycleEnd(test: Section, t: Tracker, log: seq<seq<Name>>)
    ensures var inside := Subs(test.subs, t.(state := Executing), false);
            var o := Enter(Caught(test), t);
            && o.tracker == inside.tracker.Closed()
            && (o.tracker.IsComplete() ==> o.tracker.state == CompletedSuccessfully)
            && (if test.subs == [] then log + [[test.name]] else log) + Below([test.name], inside.leaves) == log + o.leaves
  {
    hide Subs, Under, Below;
    var inside := Subs(test.subs, t.(state := Executing), false);
    SubsState(test.subs, t.(state := Executing), false);
    LogOf(test, [], log, inside);
    BelowNothing(Under(test.name, if test.subs == [] then [[]] else inside.leaves));
    assert [] + [test.name] == [test.name];
  }

  lemma BelowNothing(paths: seq<seq<Name>>)
    ensures Below([], paths) == paths
  {
    forall i | 0 <= i < |paths| ensures Below([], paths)[i] == paths[i] {
      assert [] + paths[i] == paths[i];
    }
  }

  lemma CaughtMatches(test: Section, t: Tracker)
    requires WellNamed(test) && Matches(Caught(test), t)
    ensures t.name == test.name && KidsMatch(test.subs, t.children)
    ensures Distinct(test.subs) && forall i | 0 <= i < |test.subs| :: WellNamed(test.subs[i])
  {
  }

  lemma CaughtNamed(test: Section)
    requires WellNamed(test)
    ensures WellNamed(Caught(test))
  {
  }

  lemma CaughtPaths(test: Section)
    ensures LeafPaths(Caught(test)) == LeafPaths(test)
  {
  }

  lemma AllLeft(sec: Section)
    ensures [] + Entered(Runs(sec, Fresh(sec.name))) == Entered(Runs(sec, Fresh(sec.name)))
  {
  }

  /** The first remaining run is performed, the others remain. */
  lemma NextRun(sec: Section, t: Tracker, log: seq<seq<Name>>)
    requires Visited(sec, t, Enter(sec, t))
    ensures var o := Enter(sec, t);
            && |Runs(sec, o.tracker)| == |Runs(sec, t)| - 1
            && log + o.leaves + Entered(Runs(sec, o.tracker)) == log + Entered(Runs(sec, t))
  {
    hide Runs, Enter, Matches;
    var o := Enter(sec, t);
    assert log + o.leaves + Entered(Runs(sec, o.tracker)) == log + (o.leaves + Entered(Runs(sec, o.tracker)));
  }

  lemma NoneLeft(sec: Section, t: Tracker, log: seq<seq<Name>>)
    requires t.IsComplete()
    ensures Runs(sec, t) == [] && log + Entered(Runs(sec, t)) == log
  {
  }

  lemma {:induction false} EnteredOnce(paths: seq<seq<Name>>)
    ensures Entered(RunsOf(paths)) == paths
    decreases |paths|
  {
    if paths != [] {
      assert RunsOf(paths)[1..] == RunsOf(paths[1..]);
      EnteredOnce(paths[1..]);
    }
  }

  // --- what the test methods rely on ------------------------------------------------------------

  function Below(trail: seq<Name>, paths: seq<seq<Name>>): (r: seq<seq<Name>>)
    ensures |r| == |paths|
    ensures forall i | 0 <= i < |paths| :: r[i] == trail + paths[i]
  {
    seq(|paths|, i requires 0 <= i < |paths| => trail + paths[i])
  }

  lemma NothingBelow(trail: seq<Name>, log: seq<seq<Name>>)
    ensures log + Below(trail, []) == log
  {
  }

  lemma BelowJoin(trail: seq<Name>, log: seq<seq<Name>>, a: seq<seq<Name>>, b: seq<seq<Name>>)
    ensures log + Below(trail, a) + Below(trail, b) == log + Below(trail, a + b)
  {
    assert Below(trail, a) + Below(trail, b) == Below(trail, a + b);
  }

  /** The tracker of a section, if there is one, matches it. */
  predicate ChildMatches(t: Tracker, sec: Section) {
    var i := Find(t.children, sec.name);
    i < |t.children| ==> Matches(sec, t.children[i])
  }

  lemma ChildStarts(root: Tracker, path: Path, sec: Section)
    requires Inside(root, path) && ChildMatches(At(root, path), sec) && WellNamed(sec)
    ensures var p := Acquired(At(root, path), sec.name);
            var i := Find(At(root, path).children, sec.name);
            KidsMatch(sec.subs, p.children[i].children)
    ensures Distinct(sec.subs) && forall i | 0 <= i < |sec.subs| :: WellNamed(sec.subs[i])
  {
    FreshMatches(sec);
  }

  /** The log after a section: its own leaf, or the leaves inside it. */
  lemma LogOf(sec: Section, trail: seq<Name>, log: seq<seq<Name>>, inside: Outcome)
    requires sec.subs == [] ==> inside.leaves == []
    ensures (if sec.subs == [] then log + [trail + [sec.name]] else log) + Below(trail + [sec.name], inside.leaves)
         == log + Below(trail, Under(sec.name, if sec.subs == [] then [[]] else inside.leaves))
  {
    if sec.subs == [] {
      OwnLeaf(sec.name);
    } else {
      forall i | 0 <= i < |inside.leaves|
        ensures Below(trail + [sec.name], inside.leaves)[i] == Below(trail, Under(sec.name, inside.leaves))[i]
      {
        assert trail + [sec.name] + inside.leaves[i] == trail + ([sec.name] + inside.leaves[i]);
      }
      assert Below(trail + [sec.name], inside.leaves) == Below(trail, Under(sec.name, inside.leaves));
    }
  }

  lemma SkippedOutcome(sec: Section, t: Tracker, done: bool)
    ensures done || Acquired(t, sec.name).children[Find(t.children, sec.name)].IsComplete() ==>
              OneSub(sec, t, done) == Outcome(Acquired(t, sec.name), done, false, [])
  {
  }

  /** What a section that is entered leaves of its parent. */
  lemma SectionOutcome(sec: Section, t: Tracker)
    requires var p := Acquired(t, sec.name); !p.children[Find(t.children, sec.name)].IsComplete()
    ensures var p, i := Acquired(t, sec.name), Find(t.children, sec.name);
            var child := p.children[i].(state := Executing);
            var inside := Subs(sec.subs, child, false);
            var p1 := p.(state := ExecutingChildren, children := p.children[i := child]);
            var o := OneSub(sec, t, false);
            && o.tracker ==
               (if !inside.threw && sec.throws then
                  p1.(state := NeedsAnotherRun, children := p1.children[i := inside.tracker.(state := Failed)])
                else p1.(children := p1.children[i := inside.tracker.Closed()]))
            && o.done && o.threw == (inside.threw || sec.throws)
            && o.leaves == Under(sec.name, if sec.subs == [] then [[]] else inside.leaves)
  {
    hide Subs, Find, Under;
    var p, i := Acquired(t, sec.name), Find(t.children, sec.name);
    var child := p.children[i].(state := Executing);
    SubsState(sec.subs, child, false);
    var inside := Subs(sec.subs, child, false);
    assert p.children[i := child][i := inside.tracker.(state := Failed)] == p.children[i := inside.tracker.(state := Failed)];
    assert p.children[i := child][i := inside.tracker.Closed()] == p.children[i := inside.tracker.Closed()];
  }

  /** The tree after the section at path + [i] was left as x and then closed or failed. */
  function Ended(root: Tracker, path: Path, i: nat, x: Tracker, fails: bool): Tracker
    requires Inside(root, path) && i < |At(root, path).children|
  {
    var p := At(root, path);
    Put(root, path,
        if fails then p.(state := NeedsAnotherRun, children := p.children[i := x.(state := Failed)])
        else p.(children := p.children[i := x.Closed()]))
  }

  lemma EndedEffect(root: Tracker, path: Path, x: Tracker)
    requires Inside(root, path) && OpenAbove(root, path) && path != []
    ensures var up, i := path[..|path| - 1], path[|path| - 1];
            var r := Put(root, path, x);
            && Inside(root, up) && i < |At(root, up).children|
            && Inside(r, path) && OpenAbove(r, path) && At(r, path) == x
            && Inside(r, up) && i < |At(r, up).children| && At(r, up).children[i] == x
            && Put(r, path, x.Closed()) == Ended(root, up, i, x, false)
            && Put(r, up, At(r, up).(state := NeedsAnotherRun, children := At(r, up).children[i := x.(state := Failed)]))
               == Ended(root, up, i, x, true)
  {
    hide At, Put, Inside, OpenAbove, Tracker.Closed;
    var up, i := path[..|path| - 1], path[|path| - 1];
    Parent(path);
    InsideParent(root, path);
    var p := At(root, up);
    PutDeeper(root, up, i, x);
    var p1 := p.(children := p.children[i := x]);
    PutAt(root, up, p1);
    PutAt(root, path, x);
    OpenAbovePut(root, path, x);
    PutPut(root, path, x, x.Closed());
    PutDeeper(root, up, i, x.Closed());
    PutPut(root, up, p1, p1.(state := NeedsAnotherRun, children := p1.children[i := x.(state := Failed)]));
    assert p1.children[i := x.(state := Failed)] == p.children[i := x.(state := Failed)];
  }

  /** The tree while a section is entered, and what its end makes of it. */
  lemma SectionEffect(root: Tracker, path: Path, sec: Section)
    requires Inside(root, path) && OpenAbove(root, path)
    requires var t := At(root, path); !Acquired(t, sec.name).children[Find(t.children, sec.name)].IsComplete()
    ensures var t := At(root, path);
            var p, i := Acquired(t, sec.name), Find(t.children, sec.name);
            var child := p.children[i].(state := Executing);
            var inside := Subs(sec.subs, child, false);
            var r := Put(root, path, p.(state := ExecutingChildren, children := p.children[i := child]));
            var o := OneSub(sec, t, false);
            && Inside(r, path + [i]) && OpenAbove(r, path + [i]) && At(r, path + [i]) == child
            && (path + [i])[..|path|] == path
            && Inside(r, path) && i < |At(r, path).children|
            && o.done && o.threw == (inside.threw || sec.throws)
            && o.leaves == Under(sec.name, if sec.subs == [] then [[]] else inside.leaves)
            && Ended(r, path, i, inside.tracker, !inside.threw && sec.throws) == Put(root, path, o.tracker)
  {
    hide At, Put, Inside, OpenAbove, Subs, Under, Tracker.Closed, Find, OneSub, Acquired, Tracker.IsComplete;
    var t := At(root, path);
    var p, i := Acquired(t, sec.name), Find(t.children, sec.name);
    var child := p.children[i].(state := Executing);
    var inside := Subs(sec.subs, child, false);
    var p1 := p.(state := ExecutingChildren, children := p.children[i := child]);
    Nested(root, path, p1, i, child);
    PutAt(root, path, p1);
    PutPut(root, path, p1, p1.(state := NeedsAnotherRun, children := p1.children[i := inside.tracker.(state := Failed)]));
    PutPut(root, path, p1, p1.(children := p1.children[i := inside.tracker.Closed()]));
    SectionOutcome(sec, t);
  }

  lemma {:induction false} SubsState(subs: seq<Section>, t: Tracker, done: bool)
    requires t.state in {Executing, ExecutingChildren, NeedsAnotherRun}
    ensures Subs(subs, t, done).tracker.state in {Executing, ExecutingChildren, NeedsAnotherRun}
    ensures subs == [] ==> Subs(subs, t, done).leaves == []
    decreases |subs|
  {
    hide Enter;
    if subs != [] {
      var one := OneSub(subs[0], t, done);
      if !one.threw {
        SubsState(subs[1..], one.tracker, one.done);
      }
    }
  }

  /** Sections before k are complete, or the cycle is over and those from k on are untouched. */
  ghost predicate Progress(subs: seq<Section>, k: nat, t: Tracker, done: bool) {
    && k <= |subs| && k <= |t.children| && KidsMatch(subs, t.children) && Distinct(subs)
    && (forall i | 0 <= i < |subs| :: WellNamed(subs[i]))
    && if done then forall i | k <= i < |t.children| :: t.children[i] == Fresh(t.children[i].name)
       else forall i | 0 <= i < k :: t.children[i].IsComplete()
  }

  /** The whole outcome is what was collected, followed by the rest. */
  predicate Continues(whole: Outcome, sofar: seq<seq<Name>>, rest: Outcome) {
    whole == rest.(leaves := sofar + rest.leaves)
  }

  lemma StartBody(subs: seq<Section>, t: Tracker)
    requires KidsMatch(subs, t.children) && Distinct(subs) && forall i | 0 <= i < |subs| :: WellNamed(subs[i])
    ensures Progress(subs, 0, t, false)
    ensures Continues(Subs(subs, t, false), [], Subs(subs, t, false))
  {
    hide Subs, KidsMatch, WellNamed, Distinct;
    assert [] + Subs(subs, t, false).leaves == Subs(subs, t, false).leaves;
  }

  lemma ReadyFor(subs: seq<Section>, k: nat, t: Tracker, done: bool)
    requires Progress(subs, k, t, done) && k < |subs|
    ensures WellNamed(subs[k]) && ChildMatches(t, subs[k])
    ensures done ==> ClosedChild(t, subs[k].name)
  {
    hide WellNamed, Distinct, KidsMatch, Matches;
    FindIs(subs, t.children, k);
    if k < |t.children| {
      KidAt(subs, t.children, k);
    }
  }

  lemma BodyStep(subs: seq<Section>, k: nat, t: Tracker, done: bool, whole: Outcome, sofar: seq<seq<Name>>)
    requires Progress(subs, k, t, done) && k < |subs|
    requires Continues(whole, sofar, Subs(subs[k..], t, done))
    ensures var one := OneSub(subs[k], t, done);
            if one.threw then whole == one.(leaves := sofar + one.leaves)
            else
              && Progress(subs, k + 1, one.tracker, one.done)
              && Continues(whole, sofar + one.leaves, Subs(subs[k + 1..], one.tracker, one.done))
  {
    hide OneSub, Progress;
    var one := OneSub(subs[k], t, done);
    assert subs[k..][1..] == subs[k + 1..] && subs[k..][0] == subs[k];
    if !one.threw {
      var rest := Subs(subs[k + 1..], one.tracker, one.done);
      assert sofar + (one.leaves + rest.leaves) == sofar + one.leaves + rest.leaves;
      ProgressStep(subs, k, t, done);
    }
  }

  lemma ProgressStep(subs: seq<Section>, k: nat, t: Tracker, done: bool)
    requires Progress(subs, k, t, done) && k < |subs| && !OneSub(subs[k], t, done).threw
    ensures var one := OneSub(subs[k], t, done); Progress(subs, k + 1, one.tracker, one.done)
  {
    hide WellNamed, Distinct, KidsMatch, Enter, Find, Kids, Runs;
    FindIs(subs, t.children, k);
    AcquireNext(subs, t, k);
    var t1 := Acquired(t, subs[k].name);
    if !done && !t1.children[k].IsComplete() {
      KidAt(subs, t1.children, k);
      EnterRuns(subs[k], t1.children[k]);
      var o := Enter(subs[k], t1.children[k]);
      forall i | 0 <= i < k ensures t1.children[i].IsComplete() {
        assert t1.children[i] == t1.children[..k][i] == t.children[i];
      }
      Replace(subs, t1.children, k, o);
      UntouchedAfter(subs, t1.children, k);
    }
  }

  lemma UntouchedAfter(subs: seq<Section>, children: seq<Tracker>, k: nat)
    requires KidsMatch(subs, children) && k < |children| && !children[k].IsComplete()
    ensures forall j | k < j < |children| :: children[j] == Fresh(children[j].name)
  {
    hide Matches;
  }

  lemma EndBody(subs: seq<Section>, t: Tracker, done: bool, whole: Outcome, sofar: seq<seq<Name>>)
    requires Continues(whole, sofar, Subs(subs[|subs|..], t, done))
    ensures whole == Outcome(t, done, false, sofar)
  {
    assert sofar + [] == sofar;
  }

  /** The tracker of a section, if it has one, is not open. */
  predicate ClosedChild(t: Tracker, name: Name) {
    var i := Find(t.children, name);
    i < |t.children| ==> !t.children[i].IsOpen()
  }
}
