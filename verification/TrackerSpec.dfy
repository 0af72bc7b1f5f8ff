/**
 Section trackers of the test framework (lib/catch.hpp) as trees of values: what
 one run of a test case does to them, and which sections the runs visit.
 */
module TrackerSpec {

  /** A name and a source location; they are only compared. */
  type Name = nat

  datatype RunState = NotStarted | Executing | ExecutingChildren | NeedsAnotherRun | CompletedSuccessfully | Failed

  datatype Tracker = Tracker(name: Name, state: RunState, children: seq<Tracker>)
  {
    predicate IsComplete() {
      state == CompletedSuccessfully || state == Failed
    }

    predicate IsOpen() {
      state != NotStarted && !IsComplete()
    }

    /** close(), without the move to the parent. */
    function Closed(): Tracker {
      if state == Executing then this.(state := CompletedSuccessfully)
      else if state == ExecutingChildren && (children == [] || children[|children| - 1].IsComplete()) then
        this.(state := CompletedSuccessfully)
      else this
    }
  }

  /**
   A section of the test: sections inside it, then possibly an exception. What
   would follow an exception is never reached, so it is not part of the tree.
   */
  datatype Section = Section(name: Name, subs: seq<Section>, throws: bool)

  function Fresh(name: Name): Tracker {
    Tracker(name, NotStarted, [])
  }

  // --- one visit ------------------------------------------------------------------------

  /** The first child with a name, or the number of children. */
  function Find(children: seq<Tracker>, name: Name): (i: nat)
    ensures i <= |children|
    ensures i < |children| ==> children[i].name == name
    ensures forall j | 0 <= j < i :: children[j].name != name
  {
    if children == [] then 0
    else if children[0].name == name then 0
    else 1 + Find(children[1..], name)
  }

  function Acquired(t: Tracker, name: Name): (t': Tracker)
    ensures Find(t.children, name) < |t'.children|
  {
    if Find(t.children, name) < |t.children| then t else t.(children := t.children + [Fresh(name)])
  }

  /** What a visit leaves: the tracker, whether the cycle is over, an exception, and the leaves entered. */
  datatype Outcome = Outcome(tracker: Tracker, done: bool, threw: bool, leaves: seq<seq<Name>>)

  function Under(name: Name, paths: seq<seq<Name>>): (r: seq<seq<Name>>)
    ensures |r| == |paths|
    ensures forall i | 0 <= i < |paths| :: r[i] == [name] + paths[i]
  {
    seq(|paths|, i requires 0 <= i < |paths| => [name] + paths[i])
  }

  /** A section that is opened, executed and closed or failed. */
  function Enter(sec: Section, t: Tracker): Outcome
    decreases sec, 0
  {
    var inside := Subs(sec.subs, t.(state := Executing), false);
    var leaves := Under(sec.name, if sec.subs == [] then [[]] else inside.leaves);
    if !inside.threw && sec.throws then Outcome(inside.tracker.(state := Failed), true, true, leaves)
    else Outcome(inside.tracker.Closed(), true, inside.threw, leaves)
  }

  /** The sections inside a section, in order, until one throws. */
  function Subs(subs: seq<Section>, t: Tracker, done: bool): Outcome
    decreases subs, 1
  {
    if subs == [] then Outcome(t, done, false, [])
    else
      var one := OneSub(subs[0], t, done);
      if one.threw then one
      else
        var rest := Subs(subs[1..], one.tracker, one.done);
        rest.(leaves := one.leaves + rest.leaves)
  }

  /** A section statement: it is entered if the cycle is not over and it is not complete. */
  function OneSub(sub: Section, t: Tracker, done: bool): Outcome
    decreases sub, 1
  {
    var t1 := Acquired(t, sub.name);
    var i := Find(t.children, sub.name);
    var child := t1.children[i];
    if done || child.IsComplete() then Outcome(t1, done, false, [])
    else
      var o := Enter(sub, child);
      Outcome(t1.(children := t1.children[i := o.tracker],
                  state := if o.tracker.state == Failed then NeedsAnotherRun else ExecutingChildren),
              true, o.threw, o.leaves)
  }

  // --- what a tracker knows about its section -----------------------------------------------

  predicate Distinct(subs: seq<Section>) {
    forall i, j | 0 <= i < j < |subs| :: subs[i].name != subs[j].name
  }

  /** Siblings have different names, at every level. */
  predicate WellNamed(sec: Section)
    decreases sec
  {
    Distinct(sec.subs) && forall i | 0 <= i < |sec.subs| :: WellNamed(sec.subs[i])
  }

  /** The children are the trackers of the first sections, and only one of them is under way. */
  predicate KidsMatch(subs: seq<Section>, children: seq<Tracker>)
    decreases subs, 1
  {
    && |children| <= |subs|
    && (forall i | 0 <= i < |children| :: Matches(subs[i], children[i]))
    && InOrder(children)
  }

  predicate InOrder(children: seq<Tracker>) {
    forall i, j | 0 <= i < j < |children| :: !children[i].IsComplete() ==> children[j] == Fresh(children[j].name)
  }

  predicate Matches(sec: Section, t: Tracker)
    decreases sec, 0
  {
    && t.name == sec.name
    && (t.state == NotStarted ==> t.children == [])
    && t.state != Executing
    && KidsMatch(sec.subs, t.children)
  }

  // --- the runs that are still to come ---------------------------------------------------------

  /** One run: the leaf sections it enters and whether it ends in an exception. */
  datatype Run = Run(leaves: seq<seq<Name>>, threw: bool)

  function Named(name: Name, runs: seq<Run>): (r: seq<Run>)
    ensures |r| == |runs|
    ensures forall i | 0 <= i < |runs| :: r[i] == Run(Under(name, runs[i].leaves), runs[i].threw)
  {
    seq(|runs|, i requires 0 <= i < |runs| => Run(Under(name, runs[i].leaves), runs[i].threw))
  }

  /** A section that does not throw: when its last part threw, it takes one more run to see that it is done. */
  function Plain(inner: seq<Run>): (r: seq<Run>)
    ensures r != []
  {
    if inner == [] || inner[|inner| - 1].threw then inner + [Run([], false)] else inner
  }

  /** A section that throws fails in the first run in which nothing inside it throws. */
  function Cut(inner: seq<Run>): (r: seq<Run>)
    ensures r != []
  {
    if inner == [] then [Run([], true)]
    else if inner[0].threw then [inner[0]] + Cut(inner[1..])
    else [Run(inner[0].leaves, true)]
  }

  function Runs(sec: Section, t: Tracker): (r: seq<Run>)
    decreases sec, 0
  {
    if t.IsComplete() then []
    else if sec.subs == [] then [Run([[sec.name]], sec.throws)]
    else Named(sec.name, if sec.throws then Cut(Kids(sec.subs, t.children)) else Plain(Kids(sec.subs, t.children)))
  }

  function Kids(subs: seq<Section>, children: seq<Tracker>): (r: seq<Run>)
    decreases subs, 1
  {
    if subs == [] then []
    else if children == [] then Runs(subs[0], Fresh(subs[0].name)) + Kids(subs[1..], [])
    else Runs(subs[0], children[0]) + Kids(subs[1..], children[1..])
  }
}
