/**
 Members of JSON objects: the order of their names, what inserting one does, and what
 the reader of lib/json/jsoncpp.cpp makes of members given in any order.
 */
module JsonMembers {
  import opened JsonSpec

  // --- strcmp is a total order ---------------------------------------------------------

  lemma {:induction false} LessIrreflexive(a: string)
    ensures !Less(a, a)
    decreases |a|
  {
    if a != "" {
      LessIrreflexive(a[1..]);
    }
  }

  lemma {:induction false} LessTransitive(a: string, b: string, c: string)
    requires Less(a, b) && Less(b, c)
    ensures Less(a, c)
    decreases |a|
  {
    if a != "" && a[0] == b[0] == c[0] {
      LessTransitive(a[1..], b[1..], c[1..]);
    }
  }

  lemma {:induction false} LessTotal(a: string, b: string)
    ensures a == b || Less(a, b) || Less(b, a)
    decreases |a|
  {
    if a != "" && b != "" && a[0] == b[0] {
      LessTotal(a[1..], b[1..]);
      assert a == [a[0]] + a[1..] && b == [b[0]] + b[1..];
    }
  }

  // --- inserting a member ------------------------------------------------------------------

  /** The first member comes before all others. */
  lemma SortedTail(ms: seq<Member>)
    requires Sorted(ms) && ms != []
    ensures Sorted(ms[1..]) && forall m | m in ms[1..] :: Less(ms[0].name, m.name) && m.name != ms[0].name
  {
    hide Less;
    forall m | m in ms[1..] ensures Less(ms[0].name, m.name) && m.name != ms[0].name {
      var i :| 0 <= i < |ms[1..]| && ms[1..][i] == m;
      assert Less(ms[0].name, ms[i + 1].name);
      LessIrreflexive(m.name);
    }
  }

  lemma SortedFront(m: Member, ms: seq<Member>)
    requires Sorted(ms) && forall x | x in ms :: Less(m.name, x.name)
    ensures Sorted([m] + ms)
  {
    hide Less;
  }

  /** Everything is as before but for the one name, which has the new value. */
  ghost predicate Updated(ms: seq<Member>, name: string, value: Value, r: seq<Member>) {
    && Sorted(r) && Member(name, value) in r
    && (forall m | m in r :: m == Member(name, value) || (m in ms && m.name != name))
    && (forall m | m in ms && m.name != name :: m in r)
  }

  lemma {:induction false} InsertUpdates(ms: seq<Member>, name: string, value: Value)
    requires Sorted(ms)
    ensures Updated(ms, name, value, Insert(ms, name, value))
    decreases |ms|
  {
    hide Less;
    if ms != [] {
      var first, rest, added := ms[0], ms[1..], Member(name, value);
      assert ms == [first] + rest;
      SortedTail(ms);
      LessTotal(first.name, name);
      if Less(first.name, name) {
        InsertUpdates(rest, name, value);
        LessIrreflexive(name);
        SortedFront(first, Insert(rest, name, value));
      } else if first.name == name {
        SortedFront(added, rest);
      } else {
        forall m | m in ms ensures Less(name, m.name) && m.name != name {
          if m != first {
            LessTransitive(name, first.name, m.name);
          }
          LessIrreflexive(name);
        }
        SortedFront(added, ms);
      }
    }
  }

  // --- members in any order ------------------------------------------------------------------

  /** Values as a text can give them: the members of an object in any order, names repeated. */
  ghost predicate Writable(v: Value) {
    match v
    case Null => true
    case Int(i) => MIN_LARGEST_INT <= i < -MIN_LARGEST_INT
    case UInt(u) => u <= MAX_LARGEST_UINT
    case Real(_) => false
    case Bool(_) => true
    case Str(s) => NulFree(s)
    case Arr(items) => forall x | x in items :: Writable(x)
    case Obj(ms) => forall m | m in ms :: NulFree(m.name) && Writable(m.value)
  }

  /** The last member of its name. */
  predicate IsLast(ms: seq<Member>, i: int) {
    0 <= i < |ms| && forall j | i < j < |ms| :: ms[j].name != ms[i].name
  }

  /** What a text stands for: integers are signed up to 31 bits, and of several members of one name the last one counts. */
  ghost predicate Means(v: Value, r: Value)
    decreases v, 0
  {
    match v
    case Int(i) => r == if i <= 0x7FFF_FFFF then Int(i) else UInt(i)
    case UInt(u) => r == if u <= 0x7FFF_FFFF then Int(u) else UInt(u)
    case Arr(items) =>
      r.Arr? && |r.items| == |items| && forall i | 0 <= i < |items| :: Means(items[i], r.items[i])
    case Obj(ms) =>
      && r.Obj? && Sorted(r.members)
      && (forall m | m in r.members :: StoodFor(ms, m))
      && (forall i | 0 <= i < |ms| :: Named(r.members, ms[i].name))
    case _ => r == v
  }

  /** Among the members, the last one of this name stands for this value. */
  ghost predicate StoodFor(ms: seq<Member>, m: Member)
    decreases ms, 1
  {
    exists i :: IsLast(ms, i) && ms[i].name == m.name && Means(ms[i].value, m.value)
  }

  predicate Named(ms: seq<Member>, name: string) {
    exists m :: m in ms && m.name == name
  }

  /** What the reader makes of it, member by member. */
  function ReadBack(v: Value): (r: Value)
    decreases v, 0
  {
    match v
    case Int(i) => Tagged(i)
    case UInt(u) => Tagged(u)
    case Arr(items) => Arr(ReadItems(items))
    case Obj(ms) => Obj(ReadMembers(ms))
    case _ => v
  }

  function ReadItems(items: seq<Value>): (r: seq<Value>)
    ensures |r| == |items| && forall i | 0 <= i < |r| :: r[i] == ReadBack(items[i])
    decreases items, 1
  {
    if items == [] then [] else [ReadBack(items[0])] + ReadItems(items[1..])
  }

  function ReadMembers(ms: seq<Member>): (r: seq<Member>)
    decreases ms, 1
  {
    if ms == [] then []
    else Insert(ReadMembers(ms[..|ms| - 1]), ms[|ms| - 1].name, ReadBack(ms[|ms| - 1].value))
  }

  /** The names that are there, each with what its last member stands for. */
  ghost predicate Gathers(ms: seq<Member>, r: seq<Member>) {
    && Sorted(r)
    && (forall m | m in r :: FoundLast(ms, m))
    && (forall i | 0 <= i < |ms| :: Named(r, ms[i].name))
  }

  lemma {:induction false} MembersGather(ms: seq<Member>)
    ensures Gathers(ms, ReadMembers(ms))
    decreases |ms|
  {
    hide ReadBack;
    if ms != [] {
      var front, last := ms[..|ms| - 1], ms[|ms| - 1];
      MembersGather(front);
      InsertUpdates(ReadMembers(front), last.name, ReadBack(last.value));
      OneMore(ms, ReadMembers(front), ReadMembers(ms));
    }
  }

  /** The last member of a name stands for a value already read. */
  ghost predicate FoundLast(ms: seq<Member>, m: Member) {
    exists i :: IsLast(ms, i) && ms[i].name == m.name && ReadBack(ms[i].value) == m.value
  }

  lemma OneMore(ms: seq<Member>, before: seq<Member>, after: seq<Member>)
    requires ms != [] && Gathers(ms[..|ms| - 1], before)
    requires Updated(before, ms[|ms| - 1].name, ReadBack(ms[|ms| - 1].value), after)
    ensures Gathers(ms, after)
  {
    hide ReadBack, Sorted, FoundLast, Named;
    var last := Member(ms[|ms| - 1].name, ReadBack(ms[|ms| - 1].value));
    forall m | m in after ensures FoundLast(ms, m) {
      if m == last {
        LastIsLast(ms);
      } else {
        StillLast(ms, m);
      }
    }
    forall i | 0 <= i < |ms| ensures Named(after, ms[i].name) {
      if ms[i].name == last.name {
        NamedBy(after, last);
      } else {
        assert ms[..|ms| - 1][i] == ms[i];
        var m := ByName(before, ms[i].name);
        NamedBy(after, m);
      }
    }
  }

  lemma NamedBy(ms: seq<Member>, m: Member)
    requires m in ms
    ensures Named(ms, m.name)
  {
  }

  lemma ByName(ms: seq<Member>, name: string) returns (m: Member)
    requires Named(ms, name)
    ensures m in ms && m.name == name
  {
    m :| m in ms && m.name == name;
  }

  lemma LastIsLast(ms: seq<Member>)
    requires ms != []
    ensures FoundLast(ms, Member(ms[|ms| - 1].name, ReadBack(ms[|ms| - 1].value)))
  {
    hide ReadBack;
    assert IsLast(ms, |ms| - 1);
  }

  lemma StillLast(ms: seq<Member>, m: Member)
    requires ms != [] && m.name != ms[|ms| - 1].name && FoundLast(ms[..|ms| - 1], m)
    ensures FoundLast(ms, m)
  {
    hide ReadBack;
    var front := ms[..|ms| - 1];
    var i :| IsLast(front, i) && front[i].name == m.name && ReadBack(front[i].value) == m.value;
    assert IsLast(ms, i);
  }

  /** What is read is what the text stands for. */
  lemma {:induction false} ReadBackMeans(v: Value)
    ensures Means(v, ReadBack(v))
    decreases v, 0
  {
    match v
    case Arr(items) =>
      forall i | 0 <= i < |items| ensures Means(items[i], ReadItems(items)[i]) {
        ReadBackMeans(items[i]);
      }
    case Obj(ms) =>
      MembersGather(ms);
      hide Means, ReadBack;
      forall m | m in ReadMembers(ms) ensures StoodFor(ms, m) {
        ReadStoodFor(ms, m);
      }
      MeansByMembers(ms, ReadMembers(ms));
    case _ =>
  }

  lemma MeansByMembers(ms: seq<Member>, r: seq<Member>)
    ensures Means(Obj(ms), Obj(r)) <==>
            && Sorted(r)
            && (forall m | m in r :: StoodFor(ms, m))
            && (forall i | 0 <= i < |ms| :: Named(r, ms[i].name))
  {
    hide StoodFor, Named, Sorted;
  }

  lemma {:induction false} ReadStoodFor(ms: seq<Member>, m: Member)
    requires FoundLast(ms, m)
    ensures StoodFor(ms, m)
    decreases ms, 1
  {
    hide ReadBack, Means;
    var i :| IsLast(ms, i) && ms[i].name == m.name && ReadBack(ms[i].value) == m.value;
    ReadBackMeans(ms[i].value);
  }

  // --- what a text stands for is unique ------------------------------------------------------------

  /** Sorted members that include each other are the same. */
  lemma {:induction false} SortedUnique(a: seq<Member>, b: seq<Member>)
    requires Sorted(a) && Sorted(b)
    requires (forall m | m in a :: m in b) && (forall m | m in b :: m in a)
    ensures a == b
    decreases |a|
  {
    hide Less;
    assert b != [] ==> b[0] in a;
    if a != [] {
      assert a[0] in b;
      SortedTail(a);
      SortedTail(b);
      assert a == [a[0]] + a[1..] && b == [b[0]] + b[1..];
      if a[0] != b[0] {
        LessTransitive(a[0].name, b[0].name, a[0].name);
        LessIrreflexive(a[0].name);
      }
      TailIn(a, b);
      TailIn(b, a);
      SortedUnique(a[1..], b[1..]);
    }
  }

  lemma TailIn(a: seq<Member>, b: seq<Member>)
    requires a != [] && b != [] && a[0] == b[0] && Sorted(a) && forall m | m in a :: m in b
    ensures forall m | m in a[1..] :: m in b[1..]
  {
    hide Less, Sorted;
    SortedTail(a);
    forall m | m in a[1..] ensures m in b[1..] {
      assert m in a;
      assert b == [b[0]] + b[1..];
    }
  }

  /** A text stands for one value only. */
  lemma {:induction false} MeansUnique(v: Value, r1: Value, r2: Value)
    requires Means(v, r1) && Means(v, r2)
    ensures r1 == r2
    decreases v, 0
  {
    match v
    case Arr(items) =>
      forall i | 0 <= i < |items| ensures r1.items[i] == r2.items[i] {
        MeansUnique(items[i], r1.items[i], r2.items[i]);
      }
    case Obj(ms) =>
      MembersUnique(ms, r1.members, r2.members);
    case _ =>
  }

  lemma {:induction false} MembersUnique(ms: seq<Member>, a: seq<Member>, b: seq<Member>)
    requires Means(Obj(ms), Obj(a)) && Means(Obj(ms), Obj(b))
    ensures a == b
    decreases ms, 2
  {
    hide Means, StoodFor, Named, Sorted;
    MeansByMembers(ms, a);
    MeansByMembers(ms, b);
    forall m | m in a ensures m in b {
      MemberUnique(ms, b, m);
    }
    forall m | m in b ensures m in a {
      MemberUnique(ms, a, m);
    }
    SortedUnique(a, b);
  }

  lemma {:induction false} MemberUnique(ms: seq<Member>, b: seq<Member>, m: Member)
    requires StoodFor(ms, m)
    requires (forall k | k in b :: StoodFor(ms, k)) && forall i | 0 <= i < |ms| :: Named(b, ms[i].name)
    ensures m in b
    decreases ms, 1
  {
    hide Means;
    var i :| IsLast(ms, i) && ms[i].name == m.name && Means(ms[i].value, m.value);
    assert Named(b, ms[i].name);
    var k :| k in b && k.name == ms[i].name;
    assert StoodFor(ms, k);
    var j :| IsLast(ms, j) && ms[j].name == k.name && Means(ms[j].value, k.value);
    assert i == j;
    MeansUnique(ms[i].value, m.value, k.value);
  }

  // --- values of the writers --------------------------------------------------------------------------

  // a name that follows all others goes to the end
  lemma {:induction false} InsertLast(ms: seq<Member>, name: string, value: Value)
    requires forall i | 0 <= i < |ms| :: Less(ms[i].name, name)
    ensures Insert(ms, name, value) == ms + [Member(name, value)]
    decreases |ms|
  {
    if ms != [] {
      InsertLast(ms[1..], name, value);
      assert ms == [ms[0]] + ms[1..];
    }
  }

  /** Printable values are read back as they are, but for the tags of integers. */
  lemma {:induction false} ReadBackPrintable(v: Value)
    requires Printable(v)
    ensures Writable(v) && ReadBack(v) == Retagged(v)
    decreases v, 0
  {
    match v
    case Arr(items) =>
      forall i | 0 <= i < |items| ensures Writable(items[i]) && ReadItems(items)[i] == RetaggedItems(items)[i] {
        ReadBackPrintable(items[i]);
      }
    case Obj(ms) =>
      forall m | m in ms ensures Writable(m.value) {
        ReadBackPrintable(m.value);
      }
      ReadMembersPrintable(ms);
    case _ =>
  }

  lemma {:induction false} ReadMembersPrintable(ms: seq<Member>)
    requires Printable(Obj(ms))
    ensures ReadMembers(ms) == RetaggedMembers(ms)
    decreases ms, 1
  {
    hide Retagged, ReadBack, Less, RetaggedMembers, Insert;
    if ms == [] {
      assert |RetaggedMembers(ms)| == 0;
    } else {
      var front, last := ms[..|ms| - 1], ms[|ms| - 1];
      PrintableBefore(ms);
      hide Printable;
      ReadMembersPrintable(front);
      ReadBackPrintable(last.value);
      InsertLast(RetaggedMembers(front), last.name, Retagged(last.value));
      RetaggedBehind(ms);
    }
  }

  lemma PrintableBefore(ms: seq<Member>)
    requires Printable(Obj(ms)) && ms != []
    ensures var front, last := ms[..|ms| - 1], ms[|ms| - 1];
            && Printable(Obj(front)) && Printable(last.value)
            && forall i | 0 <= i < |RetaggedMembers(front)| :: Less(RetaggedMembers(front)[i].name, last.name)
  {
    hide Less, NulFree, RetaggedMembers, Retagged;
    assert ms[|ms| - 1] in ms && forall m | m in ms[..|ms| - 1] :: m in ms;
  }

  lemma {:induction false} RetaggedBehind(ms: seq<Member>)
    requires ms != []
    ensures RetaggedMembers(ms)
         == RetaggedMembers(ms[..|ms| - 1]) + [Member(ms[|ms| - 1].name, Retagged(ms[|ms| - 1].value))]
    decreases |ms|
  {
    hide Retagged;
    var front := ms[..|ms| - 1];
    if |ms| > 1 {
      assert front[1..] == ms[1..][..|ms| - 2];
      RetaggedBehind(ms[1..]);
    }
  }

  // --- every text ------------------------------------------------------------------------------------

  /** Every object holds its members in order, without a repeated name. */
  ghost predicate Ordered(v: Value) {
    match v
    case Arr(items) => forall x | x in items :: Ordered(x)
    case Obj(ms) => Sorted(ms) && forall m | m in ms :: Ordered(m.value)
    case _ => true
  }

  /** Whatever is read is ordered. */
  lemma {:induction false} ParsedOrdered(s: string)
    requires ParseValue(s).Some?
    ensures Ordered(ParseValue(s).value.value)
    decreases |s|, 4
  {
    hide NextRealToken, ParseItems, ParseMembers, ParseValue, DecodeNumber, DecodeString;
    ValueOfToken(s);
    var t := NextRealToken(s);
    if t.kind == ObjectBegin {
      MembersOrdered(t.rest, [], "");
    } else if t.kind == ArrayBegin {
      BodyShorter(t.rest);
      if ParseArray(t.rest) == ParseItems(t.rest, []) {
        ItemsOrdered(t.rest, []);
      }
    } else {
      ScalarOrdered(t);
    }
  }

  lemma BodyShorter(s: string)
    ensures ParseArray(s) == ParseItems(s, []) || (ParseArray(s).Some? && ParseArray(s).value.value == Arr([]))
  {
    hide ParseItems;
  }

  lemma ScalarOrdered(t: Token)
    requires ParseScalar(t).Some?
    ensures Ordered(ParseScalar(t).value.value)
  {
  }

  lemma {:induction false} ItemsOrdered(s: string, before: seq<Value>)
    requires ParseItems(s, before).Some? && forall x | x in before :: Ordered(x)
    ensures Ordered(ParseItems(s, before).value.value)
    decreases |s|, 5
  {
    hide NextRealToken, ParseValue, Ordered;
    var v := ParseValue(s).value;
    ParsedOrdered(s);
    var t := NextRealToken(v.rest);
    ArrayOrdered(before + [v.value]);
    if t.kind == Separator {
      ItemsOrdered(t.rest, before + [v.value]);
    }
  }

  lemma ArrayOrdered(items: seq<Value>)
    requires forall x | x in items :: Ordered(x)
    ensures Ordered(Arr(items))
  {
  }

  /** One turn of the loop of readObject. */
  lemma MembersStep(s: string, before: seq<Member>, last: string)
    ensures var t := NextRealToken(s);
            var r := ParseMembers(s, before, last);
            && (t.kind == ObjectEnd && last == "" ==> r == Some(Parsed(Obj(before), t.rest)))
            && (t.kind != StringTok && !(t.kind == ObjectEnd && last == "") ==> r == None)
            && (t.kind == StringTok ==>
                  var name, colon := DecodeString(t.text), NextToken(t.rest);
                  && (name.None? || colon.kind != Colon ==> r == None)
                  && (name.Some? && colon.kind == Colon ==> r == AfterColon(colon.rest, before, name.value)))
  {
    hide NextRealToken, NextToken, DecodeString, ParseValue, Insert, MemberEnd;
  }

  /** The value of a member, and what may follow it. */
  ghost function AfterColon(s: string, before: seq<Member>, name: string): Option<Parsed> {
    var v := ParseValue(s);
    if v.None? then None
    else
      var ms := Insert(before, name, v.value.value);
      match MemberEnd(v.value.rest)
      case Missing => None
      case Closed(rest) => Some(Parsed(Obj(ms), rest))
      case More(rest) => ParseMembers(rest, ms, name)
  }

  /** Inserting keeps the order and every name. */
  lemma InsertOrdered(ms: seq<Member>, name: string, value: Value)
    requires Ordered(Obj(ms)) && Ordered(value)
    ensures Ordered(Obj(Insert(ms, name, value)))
    ensures forall m | m in ms :: Named(Insert(ms, name, value), m.name)
    ensures Named(Insert(ms, name, value), name)
  {
    hide Sorted, Insert;
    InsertUpdates(ms, name, value);
    var r := Insert(ms, name, value);
    assert Member(name, value) in r;
    forall m | m in ms ensures Named(r, m.name) {
      assert m.name != name ==> m in r;
    }
  }

  lemma {:induction false} MembersOrdered(s: string, before: seq<Member>, last: string)
    requires ParseMembers(s, before, last).Some? && Ordered(Obj(before))
    ensures var r := ParseMembers(s, before, last).value.value;
            Ordered(r) && r.Obj? && forall m | m in before :: Named(r.members, m.name)
    decreases |s|, 5
  {
    hide NextRealToken, NextToken, DecodeString, ParseMembers, ParseValue, Insert, MemberEnd, Ordered;
    MembersStep(s, before, last);
    var t := NextRealToken(s);
    if t.kind == StringTok {
      var name, colon := DecodeString(t.text).value, NextToken(t.rest);
      var v := ParseValue(colon.rest).value;
      ParsedOrdered(colon.rest);
      InsertOrdered(before, name, v.value);
      var e := MemberEnd(v.rest);
      if e.More? {
        MembersOrdered(e.rest, Insert(before, name, v.value), name);
      }
    }
  }
}
