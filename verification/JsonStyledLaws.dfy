/**
 What the layout of the indenting writer of lib/json/jsoncpp.cpp is good for: read again it
 gives the value back, it differs from the compact text in white space only, and every line
 is indented by what is open.
 */
module JsonStyledLaws {
  import opened Decimals
  import opened JsonSpec
  import opened JsonMembers
  import opened JsonText
  import opened JsonLayout
  import opened JsonReading

  // --- read again -------------------------------------------------------------------------

  lemma StyledIsText(v: Value)
    requires Writable(v)
    ensures IsText(Styled(v), v)
  {
    hide Pretty, Spell, Content, Proper, Gap;
    PrettyProper(v, 0);
    GapsHere(0);
    assert Styled(v) == "" + (Spell(Pretty(v, 0)) + "\n");
  }

  /** StyledWriter::write followed by Reader::parse: every printable value comes back. */
  lemma StyledRoundTrip(v: Value)
    requires Printable(v)
    ensures ParseValue(Styled(v)) == Some(Parsed(Retagged(v), "\n"))
  {
    hide ParseValue, ReadBack, Writable, Printable, Retagged, Pretty, Spell, Content, Proper;
    ReadBackPrintable(v);
    PrettyProper(v, 0);
    ReadDoc(Pretty(v, 0), "\n");
  }

  // --- without white space ------------------------------------------------------------------

  datatype Mode = Out | In | Esc

  function NextMode(m: Mode, c: char): Mode {
    match m
    case Out => if c == '\"' then In else Out
    case In => if c == '\"' then Out else if c == '\\' then Esc else In
    case Esc => In
  }

  function After(s: string, m: Mode): Mode {
    if s == "" then m else After(s[1..], NextMode(m, s[0]))
  }

  function Kept(m: Mode, c: char): string {
    if m == Out && IsSpace(c) then "" else [c]
  }

  function Strip(s: string, m: Mode): string {
    if s == "" then "" else Kept(m, s[0]) + Strip(s[1..], NextMode(m, s[0]))
  }

  lemma {:induction false} StripAppend(a: string, b: string, m: Mode)
    ensures After(a + b, m) == After(b, After(a, m))
    ensures Strip(a + b, m) == Strip(a, m) + Strip(b, After(a, m))
    decreases |a|
  {
    hide Kept, NextMode;
    if a == "" {
      assert a + b == b;
    } else {
      assert (a + b)[1..] == a[1..] + b;
      StripAppend(a[1..], b, NextMode(m, a[0]));
    }
  }

  /** t is outside strings at both ends, and `core` without its layout. */
  ghost predicate LaysOut(t: string, core: string) {
    Strip(t, Out) == core && After(t, Out) == Out
  }

  lemma {:induction false} SpacesLayOut(w: string)
    requires forall i | 0 <= i < |w| :: IsSpace(w[i])
    ensures LaysOut(w, "")
    decreases |w|
  {
    if w != "" {
      SpacesLayOut(w[1..]);
    }
  }

  predicate Solid(t: string) {
    forall i | 0 <= i < |t| :: !IsSpace(t[i]) && t[i] != '\"'
  }

  lemma {:induction false} SolidLayOut(t: string)
    requires Solid(t)
    ensures LaysOut(t, t)
    decreases |t|
  {
    if t != "" {
      SolidLayOut(t[1..]);
    }
  }

  lemma {:induction false} EscapedInside(s: string)
    ensures Strip(Escaped(s), In) == Escaped(s) && After(Escaped(s), In) == In
    decreases |s|
  {
    if s != "" {
      EscapeInside(s[0]);
      EscapedInside(s[1..]);
      StripAppend(Escape(s[0]), Escaped(s[1..]), In);
    }
  }

  lemma {:induction false} PlainInside(t: string)
    requires forall i | 0 <= i < |t| :: t[i] != '\"' && t[i] != '\\'
    ensures Strip(t, In) == t && After(t, In) == In
    decreases |t|
  {
    if t != "" {
      PlainInside(t[1..]);
    }
  }

  lemma EscapeInside(c: char)
    ensures Strip(Escape(c), In) == Escape(c) && After(Escape(c), In) == In
  {
    var t := Escape(c);
    if |t| == 1 {
      PlainInside(t);
    } else {
      assert t[1..][1..] == t[2..];
      PlainInside(t[2..]);
      assert Strip(t[1..], Esc) == [t[1]] + t[2..] && After(t[1..], Esc) == In;
    }
  }

  lemma QuotedLayOut(s: string)
    ensures LaysOut(Quoted(s), Quoted(s))
  {
    hide Escaped;
    var q := Quoted(s);
    assert q[1..] == Escaped(s) + "\"";
    EscapedInside(s);
    StripAppend(Escaped(s), "\"", In);
    assert "\""[1..] == "";
  }

  lemma {:induction false} DecimalSolid(n: nat)
    ensures Solid(Decimal(n))
  {
    if n >= 10 {
      DecimalSolid(n / 10);
    }
  }

  lemma LeafLayOut(v: Value)
    requires Leaf(v) && Writable(v)
    ensures LaysOut(Fast(v), Fast(v))
  {
    hide LaysOut;
    match v
    case Str(s) => QuotedLayOut(s);
    case Int(i) => DecimalSolid(if i < 0 then 0 - i else i); SolidLayOut(Fast(v));
    case UInt(u) => DecimalSolid(u); SolidLayOut(Fast(v));
    case Arr(_) => assert Fast(v) == "[]"; SolidLayOut("[]");
    case Obj(_) => assert Fast(v) == "{}"; SolidLayOut("{}");
    case _ => SolidLayOut(Fast(v));
  }

  lemma LayJoin(a: string, x: string, b: string, y: string)
    requires LaysOut(a, x) && LaysOut(b, y)
    ensures LaysOut(a + b, x + y)
  {
    StripAppend(a, b, Out);
  }

  lemma GapLaysOut(g: string)
    requires Blanks(g)
    ensures LaysOut(g, "")
  {
    hide LaysOut;
    forall i | 0 <= i < |g| ensures IsSpace(g[i]) {
      BlankIs(g[i]);
    }
    SpacesLayOut(g);
  }

  /** A text with white space only between its tokens. */
  ghost predicate Plain(d: Doc)
    decreases d, 0
  {
    match d
    case Atom(v, text) => Writable(v) && !v.Arr? && !v.Obj? && text == Fast(v)
    case List(gap, elems) => Blanks(gap) && forall e | e in elems :: PlainElem(e)
    case Table(entries, gap) => (if entries == [] then Blanks(gap) else gap == "") && PlainEntries(entries)
  }

  ghost predicate PlainElem(e: Elem)
    decreases e, 0
  {
    Blanks(e.before) && Blanks(e.after) && Plain(e.item)
  }

  ghost predicate PlainEntry(e: Entry)
    decreases e, 0
  {
    && Blanks(e.before) && e.spelling == Quoted(e.name) && Blanks(e.middle) && Blanks(e.gap) && Blanks(e.after)
    && (e.mark == "" || e.mark == ",") && Plain(e.item)
  }

  ghost predicate PlainEntries(entries: seq<Entry>)
    decreases entries, 1
  {
    entries == [] || (PlainEntry(entries[0]) && (entries[0].mark == "" <==> |entries| == 1) && PlainEntries(entries[1..]))
  }

  lemma Marks()
    ensures LaysOut("[", "[") && LaysOut("]", "]") && LaysOut("{", "{") && LaysOut("}", "}")
    ensures LaysOut(",", ",") && LaysOut(":", ":") && LaysOut("", "")
  {
    hide LaysOut;
    SolidLayOut("[");
    SolidLayOut("]");
    SolidLayOut("{");
    SolidLayOut("}");
    SolidLayOut(",");
    SolidLayOut(":");
    SolidLayOut("");
  }

  /** Without its white space a text is the compact one. */
  lemma {:induction false} PlainLaysOut(d: Doc)
    requires Plain(d)
    ensures LaysOut(Spell(d), Fast(Content(d)))
    decreases d, 0
  {
    hide LaysOut;
    Marks();
    match d
    case Atom(v, _) => LeafLayOut(v);
    case List(gap, elems) =>
      GapLaysOut(gap);
      PlainElems(elems);
      var inner, core := if elems == [] then gap else SpellElems(elems), FastItems(ContentElems(elems));
      Bracketed("[", inner, core, "]");
    case Table(entries, gap) =>
      NoBlanks();
      GapLaysOut(gap);
      EntriesLayOut(entries);
      var core := FastMembers(ContentEntries(entries));
      LayJoin(SpellEntries(entries), core, gap, "");
      assert core + "" == core && "{" + SpellEntries(entries) + gap == "{" + (SpellEntries(entries) + gap);
      Bracketed("{", SpellEntries(entries) + gap, core, "}");
  }

  lemma Bracketed(a: string, inner: string, core: string, b: string)
    requires LaysOut(a, a) && LaysOut(inner, core) && LaysOut(b, b)
    ensures LaysOut(a + inner + b, a + core + b)
  {
    hide LaysOut;
    LayJoin(a, a, inner, core);
    LayJoin(a + inner, a + core, b, b);
  }

  lemma {:induction false} PlainElems(elems: seq<Elem>)
    requires forall e | e in elems :: PlainElem(e)
    ensures LaysOut(SpellElems(elems), FastItems(ContentElems(elems)))
    decreases elems, 1
  {
    hide LaysOut, Spell, Fast, Content, Plain, Blanks;
    Marks();
    if elems != [] {
      var e := elems[0];
      assert PlainElem(e);
      PlainLaysOut(e.item);
      GapLaysOut(e.before);
      GapLaysOut(e.after);
      Bracketed3(e.before, Spell(e.item), Fast(Content(e.item)), e.after);
      if |elems| > 1 {
        PlainElems(elems[1..]);
        Bracketed2(SpellElem(e), Fast(Content(e.item)), SpellElems(elems[1..]), FastItems(ContentElems(elems[1..])));
      }
    }
  }

  lemma Bracketed3(g: string, inner: string, core: string, h: string)
    requires LaysOut(g, "") && LaysOut(inner, core) && LaysOut(h, "")
    ensures LaysOut(g + inner + h, core)
  {
    hide LaysOut;
    LayJoin(g, "", inner, core);
    LayJoin(g + inner, "" + core, h, "");
    assert "" + core + "" == core;
  }

  lemma Bracketed2(a: string, x: string, b: string, y: string)
    requires LaysOut(a, x) && LaysOut(b, y)
    ensures LaysOut(a + "," + b, x + "," + y)
  {
    hide LaysOut;
    Marks();
    LayJoin(a, x, ",", ",");
    LayJoin(a + ",", x + ",", b, y);
  }

  lemma {:induction false} EntriesLayOut(entries: seq<Entry>)
    requires PlainEntries(entries)
    ensures LaysOut(SpellEntries(entries), FastMembers(ContentEntries(entries)))
    decreases entries, 1
  {
    hide LaysOut, Spell, Fast, Content, Plain, Blanks, Quoted, SpellEntry;
    Marks();
    if entries != [] {
      var e := entries[0];
      PlainLaysOut(e.item);
      EntryLaysOut(e);
      EntriesLayOut(entries[1..]);
      var first := Quoted(e.name) + ":" + Fast(Content(e.item));
      LayJoin(SpellEntry(e), first + e.mark, SpellEntries(entries[1..]), FastMembers(ContentEntries(entries[1..])));
      assert |entries| == 1 ==> first + "" + "" == first;
    }
  }

  lemma EntryLaysOut(e: Entry)
    requires PlainEntry(e) && LaysOut(Spell(e.item), Fast(Content(e.item)))
    ensures LaysOut(SpellEntry(e), Quoted(e.name) + ":" + Fast(Content(e.item)) + e.mark)
  {
    hide LaysOut, Spell, Fast, Content, Plain, Blanks, Quoted;
    Marks();
    GapLaysOut(e.before);
    GapLaysOut(e.middle);
    GapLaysOut(e.gap);
    GapLaysOut(e.after);
    QuotedLayOut(e.name);
    var q, f := Quoted(e.name), Fast(Content(e.item));
    Bracketed3(e.before, q, q, e.middle);
    Bracketed3(e.gap, Spell(e.item), f, e.after);
    var name, value := e.before + q + e.middle, e.gap + Spell(e.item) + e.after;
    LayJoin(name, q, ":", ":");
    LayJoin(name + ":", q + ":", value, f);
    LayJoin(name + ":" + value, q + ":" + f, e.mark, e.mark);
    assert SpellEntry(e) == name + ":" + value + e.mark;
  }

  lemma {:induction false} PrettyPlain(v: Value, depth: nat)
    requires Writable(v)
    ensures Plain(Pretty(v, depth))
    decreases v, 0
  {
    match v
    case Arr(items) =>
      OneLinePlain(items);
      RowsPlain(items, depth);
    case Obj(ms) => MemberRowsPlain(ms, depth);
    case _ =>
  }

  lemma {:induction false} OneLinePlain(items: seq<Value>)
    requires forall x | x in items :: Writable(x)
    ensures forall e | e in OneLine(items) :: PlainElem(e)
    decreases items, 1
  {
    hide Plain, Pretty, Writable;
    if items != [] {
      MarginGap(0);
      PrettyPlain(items[0], 0);
      OneLinePlain(items[1..]);
    }
  }

  lemma {:induction false} RowsPlain(items: seq<Value>, depth: nat)
    requires forall x | x in items :: Writable(x)
    ensures forall e | e in Rows(items, depth) :: PlainElem(e)
    decreases items, 1
  {
    hide Plain, Pretty, Writable, NewRow;
    if items != [] {
      MarginGap(depth + 1);
      MarginGap(depth);
      PrettyPlain(items[0], depth + 1);
      RowsPlain(items[1..], depth);
    }
  }

  lemma {:induction false} MemberRowsPlain(ms: seq<Member>, depth: nat)
    requires forall m | m in ms :: Writable(m.value)
    ensures PlainEntries(MemberRows(ms, depth))
    decreases ms, 1
  {
    hide Plain, Pretty, Writable, NewRow, Quoted;
    if ms != [] {
      MarginGap(depth + 1);
      MarginGap(depth);
      PrettyPlain(ms[0].value, depth + 1);
      MemberRowsPlain(ms[1..], depth);
      MembersUnfold(ms, depth);
      RowsLength(ms, depth);
    }
  }

  lemma {:induction false} RowsLength(ms: seq<Member>, depth: nat)
    ensures |MemberRows(ms, depth)| == |ms|
    decreases |ms|
  {
    hide MemberRow;
    if ms != [] {
      RowsLength(ms[1..], depth);
    }
  }

  /** The styled text without white space outside strings is the compact text. */
  lemma StyledStrips(v: Value)
    requires Writable(v)
    ensures Strip(Styled(v), Out) == Fast(v)
  {
    hide Pretty, Spell, Plain, Fast, Strip, Writable;
    PrettyPlain(v, 0);
    PrettyProper(v, 0);
    PlainLaysOut(Pretty(v, 0));
    GapLaysOut("\n");
    LayJoin(Spell(Pretty(v, 0)), Fast(v), "\n", "");
    assert Fast(v) + "" == Fast(v);
  }
}
