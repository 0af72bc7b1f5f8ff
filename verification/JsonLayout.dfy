/**
 The layout of the indenting writer of lib/json/jsoncpp.cpp: one member or item to a line,
 three blanks for each container that is open, and short arrays on one line.
 */
module JsonLayout {
  import opened JsonSpec
  import opened JsonMembers
  import opened JsonText
  import opened JsonTokens
  import opened JsonScalars

  const RIGHT_MARGIN := 74
  const INDENT_SIZE := 3

  /** A value printed without a line of its own: a scalar or an empty container. */
  predicate Leaf(v: Value) {
    !(v.Arr? && v.items != []) && !(v.Obj? && v.members != [])
  }

  /** The lengths of the compact texts together. */
  function Lengths(items: seq<Value>): nat {
    if items == [] then 0 else Lengths(items[..|items| - 1]) + |Fast(items[|items| - 1])|
  }

  /** An array that is written on one line: few and simple items, and a line within the margin. */
  predicate FitsOnLine(items: seq<Value>) {
    && |items| * 3 < RIGHT_MARGIN
    && (forall i | 0 <= i < |items| :: Leaf(items[i]))
    && 4 + (|items| - 1) * 2 + Lengths(items) < RIGHT_MARGIN
  }

  lemma LengthsStep(items: seq<Value>, i: nat)
    requires i < |items|
    ensures Lengths(items[..i + 1]) == Lengths(items[..i]) + |Fast(items[i])|
  {
    hide Fast;
    assert items[..i + 1][..i] == items[..i];
  }

  // --- laid out -----------------------------------------------------------------------------

  function Margin(depth: nat): (s: string)
    ensures |s| == INDENT_SIZE * depth && forall i | 0 <= i < |s| :: s[i] == ' '
  {
    if depth == 0 then "" else Margin(depth - 1) + "   "
  }

  function NewRow(depth: nat): string {
    "\n" + Margin(depth)
  }

  function Pretty(v: Value, depth: nat): (d: Doc)
    decreases v, 0
  {
    match v
    case Arr(items) =>
      List("", if items == [] then [] else if FitsOnLine(items) then OneLine(items) else Rows(items, depth))
    case Obj(ms) => Table(MemberRows(ms, depth), "")
    case _ => Atom(v, Fast(v))
  }

  /** Behind the last item or member, the closing bracket gets a line of its own. */
  function CloseRow(last: bool, depth: nat): string {
    if last then NewRow(depth) else ""
  }

  /** Between two members. */
  function Comma(last: bool): string {
    if last then "" else ","
  }

  function OneLine(items: seq<Value>): seq<Elem>
    decreases items, 1
  {
    if items == [] then []
    else [Elem(" ", Pretty(items[0], 0), if |items| == 1 then " " else "")] + OneLine(items[1..])
  }

  function Rows(items: seq<Value>, depth: nat): seq<Elem>
    decreases items, 1
  {
    if items == [] then []
    else [Elem(NewRow(depth + 1), Pretty(items[0], depth + 1), CloseRow(|items| == 1, depth))] + Rows(items[1..], depth)
  }

  function MemberRow(m: Member, depth: nat, last: bool): Entry
    decreases m, 1
  {
    Entry(NewRow(depth + 1), m.name, Quoted(m.name), " ", " ", Pretty(m.value, depth + 1), CloseRow(last, depth), Comma(last))
  }

  function MemberRows(ms: seq<Member>, depth: nat): seq<Entry>
    decreases ms, 1
  {
    if ms == [] then []
    else [MemberRow(ms[0], depth, |ms| == 1)] + MemberRows(ms[1..], depth)
  }

  /** What StyledWriter::write returns. */
  function Styled(v: Value): string {
    Spell(Pretty(v, 0)) + "\n"
  }

  // --- it is a text of the value ----------------------------------------------------------------

  lemma {:induction false} MarginGap(depth: nat)
    ensures Blanks(Margin(depth)) && Blanks(NewRow(depth)) && Blanks(" ") && Blanks("\n")
  {
  }

  lemma GapsHere(depth: nat)
    ensures Gap(NewRow(depth)) && Gap(" ") && Gap("") && Gap("\n") && Blanks(" ")
    ensures Gap(CloseRow(true, depth)) && Gap(CloseRow(false, depth))
  {
    hide Gap, Blanks;
    MarginGap(depth);
    BlanksGap(NewRow(depth));
    BlanksGap(" ");
    BlanksGap("\n");
    Nothing();
  }

  lemma Nothing()
    ensures Gap("") && Blanks("")
  {
  }

  lemma {:induction false} PrettyProper(v: Value, depth: nat)
    requires Writable(v)
    ensures Proper(Pretty(v, depth)) && Content(Pretty(v, depth)) == v
    decreases v, 0
  {
    hide ScalarIs, ProperEntries, FitsOnLine;
    match v
    case Arr(items) =>
      Nothing();
      OneLineProper(items);
      RowsProper(items, depth);
    case Obj(ms) => MemberRowsProper(ms, depth, "");
    case _ => FastIsScalar(v);
  }

  lemma {:induction false} OneLineProper(items: seq<Value>)
    requires forall x | x in items :: Writable(x)
    ensures (forall e | e in OneLine(items) :: ProperElem(e)) && ContentElems(OneLine(items)) == items
    decreases items, 1
  {
    hide Proper, Content, Pretty, Gap, Writable;
    if items != [] {
      GapsHere(0);
      PrettyProper(items[0], 0);
      OneLineProper(items[1..]);
    }
  }

  lemma {:induction false} RowsProper(items: seq<Value>, depth: nat)
    requires forall x | x in items :: Writable(x)
    ensures (forall e | e in Rows(items, depth) :: ProperElem(e)) && ContentElems(Rows(items, depth)) == items
    decreases items, 1
  {
    hide Proper, Content, Pretty, Gap, NewRow, CloseRow, Writable;
    if items != [] {
      GapsHere(depth + 1);
      GapsHere(depth);
      PrettyProper(items[0], depth + 1);
      RowsProper(items[1..], depth);
    }
  }

  lemma {:induction false} MemberRowProper(m: Member, depth: nat, last: bool)
    requires NulFree(m.name) && Writable(m.value)
    ensures var e := MemberRow(m, depth, last);
            ProperEntry(e) && e.mark == Comma(last) && e.name == m.name && Content(e.item) == m.value
    decreases m, 1
  {
    hide Proper, Content, Pretty, Gap, NewRow, CloseRow, Blanks, Quoted, StringIs, NulFree, Writable;
    Nothing();
    GapsHere(depth + 1);
    GapsHere(depth);
    QuotedIs(m.name);
    PrettyProper(m.value, depth + 1);
  }

  lemma {:induction false} MemberRowsProper(ms: seq<Member>, depth: nat, last: string)
    requires (forall m | m in ms :: NulFree(m.name) && Writable(m.value)) && (ms == [] ==> last == "")
    ensures ProperEntries(MemberRows(ms, depth), "", last) && ContentEntries(MemberRows(ms, depth)) == ms
    decreases ms, 2
  {
    hide Content, Gap, MemberRow, NulFree, Writable, ProperEntry, ProperEntries, ContentEntries, SpellEntries, SpellEntry;
    if ms == [] {
      NoRows();
    } else {
      var e, others := MemberRow(ms[0], depth, |ms| == 1), MemberRows(ms[1..], depth);
      MemberRowProper(ms[0], depth, |ms| == 1);
      if |ms| > 1 {
        MemberRowsProper(ms[1..], depth, ms[0].name);
      } else {
        NoRows();
      }
      MembersUnfold(ms, depth);
      EntryInFront(e, others);
      ProperInFront(e, others, last);
      assert ms == [ms[0]] + ms[1..];
    }
  }

  lemma NoRows()
    ensures ProperEntries([], "", "") && ContentEntries([]) == []
  {
    Nothing();
  }

  // --- piece by piece --------------------------------------------------------------------------

  lemma RowsUnfold(items: seq<Value>, depth: nat)
    requires items != []
    ensures Rows(items, depth)
         == [Elem(NewRow(depth + 1), Pretty(items[0], depth + 1), CloseRow(|items| == 1, depth))] + Rows(items[1..], depth)
    ensures Rows(items[1..], depth) == [] <==> |items| == 1
  {
    hide Pretty, NewRow, CloseRow;
  }

  lemma ElemsSplit(e: Elem, es: seq<Elem>, close: string)
    ensures SpellElems([e] + es) + close
         == e.before + (Spell(e.item) + (e.after + (if es == [] then close else "," + (SpellElems(es) + close))))
  {
    hide Spell;
    assert ([e] + es)[1..] == es;
  }

  lemma LineUnfold(items: seq<Value>)
    requires items != []
    ensures OneLine(items) == [Elem(" ", Pretty(items[0], 0), if |items| == 1 then " " else "")] + OneLine(items[1..])
    ensures OneLine(items[1..]) == [] <==> |items| == 1
  {
    hide Pretty;
  }

  lemma ClosesOrGoesOn(last: bool, depth: nat, close: string, more: string)
    ensures CloseRow(last, depth) + (if last then close else more) == if last then NewRow(depth) + close else more
  {
    hide NewRow;
  }

  lemma MembersUnfold(ms: seq<Member>, depth: nat)
    requires ms != []
    ensures MemberRows(ms, depth) == [MemberRow(ms[0], depth, |ms| == 1)] + MemberRows(ms[1..], depth)
    ensures MemberRows(ms[1..], depth) == [] <==> |ms| == 1
  {
    hide MemberRow;
  }

  /** A row of an object, and the rows behind it. */
  lemma EntriesSplit(m: Member, depth: nat, es: seq<Entry>, close: string)
    ensures SpellEntries([MemberRow(m, depth, es == [])] + es) + close
         == NewRow(depth + 1) + (Quoted(m.name) + (" : " + (Spell(Pretty(m.value, depth + 1))
            + (CloseRow(es == [], depth) + (if es == [] then close else "," + (SpellEntries(es) + close))))))
  {
    hide Spell, Quoted, Pretty, NewRow, CloseRow;
    var e := MemberRow(m, depth, es == []);
    assert ([e] + es)[1..] == es;
    RowSplit(e, if es == [] then close else SpellEntries(es) + close);
    assert SpellEntries([e] + es) + close == SpellEntry(e) + (if es == [] then close else SpellEntries(es) + close);
  }

  lemma RowSplit(e: Entry, close: string)
    requires e.middle == " " == e.gap
    ensures SpellEntry(e) + close
         == e.before + (e.spelling + (" : " + (Spell(e.item) + (e.after + (e.mark + close)))))
  {
    hide Spell;
    assert " " + ":" + " " == " : ";
  }

  function ArrayElems(items: seq<Value>, depth: nat): seq<Elem> {
    if FitsOnLine(items) then OneLine(items) else Rows(items, depth)
  }

  lemma SomeElems(items: seq<Value>, depth: nat)
    requires items != []
    ensures ArrayElems(items, depth) != []
    ensures Pretty(Arr(items), depth) == List("", ArrayElems(items, depth))
  {
    hide FitsOnLine, OneLine, Rows;
    LineUnfold(items);
    RowsUnfold(items, depth);
  }

  lemma Enclosed(left: string, body: string, right: string, rest: string)
    ensures left + body + right + rest == left + (body + (right + rest))
  {
  }

  lemma ListSpelled(es: seq<Elem>, rest: string)
    requires es != []
    ensures Spell(List("", es)) + rest == "[" + (SpellElems(es) + ("]" + rest))
  {
    hide SpellElems;
    Enclosed("[", SpellElems(es), "]", rest);
  }

  lemma TableSpelled(es: seq<Entry>, rest: string)
    requires es != []
    ensures Spell(Table(es, "")) + rest == "{" + (SpellEntries(es) + ("}" + rest))
  {
    hide SpellEntries;
    Enclosed("{", SpellEntries(es), "}", rest);
    assert "{" + SpellEntries(es) + "" == "{" + SpellEntries(es);
  }

  lemma ArraySpelled(items: seq<Value>, depth: nat, rest: string)
    requires items != []
    ensures Spell(Pretty(Arr(items), depth)) + rest == "[" + (SpellElems(ArrayElems(items, depth)) + ("]" + rest))
  {
    hide ArrayElems, SpellElems, Pretty, Spell;
    SomeElems(items, depth);
    ListSpelled(ArrayElems(items, depth), rest);
  }

  lemma ObjectSpelled(ms: seq<Member>, depth: nat, rest: string)
    requires ms != []
    ensures Spell(Pretty(Obj(ms), depth)) + rest == "{" + (SpellEntries(MemberRows(ms, depth)) + ("}" + rest))
  {
    hide MemberRows, MemberRow, SpellEntries, Spell;
    MembersUnfold(ms, depth);
    TableSpelled(MemberRows(ms, depth), rest);
  }
}
