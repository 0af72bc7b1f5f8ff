/**
 The indenting writer of lib/json/jsoncpp.cpp, for values without comments: it writes
 exactly the layout of JsonLayout.
 */
module JsonStyledWriter {
  import opened Decimals
  import opened JsonSpec
  import opened JsonMembers
  import opened JsonText
  import opened JsonLayout
  import opened JsonFastWriter

  // --- the text that is left to write ---------------------------------------------------

  /** The rows of an array from item i on, its closing bracket and what follows it. */
  ghost function RowsFrom(items: seq<Value>, i: nat, depth: nat, left: string): string
    requires i < |items|
  {
    SpellElems(Rows(items[i..], depth)) + ("]" + left)
  }

  /** What follows item i. */
  ghost function AfterItem(items: seq<Value>, i: nat, depth: nat, left: string): string
    requires i < |items|
  {
    if i + 1 < |items| then "," + RowsFrom(items, i + 1, depth, left) else NewRow(depth) + ("]" + left)
  }

  lemma RowStep(items: seq<Value>, i: nat, depth: nat, left: string)
    requires i < |items|
    ensures RowsFrom(items, i, depth, left)
         == NewRow(depth + 1) + (Spell(Pretty(items[i], depth + 1)) + AfterItem(items, i, depth, left))
  {
    hide Pretty, Spell, NewRow;
    var rest := items[i..];
    assert rest[0] == items[i] && rest[1..] == items[i + 1..];
    RowsUnfold(rest, depth);
    hide Rows;
    var e := Elem(NewRow(depth + 1), Pretty(items[i], depth + 1), CloseRow(|rest| == 1, depth));
    ElemsSplit(e, Rows(rest[1..], depth), "]" + left);
    ClosesOrGoesOn(|rest| == 1, depth, "]" + left, "," + (SpellElems(Rows(rest[1..], depth)) + ("]" + left)));
    hide CloseRow, SpellElems;
  }

  /** The items of a short array from item i on. */
  ghost function LineFrom(items: seq<Value>, i: nat, left: string): string
    requires i < |items|
  {
    SpellElems(OneLine(items[i..])) + ("]" + left)
  }

  ghost function AfterShort(items: seq<Value>, i: nat, left: string): string
    requires i < |items|
  {
    if i + 1 < |items| then "," + LineFrom(items, i + 1, left) else " ]" + left
  }

  lemma LineStep(items: seq<Value>, i: nat, left: string)
    requires i < |items|
    ensures LineFrom(items, i, left) == " " + (Spell(Pretty(items[i], 0)) + AfterShort(items, i, left))
  {
    hide Pretty, Spell;
    var rest := items[i..];
    assert rest[0] == items[i] && rest[1..] == items[i + 1..];
    LineUnfold(rest);
    hide OneLine;
    var e := Elem(" ", Pretty(items[i], 0), if |rest| == 1 then " " else "");
    ElemsSplit(e, OneLine(rest[1..]), "]" + left);
    assert " " + ("]" + left) == " ]" + left;
    assert "" + ("," + (SpellElems(OneLine(rest[1..])) + ("]" + left))) == "," + (SpellElems(OneLine(rest[1..])) + ("]" + left));
  }

  /** The rows of an object from member i on. */
  ghost function MembersFrom(ms: seq<Member>, i: nat, depth: nat, left: string): string
    requires i < |ms|
  {
    SpellEntries(MemberRows(ms[i..], depth)) + ("}" + left)
  }

  ghost function AfterMember(ms: seq<Member>, i: nat, depth: nat, left: string): string
    requires i < |ms|
  {
    if i + 1 < |ms| then "," + MembersFrom(ms, i + 1, depth, left) else NewRow(depth) + ("}" + left)
  }

  lemma MemberStep(ms: seq<Member>, i: nat, depth: nat, left: string)
    requires i < |ms|
    ensures MembersFrom(ms, i, depth, left)
         == NewRow(depth + 1) + (Quoted(ms[i].name) + (" : " + (Spell(Pretty(ms[i].value, depth + 1)) + AfterMember(ms, i, depth, left))))
  {
    hide Pretty, Spell, NewRow, Quoted, MemberRow;
    var rest := ms[i..];
    assert rest[0] == ms[i] && rest[1..] == ms[i + 1..];
    MembersUnfold(rest, depth);
    hide MemberRows;
    EntriesSplit(ms[i], depth, MemberRows(rest[1..], depth), "}" + left);
    ClosesOrGoesOn(|rest| == 1, depth, "}" + left, "," + (SpellEntries(MemberRows(rest[1..], depth)) + ("}" + left)));
    hide CloseRow, SpellEntries;
  }

  // --- how the text of a value begins and ends ---------------------------------------------------

  /** Neither a blank nor the end of a line. */
  predicate SolidEnd(t: string) {
    t != "" && t[|t| - 1] != ' ' && t[|t| - 1] != '\n'
  }

  lemma {:induction false} DecimalEnd(n: nat)
    ensures SolidEnd(Decimal(n))
  {
  }

  lemma FastEnd(v: Value)
    requires Writable(v)
    ensures SolidEnd(Fast(v))
  {
    hide Decimal;
    match v
    case Int(i) => DecimalEnd(if i < 0 then 0 - i else i);
    case UInt(u) => DecimalEnd(u);
    case _ =>
  }

  lemma SpellEnd(d: Doc)
    requires d.Atom? ==> Writable(d.v) && d.text == Fast(d.v)
    ensures SolidEnd(Spell(d))
  {
    hide Fast;
    if d.Atom? {
      FastEnd(d.v);
    }
  }

  lemma PrettyEnd(v: Value, depth: nat)
    requires Writable(v)
    ensures SolidEnd(Spell(Pretty(v, depth)))
  {
    hide Spell, Rows, OneLine, MemberRows, FitsOnLine;
    SpellEnd(Pretty(v, depth));
  }

  lemma LeafText(v: Value, depth: nat)
    requires Leaf(v)
    ensures Spell(Pretty(v, depth)) == Fast(v)
  {
    if v.Arr? || v.Obj? {
      assert "[" + "" + "]" == "[]" && "{" + "" + "}" == "{}";
    }
  }

  // --- the writer ---------------------------------------------------------------------------------

  /** A document at whose end a value can go: empty, or behind the margin or a colon. */
  predicate Ready(document: string, depth: nat) {
    if document == "" then depth == 0 else document[|document| - 1] == ' '
  }

  class StyledWriter {
    var document: string
    var childValues: seq<string>
    var addChildValues: bool
    var indentString: string

    constructor ()
      ensures !addChildValues && document == "" && childValues == [] && indentString == ""
    {
      document, childValues, addChildValues, indentString := "", [], false, "";
    }

    /** write. */
    method Write(root: Value) returns (text: string)
      requires Writable(root)
      modifies this
      ensures text == Styled(root)
    {
      hide Spell, Pretty;
      document, addChildValues, indentString := "", false, "";
      WriteValue(root, 0, "", Spell(Pretty(root, 0)));
      document := document + "\n";
      return document;
    }

    method PushValue(value: string)
      modifies this`document, this`childValues
      ensures addChildValues ==> document == old(document) && childValues == old(childValues) + [value]
      ensures !addChildValues ==> document == old(document) + value && childValues == old(childValues)
    {
      if addChildValues {
        childValues := childValues + [value];
      } else {
        document := document + value;
      }
    }

    /** Behind something written, a new line; behind a blank, nothing. */
    method WriteIndent()
      modifies this`document
      ensures document == old(document) + (
                if old(document) == "" then indentString
                else if old(document)[|old(document)| - 1] == ' ' then ""
                else if old(document)[|old(document)| - 1] == '\n' then indentString
                else "\n" + indentString)
    {
      if document != "" {
        var last := document[|document| - 1];
        if last == ' ' {
          return;
        }
        if last != '\n' {
          document := document + "\n";
        }
      }
      document := document + indentString;
    }

    /** A new row, behind what ends neither in a blank nor in a line feed. */
    method StartRow(ghost depth: nat, ghost left: string, ghost goal: string)
      requires SolidEnd(document) && indentString == Margin(depth) && Becomes(document, NewRow(depth) + left, goal)
      modifies this`document
      ensures Becomes(document, left, goal) && (depth > 0 ==> Ready(document, depth))
    {
      Appends(document, NewRow(depth), left, goal);
      WriteIndent();
    }

    method WriteWithIndent(value: string)
      modifies this`document
      ensures Ready(old(document), 0) && indentString == "" ==> document == old(document) + value
      ensures old(document) != "" && Ready(old(document), 0) ==> document == old(document) + value
      ensures SolidEnd(old(document)) ==> document == old(document) + ("\n" + indentString) + value
    {
      WriteIndent();
      document := document + value;
    }

    method Indent()
      modifies this`indentString
      ensures indentString == old(indentString) + "   "
    {
      indentString := indentString + seq(INDENT_SIZE, _ => ' ');
    }

    method Unindent()
      requires |indentString| >= INDENT_SIZE
      modifies this`indentString
      ensures indentString == old(indentString)[..|old(indentString)| - INDENT_SIZE]
    {
      indentString := indentString[..|indentString| - INDENT_SIZE];
    }

    /** Appends a piece of the text. */
    method WriteMark(mark: string, ghost left: string, ghost goal: string)
      requires Becomes(document, mark + left, goal)
      modifies this`document
      ensures document == old(document) + mark && Becomes(document, left, goal)
    {
      Appends(document, mark, left, goal);
      document := document + mark;
    }

    /**
     writeValue.  While child values are collected only leaves are written, and each adds its
     text to the collection; otherwise the document grows by the text of the value.
     */
    method WriteValue(v: Value, ghost depth: nat, ghost left: string, ghost goal: string)
      requires Writable(v) && indentString == Margin(depth)
      requires addChildValues ==> Leaf(v)
      requires !addChildValues ==> Ready(document, depth) && Becomes(document, Spell(Pretty(v, depth)) + left, goal)
      modifies this
      ensures addChildValues == old(addChildValues) && indentString == old(indentString)
      ensures addChildValues ==> document == old(document) && childValues == old(childValues) + [Fast(v)]
      ensures !addChildValues ==> Becomes(document, left, goal) && SolidEnd(document)
      decreases v, 2
    {
      hide Spell, Pretty, Decimal, Quoted, Becomes;
      if Leaf(v) {
        LeafText(v, depth);
        PrettyEnd(v, depth);
        if !addChildValues { Appends(document, Fast(v), left, goal); }
        WriteLeaf(v);
      } else if v.Arr? {
        WriteArrayValue(v.items, depth, left, goal);
      } else {
        WriteObjectValue(v.members, depth, left, goal);
      }
    }

    method WriteLeaf(v: Value)
      requires Leaf(v) && Writable(v)
      modifies this`document, this`childValues
      ensures addChildValues ==> document == old(document) && childValues == old(childValues) + [Fast(v)]
      ensures !addChildValues ==> document == old(document) + Fast(v)
    {
      hide Decimal, Quoted;
      var text;
      match v {
        case Null => text := "null";
        case Int(i) => text := IntegerToString(i);
        case UInt(u) => text := IntegerToString(u);
        case Bool(b) => text := if b then "true" else "false";
        case Str(s) => text := ValueToQuotedString(s);
        case Arr(_) => text := "[]";
        case Obj(_) => text := "{}";
      }
      assert text == Fast(v);
      PushValue(text);
    }

    /** The collected child values are those of this array. */
    ghost predicate Collected(items: seq<Value>)
      reads this
    {
      |childValues| == |items| && forall i | 0 <= i < |items| :: childValues[i] == Fast(items[i]) && Leaf(items[i])
    }

    /** isMultineArray. */
    method IsMultilineArray(items: seq<Value>, ghost depth: nat) returns (multi: bool)
      requires !addChildValues && items != [] && indentString == Margin(depth) && forall x | x in items :: Writable(x)
      modifies this
      ensures !addChildValues && indentString == old(indentString) && document == old(document)
      ensures childValues == [] || Collected(items)
      ensures !multi ==> Collected(items)
      ensures multi <==> !FitsOnLine(items)
      decreases items, 0
    {
      hide Fast, Writable, Pretty, Spell;
      var size := |items|;
      multi := size * 3 >= RIGHT_MARGIN;
      childValues := [];
      var index := 0;
      while index < size && !multi
        invariant 0 <= index <= size
        invariant !multi ==> size * 3 < RIGHT_MARGIN && forall i | 0 <= i < index :: Leaf(items[i])
        invariant multi ==> !FitsOnLine(items)
      {
        multi := !Leaf(items[index]);
        index := index + 1;
      }
      if !multi {
        addChildValues := true;
        var lineLength := 4 + (size - 1) * 2;
        for i := 0 to size
          invariant addChildValues && indentString == old(indentString) && document == old(document)
          invariant |childValues| == i && forall j | 0 <= j < i :: childValues[j] == Fast(items[j])
          invariant lineLength == 4 + (size - 1) * 2 + Lengths(items[..i])
        {
          LengthsStep(items, i);
          WriteValue(items[i], depth, "", "");
          lineLength := lineLength + |childValues[i]|;
        }
        assert items[..size] == items;
        addChildValues := false;
        multi := lineLength >= RIGHT_MARGIN;
      }
    }

    method WriteArrayValue(items: seq<Value>, ghost depth: nat, ghost left: string, ghost goal: string)
      requires !addChildValues && items != [] && forall x | x in items :: Writable(x)
      requires indentString == Margin(depth) && Ready(document, depth)
      requires Becomes(document, Spell(Pretty(Arr(items), depth)) + left, goal)
      modifies this
      ensures !addChildValues && indentString == old(indentString)
      ensures Becomes(document, left, goal) && SolidEnd(document)
      decreases items, 2
    {
      hide Spell, Pretty, Fast, Writable, Becomes, LineFrom, RowsFrom, FitsOnLine, Leaf;
      ArrayOpens(items, depth, left);
      var multi := IsMultilineArray(items, depth);
      if multi {
        WriteLines(items, depth, left, goal);
      } else {
        LineOpens(items, left);
        WriteMark("[ ", Spell(Pretty(items[0], 0)) + AfterShort(items, 0, left), goal);
        for index := 0 to |items|
          invariant !addChildValues && indentString == old(indentString) && Collected(items)
          invariant index < |items| && index == 0 ==>
            Becomes(document, Spell(Pretty(items[index], 0)) + AfterShort(items, index, left), goal)
          invariant index > 0 ==> Becomes(document, AfterShort(items, index - 1, left), goal)
        {
          if index > 0 {
            ShortGoesOn(items, index - 1, left);
            WriteMark(", ", Spell(Pretty(items[index], 0)) + AfterShort(items, index, left), goal);
          }
          LeafText(items[index], 0);
          WriteMark(childValues[index], AfterShort(items, index, left), goal);
        }
        ShortEnds(items, left);
        WriteMark(" ]", left, goal);
      }
    }

    /** The rows of a multi-line array: collected child values are this array's own. */
    /** A new row with an item. */
    method WriteRow(items: seq<Value>, index: nat, hasChildValue: bool, ghost depth: nat, ghost left: string, ghost goal: string)
      requires !addChildValues && index < |items| && forall x | x in items :: Writable(x)
      requires indentString == Margin(depth + 1) && SolidEnd(document)
      requires hasChildValue ==> Collected(items)
      requires Becomes(document, RowsFrom(items, index, depth, left), goal)
      modifies this
      ensures !addChildValues && indentString == old(indentString) && SolidEnd(document)
      ensures hasChildValue ==> Collected(items)
      ensures Becomes(document, AfterItem(items, index, depth, left), goal)
      decreases items, 0
    {
      hide Spell, Pretty, Fast, Writable, Becomes, RowsFrom, NewRow, Leaf, AfterItem;
      RowStep(items, index, depth, left);
      StartRow(depth + 1, Spell(Pretty(items[index], depth + 1)) + AfterItem(items, index, depth, left), goal);
      if hasChildValue {
        LeafText(items[index], depth + 1);
        FastEnd(items[index]);
        WriteMark(childValues[index], AfterItem(items, index, depth, left), goal);
      } else {
        WriteValue(items[index], depth + 1, AfterItem(items, index, depth, left), goal);
      }
    }

    method WriteLines(items: seq<Value>, ghost depth: nat, ghost left: string, ghost goal: string)
      requires !addChildValues && items != [] && forall x | x in items :: Writable(x)
      requires childValues == [] || Collected(items)
      requires indentString == Margin(depth) && Ready(document, depth)
      requires Becomes(document, "[" + RowsFrom(items, 0, depth, left), goal)
      modifies this
      ensures !addChildValues && indentString == old(indentString)
      ensures Becomes(document, left, goal) && SolidEnd(document)
      decreases items, 1
    {
      hide Spell, Pretty, Fast, Writable, Becomes, RowsFrom, NewRow, Leaf;
      Appends(document, "[", RowsFrom(items, 0, depth, left), goal);
      MarginIs(depth);
      WriteWithIndent("[");
      Indent();
      var hasChildValue := childValues != [];
      var index := 0;
      while true
        invariant 0 <= index < |items|
        invariant !addChildValues && indentString == Margin(depth + 1) && SolidEnd(document)
        invariant hasChildValue ==> Collected(items)
        invariant Becomes(document, RowsFrom(items, index, depth, left), goal)
        decreases |items| - index
      {
        WriteRow(items, index, hasChildValue, depth, left, goal);
        index := index + 1;
        if index == |items| {
          break;
        }
        WriteMark(",", RowsFrom(items, index, depth, left), goal);
      }
      Unindent();
      MarginBack(depth);
      CloseContainer(depth, "]", left, goal);
    }

    /** The closing bracket on a row of its own. */
    method CloseContainer(ghost depth: nat, bracket: string, ghost left: string, ghost goal: string)
      requires SolidEnd(document) && indentString == Margin(depth) && SolidEnd(bracket)
      requires Becomes(document, NewRow(depth) + (bracket + left), goal)
      modifies this`document
      ensures Becomes(document, left, goal) && SolidEnd(document)
    {
      hide Becomes;
      Appends(document, NewRow(depth), bracket + left, goal);
      Appends(document + NewRow(depth), bracket, left, goal);
      WriteWithIndent(bracket);
    }

    method WriteObjectValue(ms: seq<Member>, ghost depth: nat, ghost left: string, ghost goal: string)
      requires !addChildValues && ms != [] && forall m | m in ms :: NulFree(m.name) && Writable(m.value)
      requires indentString == Margin(depth) && Ready(document, depth)
      requires Becomes(document, Spell(Pretty(Obj(ms), depth)) + left, goal)
      modifies this
      ensures !addChildValues && indentString == old(indentString)
      ensures Becomes(document, left, goal) && SolidEnd(document)
      decreases ms, 1
    {
      hide Spell, Pretty, Writable, Becomes, MembersFrom, NewRow, Quoted, NulFree;
      ObjectOpens(ms, depth, left);
      Appends(document, "{", MembersFrom(ms, 0, depth, left), goal);
      MarginIs(depth);
      WriteWithIndent("{");
      Indent();
      var index := 0;
      while true
        invariant 0 <= index < |ms|
        invariant !addChildValues && indentString == Margin(depth + 1) && SolidEnd(document)
        invariant Becomes(document, MembersFrom(ms, index, depth, left), goal)
        decreases |ms| - index
      {
        var m := ms[index];
        assert m in ms;
        WriteMember(ms, index, depth, left, goal);
        WriteValue(m.value, depth + 1, AfterMember(ms, index, depth, left), goal);
        index := index + 1;
        if index == |ms| {
          break;
        }
        WriteMark(",", MembersFrom(ms, index, depth, left), goal);
      }
      Unindent();
      MarginBack(depth);
      CloseContainer(depth, "}", left, goal);
    }

    /** A new row with a name and a colon. */
    method WriteMember(ms: seq<Member>, index: nat, ghost depth: nat, ghost left: string, ghost goal: string)
      requires index < |ms| && NulFree(ms[index].name) && SolidEnd(document) && indentString == Margin(depth + 1)
      requires Becomes(document, MembersFrom(ms, index, depth, left), goal)
      modifies this`document
      ensures Ready(document, depth + 1)
      ensures Becomes(document, Spell(Pretty(ms[index].value, depth + 1)) + AfterMember(ms, index, depth, left), goal)
    {
      hide Spell, Pretty, Becomes, MembersFrom, NewRow, Quoted, NulFree;
      ghost var value := Spell(Pretty(ms[index].value, depth + 1)) + AfterMember(ms, index, depth, left);
      MemberStep(ms, index, depth, left);
      var name := ValueToQuotedString(ms[index].name);
      StartRow(depth + 1, name + (" : " + value), goal);
      WriteMark(name, " : " + value, goal);
      WriteMark(" : ", value, goal);
    }
  }

  lemma ArrayOpens(items: seq<Value>, depth: nat, left: string)
    requires items != []
    ensures Spell(Pretty(Arr(items), depth)) + left
         == "[" + (if FitsOnLine(items) then LineFrom(items, 0, left) else RowsFrom(items, 0, depth, left))
  {
    hide FitsOnLine, SpellElems, Pretty, Spell, OneLine, Rows;
    assert items[0..] == items;
    ArraySpelled(items, depth, left);
  }

  lemma LineOpens(items: seq<Value>, left: string)
    requires items != []
    ensures "[" + LineFrom(items, 0, left) == "[ " + (Spell(Pretty(items[0], 0)) + AfterShort(items, 0, left))
  {
    hide LineFrom, Spell, Pretty;
    LineStep(items, 0, left);
    var rest := Spell(Pretty(items[0], 0)) + AfterShort(items, 0, left);
    hide AfterShort;
    assert "[" + (" " + rest) == "[ " + rest;
  }

  lemma ShortGoesOn(items: seq<Value>, i: nat, left: string)
    requires i + 1 < |items|
    ensures AfterShort(items, i, left) == ", " + (Spell(Pretty(items[i + 1], 0)) + AfterShort(items, i + 1, left))
  {
    hide LineFrom, Spell, Pretty;
    LineStep(items, i + 1, left);
    var rest := Spell(Pretty(items[i + 1], 0)) + AfterShort(items, i + 1, left);
    assert "," + (" " + rest) == ", " + rest;
  }

  lemma ShortEnds(items: seq<Value>, left: string)
    requires items != []
    ensures AfterShort(items, |items| - 1, left) == " ]" + left
  {
  }

  lemma ObjectOpens(ms: seq<Member>, depth: nat, left: string)
    requires ms != []
    ensures Spell(Pretty(Obj(ms), depth)) + left == "{" + MembersFrom(ms, 0, depth, left)
  {
    hide SpellEntries, Pretty, Spell, MemberRows;
    assert ms[0..] == ms;
    ObjectSpelled(ms, depth, left);
  }

  lemma MarginIs(depth: nat)
    ensures Margin(depth + 1) == Margin(depth) + "   " && (depth == 0 ==> Margin(depth) == "")
  {
  }

  lemma MarginBack(depth: nat)
    ensures Margin(depth + 1)[..|Margin(depth + 1)| - INDENT_SIZE] == Margin(depth)
  {
  }
}
