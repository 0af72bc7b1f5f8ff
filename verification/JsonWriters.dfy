/**
 The compact writer of lib/json/jsoncpp.cpp as it runs: a document that grows, and
 integers printed backwards into a fixed buffer.
 */
module JsonFastWriter {
  import opened Decimals
  import opened JsonSpec

  const BUFFER_SIZE := 25  // 3 * sizeof(LargestUInt) + 1

  lemma LargestLength(n: nat)
    requires n <= MAX_LARGEST_UINT
    ensures |Decimal(n)| <= 20
  {
    assert Pow10(6) == 1000000 && Pow10(11) == 100000 * Pow10(6);
    assert Pow10(16) == 100000 * Pow10(11) && Pow10(20) == 10000 * Pow10(16);
    DecimalLength(n, 20);
  }

  /** uintToString: the digits end before the terminator at the end of the buffer. */
  method UintToString(magnitude: nat, buffer: array<char>) returns (current: nat)
    requires magnitude <= MAX_LARGEST_UINT && buffer.Length == BUFFER_SIZE
    modifies buffer
    ensures 0 < current < BUFFER_SIZE && buffer[current..BUFFER_SIZE - 1] == Decimal(magnitude)
  {
    hide Decimal;
    current := BUFFER_SIZE - 1;
    buffer[current] := '\0';
    var value := magnitude;
    LargestLength(magnitude);
    var more := true;
    while more
      invariant current < BUFFER_SIZE
      invariant more ==> Decimal(value) + buffer[current..BUFFER_SIZE - 1] == Decimal(magnitude)
      invariant !more ==> buffer[current..BUFFER_SIZE - 1] == Decimal(magnitude)
      decreases more, value
    {
      DecimalSplit(value);
      current := current - 1;
      buffer[current] := Digit(value % 10);
      value := value / 10;
      more := value != 0;
    }
  }

  /** valueToString: sign, digits and terminator fit the buffer. */
  method IntegerToString(n: int) returns (text: string)
    requires MIN_LARGEST_INT <= n <= MAX_LARGEST_UINT
    ensures text == IntText(n)
  {
    hide Decimal;
    var buffer := new char[BUFFER_SIZE];
    var current := UintToString(if n < 0 then 0 - n else n, buffer);
    if n < 0 {
      current := current - 1;
      buffer[current] := '-';
      assert buffer[current..BUFFER_SIZE - 1] == ['-'] + buffer[current + 1..BUFFER_SIZE - 1];
    }
    text := buffer[current..BUFFER_SIZE - 1];
  }

  /** valueToQuotedString: the loop that escapes character by character. */
  method ValueToQuotedString(value: string) returns (result: string)
    ensures result == Quoted(value)
  {
    if NeedsNoEscape(value) {
      PlainQuoted(value);
      return "\"" + value + "\"";
    }
    result := "\"";
    for i := 0 to |value|
      invariant result + Escaped(value[i..]) == "\"" + Escaped(value)
    {
      assert value[i..][1..] == value[i + 1..];
      result := result + Escape(value[i]);
    }
    assert value[|value|..] == "";
    result := result + "\"";
  }

  /** strpbrk and containsControlCharacter find nothing. */
  predicate NeedsNoEscape(value: string) {
    forall i | 0 <= i < |value| :: value[i] != '\"' && value[i] != '\\' && !IsControl(value[i])
  }

  lemma PlainFirst(value: string)
    requires NeedsNoEscape(value) && value != ""
    ensures Escape(value[0]) == [value[0]] && NeedsNoEscape(value[1..])
  {
  }

  lemma {:induction false} PlainQuoted(value: string)
    requires NeedsNoEscape(value)
    ensures Escaped(value) == value
    decreases |value|
  {
    if value != "" {
      PlainFirst(value);
      hide Escape, NeedsNoEscape;
      PlainQuoted(value[1..]);
      assert value == [value[0]] + value[1..];
    }
  }

  /** What the C++ representation guarantees: 64-bit integers, C strings, ordered members. */
  ghost predicate Storable(v: Value) {
    match v
    case Int(i) => MIN_LARGEST_INT <= i < -MIN_LARGEST_INT
    case UInt(u) => u <= MAX_LARGEST_UINT
    case Str(s) => NulFree(s)
    case Arr(items) => forall x | x in items :: Storable(x)
    case Obj(ms) => Sorted(ms) && forall m | m in ms :: NulFree(m.name) && Storable(m.value)
    case _ => true
  }

  lemma PrintableIsStorable(v: Value)
    requires Printable(v)
    ensures Storable(v)
  {
  }

  /** A document that becomes `goal` once `left` is appended. */
  ghost predicate Becomes(document: string, left: string, goal: string) {
    document + left == goal
  }

  lemma Appends(document: string, piece: string, left: string, goal: string)
    requires Becomes(document, piece + left, goal)
    ensures Becomes(document + piece, left, goal)
  {
    assert document + piece + left == document + (piece + left);
  }

  /** What an array still needs from element `index` on. */
  ghost function ItemsLeft(items: seq<Value>, index: nat): string
    requires index <= |items|
    decreases |items| - index
  {
    if index == |items| then "]"
    else if index == 0 then Fast(items[index]) + ItemsLeft(items, index + 1)
    else "," + (Fast(items[index]) + ItemsLeft(items, index + 1))
  }

  lemma {:induction false} ItemsLeftText(items: seq<Value>, index: nat)
    requires index < |items|
    ensures FastItems(items[index..]) + "]" == Fast(items[index]) + ItemsLeft(items, index + 1)
    decreases |items| - index
  {
    hide Fast;
    assert items[index..][1..] == items[index + 1..];
    if index + 1 < |items| {
      ItemsLeftText(items, index + 1);
    }
  }

  lemma ArrayText(items: seq<Value>)
    ensures FastItems(items) + "]" == ItemsLeft(items, 0)
  {
    hide Fast;
    if items != [] {
      ItemsLeftText(items, 0);
      assert items[0..] == items;
    }
  }

  /** What an object still needs from member `index` on. */
  ghost function MembersLeft(ms: seq<Member>, index: nat): string
    requires index <= |ms|
    decreases |ms| - index
  {
    if index == |ms| then "}"
    else if index == 0 then MemberText(ms, index)
    else "," + MemberText(ms, index)
  }

  ghost function MemberText(ms: seq<Member>, index: nat): string
    requires index < |ms|
    decreases |ms| - index, 0
  {
    Quoted(ms[index].name) + (":" + (Fast(ms[index].value) + MembersLeft(ms, index + 1)))
  }

  lemma {:induction false} MembersLeftText(ms: seq<Member>, index: nat)
    requires index < |ms|
    ensures FastMembers(ms[index..]) + "}" == MemberText(ms, index)
    decreases |ms| - index
  {
    hide Fast, Quoted;
    assert ms[index..][1..] == ms[index + 1..];
    if index + 1 < |ms| {
      MembersLeftText(ms, index + 1);
    }
  }

  lemma ObjectText(ms: seq<Member>)
    ensures FastMembers(ms) + "}" == MembersLeft(ms, 0)
  {
    hide Fast, Quoted;
    if ms != [] {
      MembersLeftText(ms, 0);
      assert ms[0..] == ms;
    }
  }

  class FastWriter {
    var document: string

    constructor ()
      ensures document == ""
    {
      document := "";
    }

    /** write: the compact text and a line feed. */
    method Write(root: Value) returns (text: string)
      requires Storable(root)
      modifies this
      ensures text == document == Fast(root) + "\n"
    {
      document := "";
      WriteValue(root);
      document := document + "\n";
      return document;
    }

    /** writeValue appends the compact text of the value. */
    method WriteValue(v: Value)
      requires Storable(v)
      modifies this
      ensures document == old(document) + Fast(v)
      decreases v, 1
    {
      hide Decimal, Quoted;
      match v {
        case Null => document := document + "null";
        case Int(i) =>
          var t := IntegerToString(i);
          document := document + t;
        case UInt(u) =>
          var t := IntegerToString(u);
          document := document + t;
        case Real(text) => document := document + text;
        case Bool(b) => document := document + if b then "true" else "false";
        case Str(s) =>
          var t := ValueToQuotedString(s);
          document := document + t;
        case Arr(items) => WriteArray(items);
        case Obj(ms) => WriteObject(ms);
      }
    }

    method WriteArray(items: seq<Value>)
      requires forall x | x in items :: Storable(x)
      modifies this
      ensures document == old(document) + ("[" + FastItems(items) + "]")
      decreases items, 0
    {
      hide Fast, FastItems, Storable, Becomes;
      ghost var goal := document + ("[" + FastItems(items) + "]");
      ArrayText(items);
      assert Becomes(document, "[" + ItemsLeft(items, 0), goal) by { Opening(document, "[", FastItems(items), "]"); }
      Appends(document, "[", ItemsLeft(items, 0), goal);
      document := document + "[";
      for index := 0 to |items|
        invariant Becomes(document, ItemsLeft(items, index), goal)
      {
        if index > 0 {
          Appends(document, ",", Fast(items[index]) + ItemsLeft(items, index + 1), goal);
          document := document + ",";
        }
        Appends(document, Fast(items[index]), ItemsLeft(items, index + 1), goal);
        WriteValue(items[index]);
      }
      assert document + "]" == goal by { Closing(document, "]", goal); }
      document := document + "]";
    }

    method WriteObject(ms: seq<Member>)
      requires forall m | m in ms :: NulFree(m.name) && Storable(m.value)
      modifies this
      ensures document == old(document) + ("{" + FastMembers(ms) + "}")
      decreases ms, 0
    {
      hide Fast, FastMembers, Storable, Quoted, Becomes;
      ghost var goal := document + ("{" + FastMembers(ms) + "}");
      ObjectText(ms);
      assert Becomes(document, "{" + MembersLeft(ms, 0), goal) by { Opening(document, "{", FastMembers(ms), "}"); }
      Appends(document, "{", MembersLeft(ms, 0), goal);
      document := document + "{";
      for index := 0 to |ms|
        invariant Becomes(document, MembersLeft(ms, index), goal)
      {
        if index > 0 {
          Appends(document, ",", MemberText(ms, index), goal);
          document := document + ",";
        }
        var name := ValueToQuotedString(ms[index].name);
        Appends(document, name, ":" + (Fast(ms[index].value) + MembersLeft(ms, index + 1)), goal);
        document := document + name;
        Appends(document, ":", Fast(ms[index].value) + MembersLeft(ms, index + 1), goal);
        document := document + ":";
        Appends(document, Fast(ms[index].value), MembersLeft(ms, index + 1), goal);
        WriteValue(ms[index].value);
      }
      assert document + "}" == goal by { Closing(document, "}", goal); }
      document := document + "}";
    }
  }

  lemma Opening(document: string, open: string, body: string, close: string)
    ensures Becomes(document, open + (body + close), document + (open + body + close))
  {
  }

  lemma Closing(document: string, close: string, goal: string)
    requires Becomes(document, close, goal)
    ensures document + close == goal
  {
  }
}
