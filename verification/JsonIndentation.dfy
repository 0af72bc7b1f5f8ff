/**
 The indentation of the texts of the indenting writer of lib/json/jsoncpp.cpp: every line
 starts with three blanks for each bracket that is open there.
 */
module JsonIndentation {
  import opened Decimals
  import opened JsonSpec
  import opened JsonMembers
  import opened JsonText
  import opened JsonLayout
  import JsonScalars
  import opened JsonStyledLaws

  // --- depth and margin of any text ---------------------------------------------------------

  predicate Opens(c: char) {
    c == '[' || c == '{'
  }

  predicate Closes(c: char) {
    c == ']' || c == '}'
  }

  /** How a character changes the number of open brackets; inside strings it does not. */
  function Change(m: Mode, c: char): int {
    if m == Out && Opens(c) then 1 else if m == Out && Closes(c) then -1 else 0
  }

  function Net(s: string, m: Mode): int {
    if s == "" then 0 else Change(m, s[0]) + Net(s[1..], NextMode(m, s[0]))
  }

  /** The blanks at the start. */
  function Lead(s: string): (n: nat)
    ensures n <= |s|
  {
    if s != "" && s[0] == ' ' then 1 + Lead(s[1..]) else 0
  }

  /** A line: as many blanks as three times what is open, its own closing bracket not counted. */
  predicate RowAligned(line: string, open: int) {
    Lead(line) == INDENT_SIZE * (if Lead(line) < |line| && Closes(line[Lead(line)]) then open - 1 else open)
  }

  /** Every line of a text that starts with `open` brackets open. */
  predicate Aligned(s: string, m: Mode, open: int) {
    if s == "" then true
    else
      && (m == Out && s[0] == '\n' ==> RowAligned(s[1..], open))
      && Aligned(s[1..], NextMode(m, s[0]), open + Change(m, s[0]))
  }

  // --- joining ------------------------------------------------------------------------------------

  /** A piece without an end of line leaves the lines behind it as they are. */
  lemma {:induction false} OnTheLine(a: string, b: string, m: Mode, open: int)
    requires forall i | 0 <= i < |a| :: a[i] != '\n'
    ensures Aligned(a + b, m, open) <==> Aligned(b, After(a, m), open + Net(a, m))
    decreases |a|
  {
    hide Change, NextMode, RowAligned;
    if a == "" {
      assert a + b == b;
    } else {
      assert (a + b)[1..] == a[1..] + b;
      OnTheLine(a[1..], b, NextMode(m, a[0]), open + Change(m, a[0]));
    }
  }

  lemma {:induction false} LeadIs(g: string, b: string)
    requires (forall i | 0 <= i < |g| :: g[i] == ' ') && b != "" && b[0] != ' '
    ensures Lead(g + b) == |g| && (g + b)[|g|] == b[0]
    decreases |g|
  {
    if g == "" {
      assert g + b == b;
    } else {
      assert (g + b)[1..] == g[1..] + b;
      LeadIs(g[1..], b);
    }
  }

  lemma {:induction false} BlanksChangeNothing(g: string)
    requires forall i | 0 <= i < |g| :: g[i] == ' '
    ensures Net(g, Out) == 0 && After(g, Out) == Out
    decreases |g|
  {
    if g != "" {
      BlanksChangeNothing(g[1..]);
    }
  }

  /** A new row in front of a text that starts with no blank. */
  lemma RowJoin(depth: nat, b: string, open: int)
    requires b != "" && b[0] != ' ' && depth == (if Closes(b[0]) then open - 1 else open) && Aligned(b, Out, open)
    ensures Aligned(NewRow(depth) + b, Out, open)
  {
    var g := Margin(depth);
    var t := NewRow(depth) + b;
    assert t[1..] == g + b;
    LeadIs(g, b);
    BlanksChangeNothing(g);
    OnTheLine(g, b, Out, open);
    assert !Opens('\n') && !Closes('\n');
  }

  /** A piece on one line that opens and closes nothing in sum. */
  ghost predicate Level(t: string) {
    (forall i | 0 <= i < |t| :: t[i] != '\n') && Net(t, Out) == 0 && After(t, Out) == Out
  }

  lemma LevelJoin(t: string, b: string, open: int)
    requires Level(t)
    ensures Aligned(t + b, Out, open) <==> Aligned(b, Out, open)
  {
    OnTheLine(t, b, Out, open);
  }

  lemma BracketJoin(c: char, b: string, open: int)
    requires Opens(c) || Closes(c)
    ensures Aligned([c] + b, Out, open) <==> Aligned(b, Out, if Opens(c) then open + 1 else open - 1)
  {
    assert ([c] + b)[1..] == b;
  }

  // --- pieces on one line --------------------------------------------------------------------------

  lemma {:induction false} NetAppend(a: string, b: string, m: Mode)
    ensures Net(a + b, m) == Net(a, m) + Net(b, After(a, m)) && After(a + b, m) == After(b, After(a, m))
    decreases |a|
  {
    hide Change, NextMode;
    if a == "" {
      assert a + b == b;
    } else {
      assert (a + b)[1..] == a[1..] + b;
      NetAppend(a[1..], b, NextMode(m, a[0]));
    }
  }

  lemma LevelAppend(a: string, b: string)
    requires Level(a) && Level(b)
    ensures Level(a + b)
  {
    NetAppend(a, b, Out);
  }

  /** Without quotes, brackets and line ends. */
  lemma {:induction false} SmoothLevel(t: string)
    requires forall i | 0 <= i < |t| :: t[i] != '\n' && t[i] != '\"' && !Opens(t[i]) && !Closes(t[i])
    ensures Level(t)
    decreases |t|
  {
    if t != "" {
      SmoothLevel(t[1..]);
    }
  }

  lemma {:induction false} InsideNet(t: string)
    requires forall i | 0 <= i < |t| :: t[i] != '\"' && t[i] != '\\'
    ensures Net(t, In) == 0
    decreases |t|
  {
    if t != "" {
      InsideNet(t[1..]);
    }
  }

  lemma EscapeNet(c: char)
    ensures Net(Escape(c), In) == 0 && forall i | 0 <= i < |Escape(c)| :: Escape(c)[i] != '\n'
  {
    var t := Escape(c);
    if |t| == 1 {
      InsideNet(t);
    } else {
      assert t[1..][1..] == t[2..];
      InsideNet(t[2..]);
      assert Net(t[1..], Esc) == 0;
    }
  }

  lemma {:induction false} EscapedNet(s: string)
    ensures Net(Escaped(s), In) == 0 && forall i | 0 <= i < |Escaped(s)| :: Escaped(s)[i] != '\n'
    decreases |s|
  {
    hide Escape, Net;
    if s == "" {
      InsideNet("");
    } else {
      EscapeNet(s[0]);
      EscapeInside(s[0]);
      EscapedNet(s[1..]);
      NetAppend(Escape(s[0]), Escaped(s[1..]), In);
    }
  }

  lemma QuotedLevel(s: string)
    ensures Level(Quoted(s))
  {
    hide Escaped;
    var q := Quoted(s);
    assert q[1..] == Escaped(s) + "\"";
    EscapedNet(s);
    EscapedInside(s);
    NetAppend(Escaped(s), "\"", In);
    assert "\""[1..] == "";
  }

  lemma {:induction false} DecimalLevel(n: nat)
    ensures Level(Decimal(n))
  {
    if n >= 10 {
      DecimalLevel(n / 10);
      SmoothLevel([Digit(n % 10)]);
      LevelAppend(Decimal(n / 10), [Digit(n % 10)]);
    } else {
      SmoothLevel([Digit(n)]);
    }
  }

  lemma IntLevel(n: int)
    ensures Level(IntText(n))
  {
    hide Level, Decimal;
    DecimalLevel(if n < 0 then 0 - n else n);
    if n < 0 {
      SmoothLevel("-");
      LevelAppend("-", Decimal(0 - n));
    }
  }

  lemma LeafLevel(v: Value)
    requires Leaf(v) && Writable(v)
    ensures Level(Fast(v))
  {
    hide Level, Decimal, IntText;
    match v
    case Str(s) => QuotedLevel(s);
    case Int(i) => IntLevel(i);
    case UInt(u) => DecimalLevel(u);
    case Arr(_) => EmptyLevel();
    case Obj(_) => EmptyLevel();
    case _ => SmoothLevel(Fast(v));
  }

  lemma EmptyLevel()
    ensures Fast(Arr([])) == "[]" && Fast(Obj([])) == "{}" && Level("[]") && Level("{}")
  {
    assert "[]"[1..] == "]" && "]"[1..] == "" && "{}"[1..] == "}" && "}"[1..] == "";
  }

  lemma MarkLevel()
    ensures Level(",") && Level(" : ") && Level(" ") && Level("")
  {
    SmoothLevel(",");
    SmoothLevel(" : ");
    SmoothLevel(" ");
    SmoothLevel("");
  }

  // --- the layout ------------------------------------------------------------------------------------

  lemma {:induction false} OneLineLevel(items: seq<Value>)
    requires forall x | x in items :: Leaf(x) && Writable(x)
    ensures Level(SpellElems(OneLine(items)))
    decreases |items|
  {
    hide Level, Spell, Pretty, Leaf, Writable;
    MarkLevel();
    if items != [] {
      LineUnfold(items);
      var f, end := Fast(items[0]), if |items| == 1 then " " else "";
      LeafLevel(items[0]);
      LeafSpelled(items[0], 0);
      LevelAppend(" ", f);
      LevelAppend(" " + f, end);
      if |items| > 1 {
        OneLineLevel(items[1..]);
        LevelAppend(" " + f + end, ",");
        LevelAppend(" " + f + end + ",", SpellElems(OneLine(items[1..])));
      }
    }
  }

  lemma Leaves(items: seq<Value>)
    requires FitsOnLine(items)
    ensures forall x | x in items :: Leaf(x)
  {
    hide Leaf;
  }

  lemma LeafSpelled(v: Value, depth: nat)
    requires Leaf(v)
    ensures Spell(Pretty(v, depth)) == Fast(v)
  {
    if v.Arr? || v.Obj? {
      assert "[" + "" + "]" == "[]" && "{" + "" + "}" == "{}";
    }
  }

  /** What the text of a value starts with. */
  lemma PrettyHead(v: Value, depth: nat)
    requires Writable(v)
    ensures var t := Spell(Pretty(v, depth)); t != "" && t[0] != ' ' && !Closes(t[0])
  {
    hide Fast, Rows, OneLine, MemberRows, FitsOnLine;
    var d := Pretty(v, depth);
    if d.Atom? {
      AtomHead(v);
    }
  }

  lemma AtomHead(v: Value)
    requires Writable(v) && !v.Arr? && !v.Obj?
    ensures Fast(v) != "" && Fast(v)[0] != ' ' && !Closes(Fast(v)[0])
  {
    hide Decimal;
    match v
    case Int(i) => JsonScalars.DecimalHead(if i < 0 then 0 - i else i);
    case UInt(u) => JsonScalars.DecimalHead(u);
    case _ =>
  }

  /** In front of anything aligned, the text of a value is aligned. */
  lemma {:induction false} PrettyAligned(v: Value, depth: nat, rest: string)
    requires Writable(v) && Aligned(rest, Out, depth)
    ensures Aligned(Spell(Pretty(v, depth)) + rest, Out, depth)
    decreases v, 0
  {
    hide Aligned, Level, Fast, FitsOnLine;
    if Leaf(v) {
      LeafSpelled(v, depth);
      LeafLevel(v);
      LevelJoin(Fast(v), rest, depth);
    } else if v.Arr? {
      ArrayAligned(v.items, depth, rest);
    } else {
      ObjectAligned(v.members, depth, rest);
    }
  }

  lemma {:induction false} ArrayAligned(items: seq<Value>, depth: nat, rest: string)
    requires items != [] && (forall x | x in items :: Writable(x)) && Aligned(rest, Out, depth)
    ensures Aligned(Spell(Pretty(Arr(items), depth)) + rest, Out, depth)
    decreases items, 2
  {
    hide Aligned, Level, Writable, SpellElems, FitsOnLine, Pretty, Spell, OneLine, Rows;
    var es, tail := ArrayElems(items, depth), "]" + rest;
    ArraySpelled(items, depth, rest);
    BracketJoin(']', rest, depth + 1);
    if FitsOnLine(items) {
      Leaves(items);
      OneLineLevel(items);
      LevelJoin(SpellElems(es), tail, depth + 1);
    } else {
      RowsAligned(items, depth, rest);
    }
    BracketJoin('[', SpellElems(es) + tail, depth);
  }

  lemma {:induction false} RowsAligned(items: seq<Value>, depth: nat, rest: string)
    requires items != [] && (forall x | x in items :: Writable(x)) && Aligned("]" + rest, Out, depth + 1)
    ensures Aligned(SpellElems(Rows(items, depth)) + ("]" + rest), Out, depth + 1)
    decreases items, 1
  {
    hide Aligned, Level, Writable, SpellElems, Rows, Pretty, Spell, NewRow;
    var v, more := items[0], "," + (SpellElems(Rows(items[1..], depth)) + ("]" + rest));
    RowsUnfold(items, depth);
    ElemsSplit(Elem(NewRow(depth + 1), Pretty(v, depth + 1), CloseRow(|items| == 1, depth)), Rows(items[1..], depth), "]" + rest);
    ClosesOrGoesOn(|items| == 1, depth, "]" + rest, more);
    var after := if |items| == 1 then NewRow(depth) + ("]" + rest) else more;
    if |items| == 1 {
      RowJoin(depth, "]" + rest, depth + 1);
    } else {
      RowsAligned(items[1..], depth, rest);
      MarkLevel();
      LevelJoin(",", SpellElems(Rows(items[1..], depth)) + ("]" + rest), depth + 1);
    }
    PrettyAligned(v, depth + 1, after);
    PrettyHead(v, depth + 1);
    RowJoin(depth + 1, Spell(Pretty(v, depth + 1)) + after, depth + 1);
  }

  lemma {:induction false} ObjectAligned(ms: seq<Member>, depth: nat, rest: string)
    requires ms != [] && (forall m | m in ms :: Writable(m.value)) && Aligned(rest, Out, depth)
    ensures Aligned(Spell(Pretty(Obj(ms), depth)) + rest, Out, depth)
    decreases ms, 2
  {
    hide Aligned, Level, Writable, SpellEntries, Pretty, Spell, MemberRows;
    var es, tail := MemberRows(ms, depth), "}" + rest;
    ObjectSpelled(ms, depth, rest);
    BracketJoin('}', rest, depth + 1);
    MemberRowsAligned(ms, depth, rest);
    BracketJoin('{', SpellEntries(es) + tail, depth);
  }

  lemma {:induction false} MemberRowsAligned(ms: seq<Member>, depth: nat, rest: string)
    requires ms != [] && (forall m | m in ms :: Writable(m.value)) && Aligned("}" + rest, Out, depth + 1)
    ensures Aligned(SpellEntries(MemberRows(ms, depth)) + ("}" + rest), Out, depth + 1)
    decreases ms, 1
  {
    hide Aligned, Level, Writable, SpellEntries, MemberRows, MemberRow, Pretty, Spell, NewRow, Quoted;
    var m, more := ms[0], "," + (SpellEntries(MemberRows(ms[1..], depth)) + ("}" + rest));
    MembersUnfold(ms, depth);
    EntriesSplit(m, depth, MemberRows(ms[1..], depth), "}" + rest);
    ClosesOrGoesOn(|ms| == 1, depth, "}" + rest, more);
    var after := if |ms| == 1 then NewRow(depth) + ("}" + rest) else more;
    MarkLevel();
    if |ms| == 1 {
      RowJoin(depth, "}" + rest, depth + 1);
    } else {
      MemberRowsAligned(ms[1..], depth, rest);
      LevelJoin(",", SpellEntries(MemberRows(ms[1..], depth)) + ("}" + rest), depth + 1);
    }
    PrettyAligned(m.value, depth + 1, after);
    var text := Spell(Pretty(m.value, depth + 1)) + after;
    LevelJoin(" : ", text, depth + 1);
    QuotedLevel(m.name);
    LevelJoin(Quoted(m.name), " : " + text, depth + 1);
    QuotedHead(m.name);
    RowJoin(depth + 1, Quoted(m.name) + (" : " + text), depth + 1);
  }

  lemma QuotedHead(s: string)
    ensures Quoted(s) != "" && Quoted(s)[0] == '\"'
  {
  }

  /** Every line of what the writer returns is indented by what is open. */
  lemma StyledAligned(v: Value)
    requires Writable(v)
    ensures Aligned(Styled(v), Out, 0)
  {
    hide Pretty, Spell, Writable;
    assert "\n"[1..] == "";
    PrettyAligned(v, 0, "\n");
  }

  // --- the number of lines -------------------------------------------------------------------------

  function Breaks(s: string): nat {
    if s == "" then 0 else (if s[0] == '\n' then 1 else 0) + Breaks(s[1..])
  }

  /** How many lines a value takes: one for each bracket of a container, and those of what is in it. */
  function Height(v: Value): (n: nat)
    ensures n > 0
    decreases v, 0
  {
    if Leaf(v) then 1
    else if v.Obj? then 2 + MemberHeights(v.members)
    else if FitsOnLine(v.items) then 1
    else 2 + Heights(v.items)
  }

  function Heights(items: seq<Value>): nat
    decreases items, 1
  {
    if items == [] then 0 else Height(items[0]) + Heights(items[1..])
  }

  function MemberHeights(ms: seq<Member>): nat
    decreases ms, 1
  {
    if ms == [] then 0 else Height(ms[0].value) + MemberHeights(ms[1..])
  }

  lemma {:induction false} BreaksAppend(a: string, b: string)
    ensures Breaks(a + b) == Breaks(a) + Breaks(b)
    decreases |a|
  {
    if a == "" {
      assert a + b == b;
    } else {
      assert (a + b)[1..] == a[1..] + b;
      BreaksAppend(a[1..], b);
    }
  }

  lemma {:induction false} NoBreaks(t: string)
    requires forall i | 0 <= i < |t| :: t[i] != '\n'
    ensures Breaks(t) == 0
    decreases |t|
  {
    if t != "" {
      NoBreaks(t[1..]);
    }
  }

  lemma LevelBreaks(t: string, b: string)
    requires Level(t)
    ensures Breaks(t + b) == Breaks(b)
  {
    NoBreaks(t);
    BreaksAppend(t, b);
  }

  lemma BracketBreaks(c: char, b: string)
    requires Opens(c) || Closes(c)
    ensures Breaks([c] + b) == Breaks(b)
  {
    assert ([c] + b)[1..] == b;
  }

  lemma RowBreaks(depth: nat, b: string)
    ensures Breaks(NewRow(depth) + b) == 1 + Breaks(b)
  {
    assert (NewRow(depth) + b)[1..] == Margin(depth) + b;
    NoBreaks(Margin(depth));
    BreaksAppend(Margin(depth), b);
  }

  lemma {:induction false} PrettyBreaks(v: Value, depth: nat, rest: string)
    requires Writable(v)
    ensures Breaks(Spell(Pretty(v, depth)) + rest) == Height(v) - 1 + Breaks(rest)
    decreases v, 0
  {
    hide Breaks, Level, Fast, FitsOnLine, Pretty, Spell, SpellElems, SpellEntries, MemberRows, OneLine, Rows;
    if Leaf(v) {
      LeafSpelled(v, depth);
      LeafLevel(v);
      LevelBreaks(Fast(v), rest);
    } else if v.Arr? {
      ArraySpelled(v.items, depth, rest);
      var es, tail := ArrayElems(v.items, depth), "]" + rest;
      BracketBreaks(']', rest);
      BracketBreaks('[', SpellElems(es) + tail);
      if FitsOnLine(v.items) {
        Leaves(v.items);
        OneLineLevel(v.items);
        LevelBreaks(SpellElems(es), tail);
      } else {
        RowsBreaks(v.items, depth, tail);
      }
    } else {
      ObjectSpelled(v.members, depth, rest);
      BracketBreaks('}', rest);
      BracketBreaks('{', SpellEntries(MemberRows(v.members, depth)) + ("}" + rest));
      MemberRowsBreak(v.members, depth, "}" + rest);
    }
  }

  lemma {:induction false} RowsBreaks(items: seq<Value>, depth: nat, close: string)
    requires items != [] && forall x | x in items :: Writable(x)
    ensures Breaks(SpellElems(Rows(items, depth)) + close) == Heights(items) + 1 + Breaks(close)
    decreases items, 1
  {
    hide Breaks, Level, Writable, SpellElems, Rows, Pretty, Spell, NewRow, Height;
    var v, more := items[0], "," + (SpellElems(Rows(items[1..], depth)) + close);
    RowsUnfold(items, depth);
    ElemsSplit(Elem(NewRow(depth + 1), Pretty(v, depth + 1), CloseRow(|items| == 1, depth)), Rows(items[1..], depth), close);
    ClosesOrGoesOn(|items| == 1, depth, close, more);
    var after := if |items| == 1 then NewRow(depth) + close else more;
    if |items| == 1 {
      RowBreaks(depth, close);
    } else {
      RowsBreaks(items[1..], depth, close);
      MarkLevel();
      LevelBreaks(",", SpellElems(Rows(items[1..], depth)) + close);
    }
    PrettyBreaks(v, depth + 1, after);
    RowBreaks(depth + 1, Spell(Pretty(v, depth + 1)) + after);
  }

  lemma {:induction false} MemberRowsBreak(ms: seq<Member>, depth: nat, close: string)
    requires ms != [] && forall m | m in ms :: Writable(m.value)
    ensures Breaks(SpellEntries(MemberRows(ms, depth)) + close) == MemberHeights(ms) + 1 + Breaks(close)
    decreases ms, 1
  {
    hide Breaks, Level, Writable, SpellEntries, MemberRows, MemberRow, Pretty, Spell, NewRow, Height, Quoted;
    var m, more := ms[0], "," + (SpellEntries(MemberRows(ms[1..], depth)) + close);
    MembersUnfold(ms, depth);
    EntriesSplit(m, depth, MemberRows(ms[1..], depth), close);
    ClosesOrGoesOn(|ms| == 1, depth, close, more);
    var after := if |ms| == 1 then NewRow(depth) + close else more;
    MarkLevel();
    if |ms| == 1 {
      RowBreaks(depth, close);
    } else {
      MemberRowsBreak(ms[1..], depth, close);
      LevelBreaks(",", SpellEntries(MemberRows(ms[1..], depth)) + close);
    }
    PrettyBreaks(m.value, depth + 1, after);
    var text := Spell(Pretty(m.value, depth + 1)) + after;
    LevelBreaks(" : ", text);
    QuotedLevel(m.name);
    LevelBreaks(Quoted(m.name), " : " + text);
    RowBreaks(depth + 1, Quoted(m.name) + (" : " + text));
  }

  /** Each bracket, each member and each item of an array on several lines has its own line. */
  lemma StyledHeight(v: Value)
    requires Writable(v)
    ensures Breaks(Styled(v)) == Height(v)
  {
    hide Pretty, Spell, Writable, Height;
    assert "\n"[1..] == "";
    PrettyBreaks(v, 0, "\n");
  }

  // --- the margin ----------------------------------------------------------------------------------

  lemma {:induction false} LineLength(items: seq<Value>)
    requires items != [] && forall x | x in items :: Leaf(x)
    ensures |SpellElems(OneLine(items))| == 2 + (|items| - 1) * 2 + Lengths(items)
    decreases |items|
  {
    hide Leaf, Fast, Pretty, Spell, OneLine;
    LineUnfold(items);
    var e := Elem(" ", Pretty(items[0], 0), if |items| == 1 then " " else "");
    ElemsSplit(e, OneLine(items[1..]), "");
    LeafSpelled(items[0], 0);
    FirstLength(items);
    if |items| > 1 {
      LineLength(items[1..]);
    }
  }

  lemma {:induction false} FirstLength(items: seq<Value>)
    requires items != []
    ensures Lengths(items) == |Fast(items[0])| + Lengths(items[1..])
    decreases |items|
  {
    hide Fast;
    var n := |items| - 1;
    if n > 0 {
      assert items[..n][1..] == items[1..][..n - 1];
      FirstLength(items[..n]);
    }
  }

  lemma {:induction false} LengthsAtLeast(items: seq<Value>)
    requires forall x | x in items :: Writable(x) && Leaf(x)
    ensures Lengths(items) >= |items|
    decreases |items|
  {
    hide Fast, Writable, Leaf;
    if items != [] {
      var v := items[|items| - 1];
      LeafSpelled(v, 0);
      PrettyHead(v, 0);
      LengthsAtLeast(items[..|items| - 1]);
    }
  }

  /**
   The test made on the number of items first changes nothing: an array is on one line if and only if its items
   are leaves and the line is shorter than the margin.
   */
  lemma OneLineExactly(items: seq<Value>)
    requires items != [] && forall x | x in items :: Writable(x)
    ensures FitsOnLine(items)
       <==> (forall x | x in items :: Leaf(x)) && |"[" + SpellElems(OneLine(items)) + "]"| < RIGHT_MARGIN
  {
    hide Leaf, Writable, OneLine, SpellElems, Lengths;
    if forall x | x in items :: Leaf(x) {
      LineLength(items);
      LengthsAtLeast(items);
    }
  }
}
