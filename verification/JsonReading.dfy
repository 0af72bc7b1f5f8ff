/**
 The reader of lib/json/jsoncpp.cpp takes every JSON text, with white space and comments
 between its tokens, for what it stands for.
 */
module JsonReading {
  import opened JsonSpec
  import opened JsonMembers
  import opened JsonText
  import opened JsonTokens
  import opened JsonScalars

  // --- gaps are skipped -----------------------------------------------------------------

  lemma BlankIs(c: char)
    ensures IsSpace(c) <==> Blank(c)
  {
  }

  lemma {:induction false} BlanksSkip(g: string, s: string)
    requires Blanks(g)
    ensures SkipSpaces(g + s) == SkipSpaces(s) && NextToken(g + s) == NextToken(s)
    decreases |g|
  {
    hide TokenAt;
    if g == "" {
      assert g + s == s;
    } else {
      BlankIs(g[0]);
      assert (g + s)[1..] == g[1..] + s;
      BlanksSkip(g[1..], s);
    }
  }

  lemma {:induction false} CCommentWhole(t: string, k: nat, s: string)
    requires 2 <= k <= |t| - 2 && t[|t| - 2] == '*' && t[|t| - 1] == '/'
    requires forall i | 2 <= i < |t| - 2 :: !(t[i] == '*' && t[i + 1] == '/')
    ensures CCommentEnd((t + s)[k..]) == (|t| - k, true)
    decreases |t| - k
  {
    var u := (t + s)[k..];
    assert u[0] == t[k] && u[1] == t[k + 1];
    if k < |t| - 2 {
      assert u[1..] == (t + s)[k + 1..];
      CCommentWhole(t, k + 1, s);
    }
  }

  lemma {:induction false} LineCommentWhole(t: string, k: nat, s: string)
    requires 2 <= k <= |t| - 1 && NewLine(t[|t| - 1]) && forall i | 2 <= i < |t| - 1 :: !NewLine(t[i])
    ensures LineCommentEnd((t + s)[k..]) == |t| - k
    decreases |t| - k
  {
    var u := (t + s)[k..];
    assert u[0] == t[k];
    if k < |t| - 1 {
      assert u[1..] == (t + s)[k + 1..];
      LineCommentWhole(t, k + 1, s);
    }
  }

  /** A text that starts with a slash is a comment of some length. */
  lemma SlashToken(u: string, n: nat)
    requires 2 <= n <= |u| && u[0] == '/'
    requires || (u[1] == '*' && CCommentEnd(u[2..]) == (n - 2, true))
             || (u[1] == '/' && LineCommentEnd(u[2..]) == n - 2)
    ensures NextToken(u) == Token(Comment, u[..n], u[n..])
  {
    hide CCommentEnd, LineCommentEnd, SkipSpaces, NextToken, TokenAt;
    Lexed(u);
    SlashAt(u);
  }

  lemma SlashAt(u: string)
    requires u != "" && u[0] == '/'
    ensures TokenAt(u) == CommentToken(u)
  {
    hide StringEnd, NumberEnd, CommentToken;
  }

  lemma CommentStart(t: string)
    requires IsComment(t)
    ensures |t| >= 3 && t[0] == '/' && (t[1] == '*' || t[1] == '/')
  {
    assert t[..2][0] == t[0] && t[..2][1] == t[1];
  }

  lemma CommentIsToken(t: string, s: string)
    requires IsComment(t)
    ensures NextToken(t + s) == Token(Comment, t, s)
  {
    hide CCommentEnd, LineCommentEnd, NextToken, NewLine;
    var u := t + s;
    CommentStart(t);
    assert t[..2][1] == t[1];
    if t[1] == '*' {
      CCommentWhole(t, 2, s);
    } else {
      LineCommentWhole(t, 2, s);
    }
    SlashToken(u, |t|);
    assert u[..|t|] == t && u[|t|..] == s;
  }

  lemma SameReal(a: string, b: string)
    requires NextToken(a) == NextToken(b)
    ensures NextRealToken(a) == NextRealToken(b)
  {
    hide NextToken;
  }

  /** A gap is skipped, or its first comment is the next token and the rest is skipped. */
  lemma {:induction false} GapToken(g: string, s: string)
    requires Gap(g)
    ensures NextRealToken(g + s) == NextRealToken(s)
    ensures NextToken(g + s) == NextToken(s)
         || (NextToken(g + s).kind == Comment && NextRealToken(NextToken(g + s).rest) == NextRealToken(s))
    decreases |g|
  {
    hide NextToken, NextRealToken, IsComment;
    if g == "" {
      assert g + s == s;
    } else if Blank(g[0]) && Gap(g[1..]) {
      assert g + s == [g[0]] + (g[1..] + s);
      BlanksSkip([g[0]], g[1..] + s);
      SameReal(g + s, g[1..] + s);
      GapToken(g[1..], s);
    } else {
      var k :| 0 < k <= |g| && IsComment(g[..k]) && Gap(g[k..]);
      assert g + s == g[..k] + (g[k..] + s);
      CommentIsToken(g[..k], g[k..] + s);
      GapToken(g[k..], s);
      RealAfterComment(g + s);
    }
  }

  lemma BlanksTail(g: string)
    requires g != "" && Blank(g[0])
    ensures Blanks(g[1..]) ==> Blanks(g)
  {
    assert forall i | 0 < i < |g| :: g[i] == g[1..][i - 1];
  }

  /** If it holds a comment, the first one is the next token. */
  lemma {:induction false} GapComment(g: string, s: string)
    requires Gap(g) && !Blanks(g)
    ensures NextToken(g + s).kind == Comment && NextRealToken(NextToken(g + s).rest) == NextRealToken(s)
    decreases |g|
  {
    hide NextToken, NextRealToken, IsComment;
    if Blank(g[0]) && Gap(g[1..]) {
      BlanksTail(g);
      assert g + s == [g[0]] + (g[1..] + s);
      BlanksSkip([g[0]], g[1..] + s);
      GapComment(g[1..], s);
    } else {
      var k :| 0 < k <= |g| && IsComment(g[..k]) && Gap(g[k..]);
      assert g + s == g[..k] + (g[k..] + s);
      CommentIsToken(g[..k], g[k..] + s);
      GapToken(g[k..], s);
    }
  }

  lemma RealAfterComment(s: string)
    requires NextToken(s).kind == Comment
    ensures NextRealToken(s) == NextRealToken(NextToken(s).rest)
  {
    hide NextToken;
  }

  lemma GapBeforeValue(g: string, s: string)
    requires Gap(g)
    ensures ParseValue(g + s) == ParseValue(s)
  {
    hide NextToken, NextRealToken, ParseValue, ParseMembers, ParseArray, ParseScalar, Gap;
    GapToken(g, s);
    ValueOfToken(g + s);
    ValueOfToken(s);
  }

  /** Behind a gap the text starts with a blank, a slash, or what follows the gap. */
  lemma {:induction false} GapHead(g: string, s: string)
    requires Gap(g) && s != ""
    ensures g + s != "" && (Blank((g + s)[0]) || (g + s)[0] == '/' || (g == "" && (g + s)[0] == s[0]))
  {
    if g != "" && !Blank(g[0]) {
      var k :| 0 < k <= |g| && IsComment(g[..k]) && Gap(g[k..]);
      assert g[0] == g[..k][0] == g[..k][..2][0];
    }
  }

  lemma GapDelimits(g: string, next: string)
    requires Gap(g) && next != "" && (g == "" ==> Delimits(next))
    ensures Delimits(g + next)
  {
    hide Gap;
    GapHead(g, next);
    assert g == "" ==> g + next == next;
  }

  lemma SkipFirst(t: string)
    requires t != ""
    ensures SkipSpaces(t) == if Blank(t[0]) then SkipSpaces(t[1..]) else t
  {
  }

  /** In front of something that is no space, and not the end of an array. */
  lemma {:induction false} GapNotClosed(g: string, s: string)
    requires Gap(g) && s != "" && !Blank(s[0]) && s[0] != ']'
    ensures var body := SkipSpaces(g + s); body != "" && body[0] != ']'
    decreases |g|
  {
    hide SkipSpaces, Blank, IsComment;
    SkipFirst(g + s);
    if g == "" {
      assert g + s == s;
    } else if Blank(g[0]) && Gap(g[1..]) {
      assert (g + s)[1..] == g[1..] + s;
      GapNotClosed(g[1..], s);
    } else {
      var k :| 0 < k <= |g| && IsComment(g[..k]) && Gap(g[k..]);
      CommentStart(g[..k]);
      SlashNoBlank();
      assert (g + s)[0] == g[..k][0];
    }
  }

  lemma SlashNoBlank()
    ensures !Blank('/')
  {
  }

  /** What follows a member, behind a gap. */
  lemma GapMemberEnd(g: string, mark: char, after: string)
    requires Gap(g) && (mark == ',' || mark == '}')
    ensures MemberEnd(g + ([mark] + after)) == if mark == ',' then More(after) else Closed(after)
  {
    hide NextToken, NextRealToken, Gap;
    GapToken(g, [mark] + after);
    PunctuationToken(mark, after);
  }

  // --- reading a text -------------------------------------------------------------------------

  /** What follows the text does not continue a number. */
  predicate Ends(d: Doc, post: string) {
    d.Atom? && NumberText(d.text) ==> Delimits(post)
  }

  /** The text of a value starts with neither a space nor a closing bracket. */
  lemma SpellHead(d: Doc)
    requires Proper(d)
    ensures Spell(d) != "" && !Blank(Spell(d)[0]) && Spell(d)[0] != ']'
  {
    hide Spells;
  }

  /** Every text is read as what it stands for, whatever follows it that does not continue a number. */
  lemma {:induction false} ReadDoc(d: Doc, post: string)
    requires Proper(d) && Ends(d, post)
    ensures ParseValue(Spell(d) + post) == Some(Parsed(ReadBack(Content(d)), post))
    decreases d, 0
  {
    hide ParseValue, ScalarIs, NumberText, Delimits, SpellElems, SpellEntries, ContentElems, ContentEntries;
    hide ReadItems, ReadMembers;
    match d
    case Atom(v, text) => ScalarReads(text, v, post);
    case List(gap, elems) => ReadList(gap, elems, post);
    case Table(entries, gap) => ReadTable(entries, gap, post);
  }

  /** Behind a gap, and with a gap and a mark behind it. */
  lemma {:induction false} ReadBetween(before: string, d: Doc, after: string, next: string)
    requires Gap(before) && Gap(after) && Proper(d) && next != "" && (after == "" ==> Delimits(next))
    ensures ParseValue(before + (Spell(d) + (after + next))) == Some(Parsed(ReadBack(Content(d)), after + next))
    decreases d, 1
  {
    hide ParseValue, Gap, Proper, Spell, Content, ReadBack;
    GapDelimits(after, next);
    ReadDoc(d, after + next);
    GapBeforeValue(before, Spell(d) + (after + next));
  }

  // --- lists -----------------------------------------------------------------------------------

  lemma ListText(gap: string, elems: seq<Elem>, post: string)
    ensures Spell(List(gap, elems)) + post == "[" + ((if elems == [] then gap else SpellElems(elems)) + ("]" + post))
  {
    hide SpellElems;
  }

  lemma {:induction false} ReadList(gap: string, elems: seq<Elem>, post: string)
    requires Proper(List(gap, elems))
    ensures ParseValue(Spell(List(gap, elems)) + post) == Some(Parsed(ReadBack(Content(List(gap, elems))), post))
    decreases elems, 3
  {
    hide NextToken, NextRealToken, ParseValue, ParseArray, Spell, SpellElems, StartOf;
    var s := (if elems == [] then gap else SpellElems(elems)) + ("]" + post);
    ListText(gap, elems, post);
    MarkStart();
    PunctuationToken('[', s);
    ValueOfToken("[" + s);
    if elems == [] {
      NoElems(gap, post);
    } else {
      ReadBody(elems, post);
    }
  }

  lemma NoElems(gap: string, post: string)
    requires Blanks(gap)
    ensures ParseArray(gap + ("]" + post)) == Some(Parsed(Arr([]), post))
  {
    hide ParseItems;
    BlanksSkip(gap, "]" + post);
    assert SkipSpaces("]" + post) == "]" + post;
    assert ("]" + post)[1..] == post;
  }

  lemma ElemText(e: Elem, rest: string)
    ensures SpellElem(e) + rest == e.before + (Spell(e.item) + (e.after + rest))
  {
    hide Spell;
  }

  lemma Append3(f: string, r: string, close: string)
    ensures f + "," + r + close == f + ("," + (r + close))
  {
  }

  lemma ElemsText(elems: seq<Elem>, close: string)
    requires elems != []
    ensures |elems| == 1 ==> SpellElems(elems) + close == SpellElem(elems[0]) + close
    ensures |elems| > 1 ==> SpellElems(elems) + close == SpellElem(elems[0]) + ("," + (SpellElems(elems[1..]) + close))
  {
    hide SpellElem;
    if |elems| > 1 { Append3(SpellElem(elems[0]), SpellElems(elems[1..]), close); }
  }

  lemma {:induction false} ReadBody(elems: seq<Elem>, post: string)
    requires elems != [] && Proper(List("", elems))
    ensures ParseArray(SpellElems(elems) + ("]" + post)) == Some(Parsed(Arr(ReadItems(ContentElems(elems))), post))
    decreases elems, 2
  {
    hide ParseItems, SkipSpaces, SpellElems, Spell, SpellElem, ReadBack, Gap;
    var e, close := elems[0], "]" + post;
    assert e in elems;
    var rest := if |elems| == 1 then close else "," + (SpellElems(elems[1..]) + close);
    ElemsText(elems, close);
    ElemText(e, rest);
    SpellHead(e.item);
    GapNotClosed(e.before, Spell(e.item) + (e.after + rest));
    ReadElems(elems, [], post);
    assert [] + ReadItems(ContentElems(elems)) == ReadItems(ContentElems(elems));
  }

  lemma {:induction false} ReadElems(elems: seq<Elem>, done: seq<Value>, post: string)
    requires elems != [] && Proper(List("", elems))
    ensures ParseItems(SpellElems(elems) + ("]" + post), done)
         == Some(Parsed(Arr(done + ReadItems(ContentElems(elems))), post))
    decreases elems, 1
  {
    hide ParseItems, ParseValue, SpellElems, Spell, SpellElem, ReadBack, Gap, Content;
    var e, rest, close := elems[0], elems[1..], "]" + post;
    ProperFirst(elems);
    ElemsText(elems, close);
    hide Proper;
    var r := ReadBack(Content(e.item));
    if rest == [] {
      ElemText(e, close);
      ReadBetween(e.before, e.item, e.after, "]" + post);
      ElemStep(e, done, ']', post);
      assert ReadItems(ContentElems(elems)) == [r];
    } else {
      var after := SpellElems(rest) + close;
      ElemText(e, "," + after);
      ReadBetween(e.before, e.item, e.after, "," + after);
      ElemStep(e, done, ',', after);
      ReadElems(rest, done + [r], post);
      ReadMore(elems, done);
    }
  }

  lemma ProperFirst(elems: seq<Elem>)
    requires elems != [] && Proper(List("", elems))
    ensures var e := elems[0]; Gap(e.before) && Gap(e.after) && Proper(e.item)
    ensures Proper(List("", elems[1..]))
  {
    hide Gap;
    assert elems[0] in elems;
    assert forall x | x in elems[1..] :: x in elems;
  }

  lemma ReadMore(elems: seq<Elem>, done: seq<Value>)
    requires elems != []
    ensures done + ReadItems(ContentElems(elems))
         == done + [ReadBack(Content(elems[0].item))] + ReadItems(ContentElems(elems[1..]))
  {
    hide ReadBack, Content;
    var a := ReadItems(ContentElems(elems));
    assert a == [a[0]] + a[1..];
    assert a[1..] == ReadItems(ContentElems(elems[1..]));
  }

  lemma ElemStep(e: Elem, done: seq<Value>, mark: char, after: string)
    requires (mark == ',' || mark == ']') && Gap(e.after)
    requires ParseValue(e.before + (Spell(e.item) + (e.after + ([mark] + after))))
          == Some(Parsed(ReadBack(Content(e.item)), e.after + ([mark] + after)))
    ensures var more := done + [ReadBack(Content(e.item))];
            var r := ParseItems(e.before + (Spell(e.item) + (e.after + ([mark] + after))), done);
            && (mark == ',' ==> r == ParseItems(after, more))
            && (mark == ']' ==> r == Some(Parsed(Arr(more), after)))
  {
    hide NextToken, NextRealToken, ParseValue, Spell, ReadBack, Content, Gap;
    GapToken(e.after, [mark] + after);
    PunctuationToken(mark, after);
  }

  // --- tables ------------------------------------------------------------------------------------

  lemma TableText(entries: seq<Entry>, gap: string, post: string)
    ensures Spell(Table(entries, gap)) + post == "{" + (SpellEntries(entries) + (gap + ("}" + post)))
  {
    hide SpellEntries;
  }

  lemma {:induction false} ReadTable(entries: seq<Entry>, gap: string, post: string)
    requires ProperEntries(entries, gap, "")
    ensures ParseValue(Spell(Table(entries, gap)) + post) == Some(Parsed(Obj(ReadMembers(ContentEntries(entries))), post))
    decreases entries, 3
  {
    hide NextToken, NextRealToken, ParseValue, ParseMembers, Spell, SpellEntries, StartOf, Gap, ProperEntries, Insert;
    var s := SpellEntries(entries) + (gap + ("}" + post));
    TableText(entries, gap, post);
    MarkStart();
    PunctuationToken('{', s);
    ValueOfToken("{" + s);
    ReadEntries(entries, gap, "", [], post);
    assert [] + ContentEntries(entries) == ContentEntries(entries);
  }

  lemma NoEntries(gap: string, before: seq<Member>, post: string)
    requires Gap(gap)
    ensures ParseMembers(gap + ("}" + post), before, "") == Some(Parsed(Obj(before), post))
  {
    hide NextRealToken, Gap;
    GapToken(gap, "}" + post);
    PunctuationToken('}', post);
  }

  /** What follows the value of an entry: its mark, or the closing brace. */
  ghost function Next(e: Entry, rest: string, post: string): string {
    if e.mark == "" then "}" + post else e.mark + (rest + post)
  }

  lemma EntryText(e: Entry, rest: string)
    ensures SpellEntry(e) + rest
         == e.before + (e.spelling + (e.middle + (":" + (e.gap + (Spell(e.item) + (e.after + (e.mark + rest)))))))
  {
    hide Spell;
  }

  /** What the reader makes of the mark. */
  lemma MarkRead(e: Entry, rest: string, post: string)
    requires Gap(e.after) && (e.mark == "" || MarkIs(e.after, e.mark, rest))
    ensures MemberEnd(e.after + Next(e, rest, post)) == if e.mark == "" then Closed(post) else More(rest + post)
    ensures Next(e, rest, post) != "" && (e.after == "" ==> Delimits(Next(e, rest, post)))
  {
    hide NextToken, NextRealToken, Gap, Blanks;
    if e.mark == "" {
      GapMemberEnd(e.after, '}', post);
    } else if e.mark == "," {
      GapMemberEnd(e.after, ',', rest + post);
    } else {
      NoBlanks();
      GapComment(e.after, e.mark + (rest + post));
      RealToken(e.mark + (rest + post));
    }
  }

  lemma NoBlanks()
    ensures Blanks("")
  {
  }

  /** The reader takes an entry and the mark after it. */
  lemma {:induction false} EntryStep(e: Entry, before: seq<Member>, last: string, rest: string, post: string)
    requires ProperEntry(e) && (e.mark == "" || MarkIs(e.after, e.mark, rest))
    ensures var done := Insert(before, e.name, ReadBack(Content(e.item)));
            var r := ParseMembers(SpellEntry(e) + (if e.mark == "" then "}" + post else rest + post), before, last);
            r == if e.mark == "" then Some(Parsed(Obj(done), post)) else ParseMembers(rest + post, done, e.name)
    decreases e, 2
  {
    hide NextToken, NextRealToken, ParseValue, ParseMembers, StringIs, Insert, Spell, DecodeString, ReadBack, Content;
    hide Gap, MemberEnd, SpellEntry, Blanks, MarkIs, Proper, Next;
    var next := Next(e, rest, post);
    var value := e.gap + (Spell(e.item) + (e.after + next));
    var s := SpellEntry(e) + (if e.mark == "" then "}" + post else rest + post);
    EntryText(e, if e.mark == "" then "}" + post else rest + post);
    NextIs(e, rest, post);
    assert s == e.before + (e.spelling + (e.middle + (":" + value)));
    EntryTokens(e, value);
    MarkRead(e, rest, post);
    ReadBetween(e.gap, e.item, e.after, next);
    MembersStep(s, before, last);
  }

  lemma NextIs(e: Entry, rest: string, post: string)
    ensures Next(e, rest, post) == e.mark + (if e.mark == "" then "}" + post else rest + post)
  {
  }

  /** The name and the colon. */
  lemma EntryTokens(e: Entry, value: string)
    requires StringIs(e.spelling, e.name) && Gap(e.before) && Blanks(e.middle)
    ensures var t := NextRealToken(e.before + (e.spelling + (e.middle + (":" + value))));
            && t.kind == StringTok && DecodeString(t.text) == Some(e.name)
            && NextToken(t.rest).kind == Colon && NextToken(t.rest).rest == value
  {
    hide NextToken, NextRealToken, StringIs, DecodeString, Gap, Blanks, StartOf, SkipSpaces, ParseValue;
    var tail := e.middle + (":" + value);
    GapToken(e.before, e.spelling + tail);
    StringReads(e.spelling, e.name, tail);
    RealToken(e.spelling + tail);
    ColonToken(e.middle, value);
  }

  lemma ColonToken(middle: string, value: string)
    requires Blanks(middle)
    ensures NextToken(middle + (":" + value)) == Token(Colon, ":", value)
  {
    hide NextToken, Blanks, SkipSpaces, NextRealToken;
    BlanksSkip(middle, ":" + value);
    PunctuationToken(':', value);
  }

  lemma EntriesText(entries: seq<Entry>, close: string)
    requires entries != []
    ensures SpellEntries(entries) + close == SpellEntry(entries[0]) + (SpellEntries(entries[1..]) + close)
  {
    hide SpellEntry;
  }

  /** From some entry on, with the members before it gathered. */
  lemma {:induction false} ReadEntries(entries: seq<Entry>, gap: string, last: string, ms: seq<Member>, post: string)
    requires ProperEntries(entries, gap, last)
    ensures ParseMembers(SpellEntries(entries) + (gap + ("}" + post)), ReadMembers(ms), last)
         == Some(Parsed(Obj(ReadMembers(ms + ContentEntries(entries))), post))
    decreases entries, 2
  {
    hide ParseMembers, SpellEntries, SpellEntry, ReadBack, ReadMembers, Gap, Content, ProperEntry, MarkIs;
    var close := gap + ("}" + post);
    if entries == [] {
      NoEntries(gap, ReadMembers(ms), post);
      assert SpellEntries(entries) + close == close by { NothingSpelled(close); }
      assert ms + ContentEntries(entries) == ms;
    } else {
      var e, others := entries[0], entries[1..];
      var done, rest := ms + [Member(e.name, Content(e.item))], SpellEntries(others) + gap + "}";
      EntriesText(entries, close);
      EntryStep(e, ReadMembers(ms), last, rest, post);
      ReadAnother(ms, e.name, Content(e.item));
      ContentFirst(entries, ms);
      assert rest + post == SpellEntries(others) + close;
      if e.mark == "" {
        NothingSpelled(close);
        assert SpellEntries(others) + close == "}" + post;
        assert done + ContentEntries(others) == done;
      } else {
        ReadEntries(others, gap, e.name, done, post);
      }
    }
  }

  lemma NothingSpelled(close: string)
    ensures SpellEntries([]) + close == close
  {
  }

  lemma ReadAnother(ms: seq<Member>, name: string, value: Value)
    ensures ReadMembers(ms + [Member(name, value)]) == Insert(ReadMembers(ms), name, ReadBack(value))
  {
    hide Insert, ReadBack;
    assert (ms + [Member(name, value)])[..|ms|] == ms;
  }

  lemma ContentFirst(entries: seq<Entry>, ms: seq<Member>)
    requires entries != []
    ensures ms + ContentEntries(entries)
         == ms + [Member(entries[0].name, Content(entries[0].item))] + ContentEntries(entries[1..])
  {
    hide Content;
  }

  // --- every text of a value ----------------------------------------------------------------------

  /** The document is a text of the value: gaps, tokens and gaps. */
  ghost predicate IsText(doc: string, v: Value) {
    exists before: string, d: Doc, after: string ::
      Gap(before) && Gap(after) && Proper(d) && Content(d) == v && doc == before + (Spell(d) + after)
  }

  /** Whatever its layout, its comments, its spelling, the order of its members and its repeated names. */
  lemma ReadsMeaning(doc: string, v: Value)
    requires IsText(doc, v)
    ensures ParseValue(doc).Some? && Means(v, ParseValue(doc).value.value)
  {
    hide ParseValue, Spell, Content, Proper, ReadBack, Means, Gap;
    var before: string, d: Doc, after: string :|
      Gap(before) && Gap(after) && Proper(d) && Content(d) == v && doc == before + (Spell(d) + after);
    GapEnds(after);
    ReadDoc(d, after);
    GapBeforeValue(before, Spell(d) + after);
    ReadBackMeans(v);
  }

  lemma GapEnds(g: string)
    requires Gap(g)
    ensures Delimits(g)
  {
    if g != "" && !Blank(g[0]) {
      var k :| 0 < k <= |g| && IsComment(g[..k]) && Gap(g[k..]);
      assert g[0] == g[..k][0] == g[..k][..2][0];
    }
  }

  // --- the compact text -----------------------------------------------------------------------------

  /** Nothing between the tokens. */
  function Compact(v: Value): (d: Doc)
    decreases v, 0
  {
    match v
    case Arr(items) => List("", CompactItems(items))
    case Obj(ms) => Table(CompactMembers(ms), "")
    case _ => Atom(v, Fast(v))
  }

  function CompactItems(items: seq<Value>): (r: seq<Elem>)
    ensures |r| == |items| && forall i | 0 <= i < |r| :: r[i] == Elem("", Compact(items[i]), "")
    decreases items, 1
  {
    if items == [] then [] else [Elem("", Compact(items[0]), "")] + CompactItems(items[1..])
  }

  function CompactMember(m: Member, last: bool): Entry
    decreases m, 1
  {
    Entry("", m.name, Quoted(m.name), "", "", Compact(m.value), "", if last then "" else ",")
  }

  function CompactMembers(ms: seq<Member>): (r: seq<Entry>)
    ensures |r| == |ms|
    decreases ms, 1
  {
    if ms == [] then [] else [CompactMember(ms[0], |ms| == 1)] + CompactMembers(ms[1..])
  }

  lemma {:induction false} CompactIs(v: Value)
    requires Writable(v)
    ensures Proper(Compact(v)) && Content(Compact(v)) == v && Spell(Compact(v)) == Fast(v)
    decreases v, 0
  {
    hide ScalarIs, ProperEntries;
    match v
    case Arr(items) =>
      CompactItemsAre(items);
      assert "" + "]" == "]";
    case Obj(ms) =>
      CompactMembersAre(ms, "");
      assert FastMembers(ms) + "" == FastMembers(ms);
    case _ => FastIsScalar(v);
  }

  lemma {:induction false} CompactItemsAre(items: seq<Value>)
    requires forall x | x in items :: Writable(x)
    ensures var es := CompactItems(items);
            (forall e | e in es :: ProperElem(e)) && ContentElems(es) == items && SpellElems(es) == FastItems(items)
    decreases items, 1
  {
    hide Proper, Content, Spell, Fast, Compact, Writable;
    if items != [] {
      CompactIs(items[0]);
      CompactItemsAre(items[1..]);
      assert "" + Spell(Compact(items[0])) + "" == Fast(items[0]);
    }
  }

  lemma {:induction false} CompactMemberIs(m: Member, last: bool)
    requires NulFree(m.name) && Writable(m.value)
    ensures var e := CompactMember(m, last);
            && ProperEntry(e) && e.name == m.name && Content(e.item) == m.value
            && SpellEntry(e) == Quoted(m.name) + ":" + Fast(m.value) + e.mark
    decreases m, 1
  {
    hide Proper, Content, Spell, Fast, Compact, Quoted, Writable, NulFree, StringIs;
    CompactIs(m.value);
    QuotedIs(m.name);
    var e := CompactMember(m, last);
    assert "" + Quoted(m.name) + "" + ":" + "" + Fast(m.value) + "" + e.mark == Quoted(m.name) + ":" + Fast(m.value) + e.mark;
  }

  lemma {:induction false} CompactMembersAre(ms: seq<Member>, last: string)
    requires (forall m | m in ms :: NulFree(m.name) && Writable(m.value)) && (ms == [] ==> last == "")
    ensures var es := CompactMembers(ms);
            ProperEntries(es, "", last) && ContentEntries(es) == ms && SpellEntries(es) == FastMembers(ms)
    decreases ms, 2
  {
    hide Content, Fast, Quoted, Writable, NulFree, ProperEntry, ProperEntries, SpellEntry, SpellEntries, CompactMember, ContentEntries;
    if ms == [] {
      NoEntriesAre();
    } else {
      var e, others := CompactMember(ms[0], |ms| == 1), CompactMembers(ms[1..]);
      CompactMemberIs(ms[0], |ms| == 1);
      CompactMark(ms[0], |ms| == 1);
      if |ms| > 1 {
        CompactMembersAre(ms[1..], ms[0].name);
      } else {
        NoEntriesAre();
        OneFast(ms[0]);
      }
      EntryInFront(e, others);
      ProperInFront(e, others, last);
      assert ms == [ms[0]] + ms[1..];
    }
  }

  lemma NoEntriesAre()
    ensures SpellEntries([]) == "" && ContentEntries([]) == [] && ProperEntries([], "", "")
  {
  }

  lemma CompactMark(m: Member, last: bool)
    ensures CompactMember(m, last).mark == if last then "" else ","
  {
    hide Compact, Quoted;
  }

  lemma OneFast(m: Member)
    ensures FastMembers([m]) == Quoted(m.name) + ":" + Fast(m.value) + "" + ""
  {
    hide Fast, Quoted;
  }

  /** Reading the compact text of any value, in front of anything, returns the value as the reader tags it. */
  lemma ParseFast(v: Value, post: string)
    requires Writable(v) && Delimits(post)
    ensures ParseValue(Fast(v) + post) == Some(Parsed(ReadBack(v), post))
  {
    hide ParseValue, Spell, Content, Proper, ReadBack, Writable, Fast, Compact, Delimits;
    CompactIs(v);
    ReadDoc(Compact(v), post);
  }

  /** FastWriter::write followed by Reader::parse: every printable value comes back. */
  lemma RoundTrip(v: Value)
    requires Printable(v)
    ensures ParseValue(Fast(v) + "\n") == Some(Parsed(Retagged(v), "\n"))
  {
    hide ParseValue, Fast, ReadBack, Writable, Printable, Retagged;
    ReadBackPrintable(v);
    ParseFast(v, "\n");
  }
}
