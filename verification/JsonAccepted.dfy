/**
 Exactly which texts the reader of lib/json/jsoncpp.cpp accepts, and as what: whatever it reads a value from
 is a text of that value.
 */
module JsonAccepted {
  import opened JsonSpec
  import opened JsonMembers
  import opened JsonText
  import opened JsonTokens
  import opened JsonStrings
  import opened JsonScalars
  import opened JsonReading

  // --- what stands before a token --------------------------------------------------------

  lemma {:induction false} CCommentIs(s: string)
    ensures var r := CCommentEnd(s);
            if !r.1 then r.0 == |s|
            else
              && 2 <= r.0 <= |s| && s[r.0 - 2] == '*' && s[r.0 - 1] == '/'
              && forall i | 0 <= i < r.0 - 2 :: !(s[i] == '*' && s[i + 1] == '/')
    decreases |s|
  {
    if s != "" && !(s[0] == '*' && |s| > 1 && s[1] == '/') {
      CCommentIs(s[1..]);
      var n: int := CCommentEnd(s).0;
      forall i | 0 <= i < n - 2 && CCommentEnd(s).1 ensures !(s[i] == '*' && s[i + 1] == '/') {
        assert i > 0 ==> s[i] == s[1..][i - 1] && s[i + 1] == s[1..][i];
      }
    }
  }

  lemma {:induction false} LineCommentIs(s: string)
    ensures var n := LineCommentEnd(s);
            && (n == |s| || (0 < n && NewLine(s[n - 1])))
            && forall i | 0 <= i < n - 1 :: !NewLine(s[i])
    decreases |s|
  {
    if s != "" && !NewLine(s[0]) {
      LineCommentIs(s[1..]);
      var n := LineCommentEnd(s);
      forall i | 0 <= i < n - 1 ensures !NewLine(s[i]) {
        assert i > 0 ==> s[i] == s[1..][i - 1];
      }
    }
  }

  /** A comment token is a comment, or a last line. */
  lemma CommentTokenIs(s: string)
    requires s != "" && TokenAt(s).kind == Comment && TokenAt(s).rest != ""
    ensures IsComment(TokenAt(s).text)
  {
    hide StringEnd, NumberEnd, CCommentEnd, LineCommentEnd;
    SlashStarts(s);
    var t := TokenAt(s).text;
    if s[1] == '*' {
      CCommentIs(s[2..]);
      assert forall i | 2 <= i < |t| :: t[i] == s[2..][i - 2];
    } else {
      LineCommentIs(s[2..]);
      assert forall i | 2 <= i < |t| :: t[i] == s[2..][i - 2];
    }
  }

  lemma SlashStarts(s: string)
    requires s != "" && TokenAt(s).kind == Comment
    ensures s[0] == '/' && |s| >= 2 && TokenAt(s) == CommentToken(s)
    ensures (s[1] == '*' && CCommentEnd(s[2..]).1) || s[1] == '/'
  {
    hide StringEnd, NumberEnd, CCommentEnd, LineCommentEnd;
  }

  lemma CommentGap(c: string, g: string)
    requires IsComment(c) && Gap(g)
    ensures Gap(c + g)
  {
    hide IsComment;
    assert (c + g)[..|c|] == c && (c + g)[|c|..] == g;
  }

  lemma {:induction false} BlanksBeforeGap(b: string, g: string)
    requires Blanks(b) && Gap(g)
    ensures Gap(b + g)
    decreases |b|
  {
    if b == "" {
      assert b + g == g;
    } else {
      BlanksBeforeGap(b[1..], g);
      assert (b + g)[1..] == b[1..] + g;
    }
  }

  /** White space, and then the token. */
  lemma TokenSplit(s: string) returns (b: string)
    requires NextToken(s).text != ""
    ensures var t := NextToken(s);
            Blanks(b) && s == b + (t.text + t.rest) && t.text + t.rest != "" && TokenAt(t.text + t.rest) == t
  {
    hide TokenAt, SkipSpaces;
    b := SpacesAre(s);
    TokenIs(SkipSpaces(s));
  }

  /** A gap, and then the token. */
  lemma {:induction false} RealTokenSplit(s: string) returns (g: string)
    requires NextRealToken(s).text != ""
    ensures var t := NextRealToken(s);
            Gap(g) && s == g + (t.text + t.rest) && t.text + t.rest != "" && TokenAt(t.text + t.rest) == t
    decreases |s|
  {
    hide TokenAt, NextToken, Gap;
    NotAtEnd(s);
    var b := TokenSplit(s);
    var t := NextToken(s);
    if t.kind == Comment {
      var g' := RealTokenSplit(t.rest);
      SomethingLeft(t.rest);
      CommentTokenIs(t.text + t.rest);
      CommentGap(t.text, g');
      BlanksBeforeGap(b, t.text + g');
      g := b + (t.text + g');
    } else {
      BlanksGap(b);
      g := b;
    }
  }

  lemma NotAtEnd(s: string)
    requires NextRealToken(s).text != ""
    ensures NextToken(s).text != ""
  {
    hide TokenAt, SkipSpaces;
    if SkipSpaces(s) != "" {
      TokenIs(SkipSpaces(s));
    }
  }

  lemma SomethingLeft(s: string)
    requires NextRealToken(s).text != ""
    ensures s != ""
  {
  }

  /** Only the end of the text has an empty token. */
  lemma HasText(s: string)
    ensures NextToken(s).kind != EndOfStream ==> NextToken(s).text != ""
    ensures NextRealToken(s).kind != EndOfStream ==> NextRealToken(s).text != ""
    decreases |s|
  {
    hide TokenAt, SkipSpaces;
    if SkipSpaces(s) != "" {
      TokenIs(SkipSpaces(s));
      if NextToken(s).kind == Comment {
        HasText(NextToken(s).rest);
      }
    }
  }

  /** The marks. */
  lemma MarkTokenIs(s: string)
    requires s != ""
    ensures var t := TokenAt(s);
            && (t.kind == ObjectBegin ==> t.text == "{") && (t.kind == ObjectEnd ==> t.text == "}")
            && (t.kind == ArrayBegin ==> t.text == "[") && (t.kind == ArrayEnd ==> t.text == "]")
            && (t.kind == Separator ==> t.text == ",") && (t.kind == Colon ==> t.text == ":")
  {
    hide StringEnd, NumberEnd, CCommentEnd, LineCommentEnd;
  }

  // --- odd marks ---------------------------------------------------------------------------

  lemma {:induction false} Unclosed(s: string)
    requires !StringEnd(s).1
    ensures StringEnd(s).0 == |s|
    decreases |s|
  {
    if s != "" {
      Unclosed(s[if s[0] == '\\' && |s| > 1 then 2 else 1..]);
    }
  }

  /** The token at the start does not depend on what comes behind a closing brace. */
  lemma TokenStays(m: string, f: string, post: string, other: string)
    requires f != "" && f[|f| - 1] == '}' && m != "" && TokenAt(m + (f + post)).text == m
    requires TokenAt(m + (f + post)).kind != Comment
    ensures TokenAt(m + (f + other)) == Token(TokenAt(m + (f + post)).kind, m, f + other)
  {
    hide TokenAt, StringEnd, NumberEnd, CommentToken, Cut;
    var s, s' := m + (f + post), m + (f + other);
    assert s[0] == m[0] == s'[0];
    match StartOf(m[0])
    case Quote => QuoteStays(m, f, post, other);
    case Slash => SlashStays(m, f, post, other);
    case Word(_, _) => WordStays(m, f, post, other);
    case Numeric => NumberStays(m, f, post, other);
    case _ => OneStays(m, f, post, other);
  }

  lemma OneStays(m: string, f: string, post: string, other: string)
    requires m != "" && TokenAt(m + (f + post)).text == m
    requires StartOf(m[0]).Mark? || StartOf(m[0]) == Terminator || StartOf(m[0]) == Other
    ensures TokenAt(m + (f + other)) == Token(TokenAt(m + (f + post)).kind, m, f + other)
  {
    hide StringEnd, NumberEnd, CommentToken, StartOf;
    assert |m| == 1;
    assert (m + (f + other))[..1] == m && (m + (f + other))[1..] == f + other;
  }

  lemma NumberStays(m: string, f: string, post: string, other: string)
    requires f != "" && m != "" && TokenAt(m + (f + post)).text == m && StartOf(m[0]) == Numeric
    ensures TokenAt(m + (f + other)) == Token(TokenAt(m + (f + post)).kind, m, f + other)
  {
    hide TokenAt, NumberEnd, NextToken, NextRealToken;
    var s := m + (f + post);
    TokenIs(s);
    NumberKind(s);
    NumberKind(m + (f + other));
    assert (m + TokenAt(s).rest)[|m|..] == TokenAt(s).rest && s[|m|..] == f + post;
    NumberToken(m, f + other);
    Lexed(m + (f + other));
  }

  lemma NumberKind(s: string)
    requires s != "" && StartOf(s[0]) == Numeric
    ensures TokenAt(s).kind == Number && !IsSpace(s[0])
  {
    hide NumberEnd;
  }

  lemma QuoteStays(m: string, f: string, post: string, other: string)
    requires f != "" && m != "" && TokenAt(m + (f + post)).text == m && StartOf(m[0]) == Quote
    ensures TokenAt(m + (f + other)) == Token(TokenAt(m + (f + post)).kind, m, f + other)
  {
    hide StringEnd;
    var s, s' := m + (f + post), m + (f + other);
    var n := |m| - 1;
    assert s[1..] == m[1..] + (f + post) && s'[1..] == m[1..] + (f + other);
    if StringEnd(s[1..]).1 {
      StringCloses(s[1..], n);
      assert s[1..][..n] == m[1..];
      assert s'[..|m|] == m && s'[|m|..] == f + other;
    } else {
      Unclosed(s[1..]);
      assert false;
    }
  }

  lemma SlashStays(m: string, f: string, post: string, other: string)
    requires f != "" && m != "" && TokenAt(m + (f + post)).text == m && StartOf(m[0]) == Slash
    requires TokenAt(m + (f + post)).kind != Comment
    ensures TokenAt(m + (f + other)) == Token(TokenAt(m + (f + post)).kind, m, f + other)
  {
    hide CCommentEnd, LineCommentEnd;
    var s, s' := m + (f + post), m + (f + other);
    CCommentIs(s[2..]);
    assert |m| == 2;
    assert s'[..2] == m && s'[2..] == f + other && s'[1] == s[1] == m[1];
  }

  lemma WordStays(m: string, f: string, post: string, other: string)
    requires f != "" && f[|f| - 1] == '}' && m != "" && TokenAt(m + (f + post)).text == m && StartOf(m[0]).Word?
    ensures TokenAt(m + (f + other)) == Token(TokenAt(m + (f + post)).kind, m, f + other)
  {
    var s, s' := m + (f + post), m + (f + other);
    var word := StartOf(m[0]).word;
    assert forall i | 0 <= i < |word| :: word[i] != '}';
    assert s[|m| + |f| - 1] == '}' == s'[|m| + |f| - 1];
    assert forall i | 0 <= i < |m| + |f| :: s[i] == s'[i];
    assert word <= s <==> word <= s';
    assert s'[..|m|] == m && s'[|m|..] == f + other;
  }

  lemma OddMarkIs(m: string, f: string, post: string)
    requires f != "" && f[|f| - 1] == '}' && m != "" && TokenAt(m + (f + post)).text == m && !IsSpace(m[0])
    requires TokenAt(m + (f + post)).kind != Comment && TokenAt(m + (f + post)).kind != ObjectEnd
    ensures OddMark(m, f)
  {
    hide TokenAt, NextToken, SkipSpaces;
    forall other: string
      ensures var t := NextToken(m + (f + other)); t.kind != ObjectEnd && t.kind != Comment && t.text == m && t.rest == f + other
    {
      TokenStays(m, f, post, other);
      Lexed(m + (f + other));
    }
  }

  // --- what a value is read from -------------------------------------------------------------

  /** The text is a gap, a text of the value and the rest. */
  ghost predicate ReadsFrom(s: string, g: string, d: Doc, p: Parsed) {
    Gap(g) && Proper(d) && Ends(d, p.rest) && s == g + (Spell(d) + p.rest) && ReadBack(Content(d)) == p.value
  }

  lemma {:induction false} ValueIsDoc(s: string) returns (g: string, d: Doc)
    requires ParseValue(s).Some?
    ensures ReadsFrom(s, g, d, ParseValue(s).value)
    decreases |s|, 4
  {
    hide NextRealToken, ParseValue, ParseArray, ParseMembers, ParseScalar, TokenAt, Gap, ScalarIs, ProperEntries, NumberText;
    ValueOfToken(s);
    HasText(s);
    var t := NextRealToken(s);
    g := RealTokenSplit(s);
    MarkTokenIs(t.text + t.rest);
    if t.kind == ObjectBegin {
      NoMembers();
      var entries, gap := MembersAreEntries(t.rest, [], "");
      d := TableRead(t.rest, entries, gap, ParseValue(s).value);
    } else if t.kind == ArrayBegin {
      var gap, elems := ArrayIsList(t.rest);
      d := ListRead(t.rest, gap, elems, ParseValue(s).value);
    } else {
      ScalarRead(t.text + t.rest);
      d := Atom(ParseScalar(t).value.value, t.text);
    }
  }

  lemma NoMembers()
    ensures ReadMembers([]) == []
  {
  }

  lemma TableRead(s: string, entries: seq<Entry>, gap: string, p: Parsed) returns (d: Doc)
    requires ProperEntries(entries, gap, "") && s == SpellEntries(entries) + (gap + ("}" + p.rest))
    requires p.value == Obj(ReadMembers([] + ContentEntries(entries)))
    ensures Proper(d) && Ends(d, p.rest) && "{" + s == Spell(d) + p.rest && ReadBack(Content(d)) == p.value
  {
    hide ProperEntries, SpellEntries, ReadMembers, ContentEntries;
    d := Table(entries, gap);
    TableText(entries, gap, p.rest);
    assert [] + ContentEntries(entries) == ContentEntries(entries);
  }

  lemma ListRead(s: string, gap: string, elems: seq<Elem>, p: Parsed) returns (d: Doc)
    requires Proper(List(gap, elems)) && s == (if elems == [] then gap else SpellElems(elems)) + ("]" + p.rest)
    requires p.value == Arr(ReadItems(ContentElems(elems)))
    ensures Proper(d) && Ends(d, p.rest) && "[" + s == Spell(d) + p.rest && ReadBack(Content(d)) == p.value
  {
    hide Proper, SpellElems, ReadItems, ContentElems;
    d := List(gap, elems);
    ListText(gap, elems, p.rest);
  }

  // --- arrays ----------------------------------------------------------------------------------

  lemma {:induction false} ArrayIsList(s: string) returns (gap: string, elems: seq<Elem>)
    requires ParseArray(s).Some?
    ensures var p := ParseArray(s).value;
            && Proper(List(gap, elems)) && s == (if elems == [] then gap else SpellElems(elems)) + ("]" + p.rest)
            && p.value == Arr(ReadItems(ContentElems(elems)))
    decreases |s|, 7
  {
    hide ParseItems, SkipSpaces, SpellElems, ProperElem, ReadBack, Content, Spell;
    var body := SkipSpaces(s);
    if body != "" && body[0] == ']' {
      gap := SpacesAre(s);
      elems := [];
      assert body == "]" + body[1..];
    } else {
      gap := "";
      elems := ItemsAreElems(s, []);
      assert [] + ReadItems(ContentElems(elems)) == ReadItems(ContentElems(elems));
    }
  }

  /** An item and the mark behind it. */
  lemma {:induction false} ItemIsElem(s: string) returns (e: Elem)
    requires ParseValue(s).Some?
    requires var t := NextRealToken(ParseValue(s).value.rest); t.kind == ArrayEnd || t.kind == Separator
    ensures var t := NextRealToken(ParseValue(s).value.rest);
            && ProperElem(e) && ReadBack(Content(e.item)) == ParseValue(s).value.value
            && s == e.before + (Spell(e.item) + (e.after + ((if t.kind == ArrayEnd then "]" else ",") + t.rest)))
    decreases |s|, 5
  {
    hide NextRealToken, ParseValue, TokenAt, Proper, Gap, Spell, Content, ReadBack, Ends;
    var v := ParseValue(s).value;
    var g, d := ValueIsDoc(s);
    HasText(v.rest);
    var t := NextRealToken(v.rest);
    var after := RealTokenSplit(v.rest);
    MarkTokenIs(t.text + t.rest);
    e := Elem(g, d, after);
  }

  lemma {:induction false} ItemsAreElems(s: string, before: seq<Value>) returns (elems: seq<Elem>)
    requires ParseItems(s, before).Some?
    ensures var p := ParseItems(s, before).value;
            && elems != [] && (forall e | e in elems :: ProperElem(e)) && s == SpellElems(elems) + ("]" + p.rest)
            && p.value == Arr(before + ReadItems(ContentElems(elems)))
    decreases |s|, 6
  {
    hide NextRealToken, ParseValue, SpellElems, ContentElems, ReadItems, Spell, Content, ReadBack, ProperElem;
    var v := ParseValue(s).value;
    var t := NextRealToken(v.rest);
    var e := ItemIsElem(s);
    if t.kind == ArrayEnd {
      elems := [e];
      OneElem(e, "]" + t.rest);
      ItemsOf(e, []);
    } else {
      var rest := ItemsAreElems(t.rest, before + [v.value]);
      elems := [e] + rest;
      MoreElems(e, rest, "]" + ParseItems(s, before).value.rest);
      ItemsOf(e, rest);
      assert before + ([v.value] + ReadItems(ContentElems(rest))) == before + [v.value] + ReadItems(ContentElems(rest));
    }
  }

  lemma OneElem(e: Elem, close: string)
    ensures SpellElems([e]) + close == e.before + (Spell(e.item) + (e.after + close))
  {
    hide Spell;
  }

  lemma MoreElems(e: Elem, rest: seq<Elem>, close: string)
    requires rest != []
    ensures SpellElems([e] + rest) + close == e.before + (Spell(e.item) + (e.after + ("," + (SpellElems(rest) + close))))
  {
    hide Spell;
    assert ([e] + rest)[1..] == rest;
  }

  lemma ItemsOf(e: Elem, rest: seq<Elem>)
    ensures ReadItems(ContentElems([e] + rest)) == [ReadBack(Content(e.item))] + ReadItems(ContentElems(rest))
    ensures [e] + [] == [e] && ReadItems(ContentElems([])) == []
  {
    hide Content, ReadBack;
    assert ([e] + rest)[1..] == rest;
  }

  // --- objects ------------------------------------------------------------------------------------

  /** What follows a member is a gap and a mark, or the closing brace. */
  lemma MemberEndIs(s: string) returns (after: string, mark: string)
    requires MemberEnd(s) != Missing && (MemberEnd(s).More? ==> MemberEnd(s).rest != "")
    ensures var r := MemberEnd(s).rest;
            && Gap(after)
            && (MemberEnd(s).Closed? ==> mark == "" && s == after + ("}" + r))
            && (MemberEnd(s).More? ==>
                  && mark != "" && s == after + (mark + r)
                  && (mark == "," || (!Blanks(after) && !IsSpace(mark[0]) && TokenAt(mark + r).text == mark
                                      && TokenAt(mark + r).kind != Comment && TokenAt(mark + r).kind != ObjectEnd)))
  {
    hide NextToken, NextRealToken, TokenAt, Gap, Blanks;
    HasText(s);
    var comma := NextToken(s);
    var blanks := TokenSplit(s);
    if comma.kind == Comment {
      var token := NextRealToken(comma.rest);
      RealAfterComment(s);
      EndIsEmpty(comma.rest);
      after := RealTokenSplit(s);
      MarkTokenIs(token.text + token.rest);
      mark := if token.kind == ObjectEnd then "" else token.text;
      NotSpace(s);
      NotBlanks(after, token.text + token.rest);
    } else {
      after := blanks;
      BlanksGap(after);
      MarkTokenIs(comma.text + comma.rest);
      mark := if comma.kind == ObjectEnd then "" else ",";
    }
  }

  lemma EndIsEmpty(s: string)
    ensures NextRealToken(s).text == "" ==> NextRealToken(s).rest == ""
    decreases |s|
  {
    hide TokenAt, SkipSpaces;
    if SkipSpaces(s) != "" {
      TokenIs(SkipSpaces(s));
      if NextToken(s).kind == Comment {
        EndIsEmpty(NextToken(s).rest);
      }
    }
  }

  /** A token starts with no space. */
  lemma NotSpace(s: string)
    requires NextRealToken(s).text != ""
    ensures !IsSpace(NextRealToken(s).text[0])
    decreases |s|
  {
    hide TokenAt, SkipSpaces;
    if SkipSpaces(s) != "" {
      TokenIs(SkipSpaces(s));
      if NextToken(s).kind == Comment {
        NotSpace(NextToken(s).rest);
      }
    }
  }

  /** A comment in front of a token that is none does not come from blanks. */
  lemma NotBlanks(after: string, rest: string)
    requires NextToken(after + rest).kind == Comment && rest != "" && !IsSpace(rest[0]) && TokenAt(rest).kind != Comment
    ensures !Blanks(after)
  {
    hide TokenAt, Blanks, NextToken;
    if Blanks(after) {
      BlanksSkip(after, rest);
      Lexed(rest);
    }
  }

  lemma {:induction false} MembersAreEntries(s: string, ms: seq<Member>, last: string) returns (entries: seq<Entry>, gap: string)
    requires ParseMembers(s, ReadMembers(ms), last).Some?
    ensures var p := ParseMembers(s, ReadMembers(ms), last).value;
            && ProperEntries(entries, gap, last) && s == SpellEntries(entries) + (gap + ("}" + p.rest))
            && p.value == Obj(ReadMembers(ms + ContentEntries(entries)))
    decreases |s|, 5
  {
    hide NextRealToken, NextToken, DecodeString, ParseMembers, ParseValue, Insert, MemberEnd, TokenAt, ReadMembers, Gap;
    MembersStep(s, ReadMembers(ms), last);
    HasText(s);
    var t := NextRealToken(s);
    var before := RealTokenSplit(s);
    MarkTokenIs(t.text + t.rest);
    if t.kind == ObjectEnd {
      entries, gap := [], before;
      assert ms + ContentEntries([]) == ms;
    } else {
      entries, gap := EntryIs(s, ms, last, before);
    }
  }

  lemma {:induction false} EntryIs(s: string, ms: seq<Member>, last: string, before: string)
    returns (entries: seq<Entry>, gap: string)
    requires ParseMembers(s, ReadMembers(ms), last).Some? && NextRealToken(s).kind == StringTok && Gap(before)
    requires var t := NextRealToken(s); s == before + (t.text + t.rest) && t.text + t.rest != "" && TokenAt(t.text + t.rest) == t
    ensures var p := ParseMembers(s, ReadMembers(ms), last).value;
            && ProperEntries(entries, gap, last) && s == SpellEntries(entries) + (gap + ("}" + p.rest))
            && p.value == Obj(ReadMembers(ms + ContentEntries(entries)))
    decreases |s|, 4
  {
    hide NextRealToken, NextToken, DecodeString, ParseMembers, ParseValue, Insert, MemberEnd, TokenAt, ReadMembers, Gap;
    hide StringIs, Proper, SpellEntries, ProperEntries, ProperEntry, Spell, Content, ReadBack, Ends, MarkIs, ContentEntries;
    var t := NextRealToken(s);
    MembersStep(s, ReadMembers(ms), last);
    StringRead(t.text + t.rest);
    var name, colon := DecodeString(t.text).value, NextToken(t.rest);
    HasText(t.rest);
    var middle := TokenSplit(t.rest);
    MarkTokenIs(colon.text + colon.rest);
    var v := ParseValue(colon.rest).value;
    var g, d := ValueIsDoc(colon.rest);
    var end := MemberEnd(v.rest);
    if end.More? {
      NothingMore(end.rest, Insert(ReadMembers(ms), name, v.value), name);
    }
    var after, mark := MemberEndIs(v.rest);
    var e := Entry(before, name, t.text, middle, g, d, after, mark);
    ProperOne(e);
    ReadAnother(ms, name, Content(d));
    var done := ms + [Member(name, Content(d))];
    if end.Closed? {
      entries, gap := [e], "";
      LastEntry(e, last);
      OneEntry(e, "}" + end.rest);
      ContentOne(e, ms);
    } else {
      var others, gap' := MembersAreEntries(end.rest, done, name);
      entries, gap := [e] + others, gap';
      var post := ParseMembers(s, ReadMembers(ms), last).value.rest;
      FirstEntry(e, others, gap, last, post, end.rest);
      MoreEntries(e, others, gap + ("}" + post));
      ContentOf(e, others, ms);
    }
  }

  lemma NothingMore(rest: string, ms: seq<Member>, name: string)
    requires ParseMembers(rest, ms, name).Some?
    ensures rest != ""
  {
  }

  lemma ProperOne(e: Entry)
    requires Gap(e.before) && StringIs(e.spelling, e.name) && Blanks(e.middle) && Gap(e.gap) && Gap(e.after) && Proper(e.item)
    ensures ProperEntry(e)
  {
    hide Gap, StringIs, Blanks, Proper;
  }

  lemma LastEntry(e: Entry, last: string)
    requires ProperEntry(e) && e.mark == ""
    ensures ProperEntries([e], "", last)
  {
    hide ProperEntry;
  }

  lemma FirstEntry(e: Entry, others: seq<Entry>, gap: string, last: string, post: string, rest: string)
    requires ProperEntry(e) && ProperEntries(others, gap, e.name) && e.mark != ""
    requires rest == SpellEntries(others) + (gap + ("}" + post))
    requires e.mark == "," || (!Blanks(e.after) && !IsSpace(e.mark[0]) && TokenAt(e.mark + rest).text == e.mark
                               && TokenAt(e.mark + rest).kind != Comment && TokenAt(e.mark + rest).kind != ObjectEnd)
    ensures ProperEntries([e] + others, gap, last)
  {
    hide ProperEntry, TokenAt, Blanks, SpellEntries, OddMark;
    var f := SpellEntries(others) + gap + "}";
    assert rest == f + post;
    if e.mark != "," {
      OddMarkIs(e.mark, f, post);
    }
    assert ([e] + others)[1..] == others;
  }

  lemma OneEntry(e: Entry, close: string)
    requires e.mark == ""
    ensures SpellEntries([e]) + ("" + close)
         == e.before + (e.spelling + (e.middle + (":" + (e.gap + (Spell(e.item) + (e.after + close))))))
  {
    hide Spell;
    EntryText(e, close);
    assert e.mark + close == close;
  }

  lemma MoreEntries(e: Entry, others: seq<Entry>, close: string)
    ensures SpellEntries([e] + others) + close
         == e.before + (e.spelling + (e.middle + (":" + (e.gap + (Spell(e.item)
            + (e.after + (e.mark + (SpellEntries(others) + close))))))))
  {
    hide Spell;
    EntriesText([e] + others, close);
    EntryText(e, SpellEntries(others) + close);
    assert ([e] + others)[1..] == others;
  }

  lemma ContentOf(e: Entry, others: seq<Entry>, ms: seq<Member>)
    ensures ms + ContentEntries([e] + others) == ms + [Member(e.name, Content(e.item))] + ContentEntries(others)
  {
    hide Content, ContentEntries;
    ContentFirst([e] + others, ms);
    assert ([e] + others)[1..] == others;
  }

  lemma ContentOne(e: Entry, ms: seq<Member>)
    ensures ms + ContentEntries([e]) == ms + [Member(e.name, Content(e.item))]
  {
    hide Content;
  }

  // --- exactly ----------------------------------------------------------------------------------------

  /** The text starts with a text of something that stands for v, and the rest does not continue it. */
  ghost predicate StandsFor(s: string, v: Value, rest: string) {
    exists g: string, d: Doc ::
      Gap(g) && Proper(d) && Ends(d, rest) && s == g + (Spell(d) + rest) && Means(Content(d), v)
  }

  /** Reader::parse accepts exactly the texts of the grammar, each as what it stands for. */
  lemma AcceptedExactly(s: string, v: Value, rest: string)
    ensures ParseValue(s) == Some(Parsed(v, rest)) <==> StandsFor(s, v, rest)
  {
    hide ParseValue, Gap, Proper, Ends, Spell, Content, Means, ReadBack;
    if ParseValue(s) == Some(Parsed(v, rest)) {
      var g, d := ValueIsDoc(s);
      ReadBackMeans(Content(d));
    }
    if StandsFor(s, v, rest) {
      var g: string, d: Doc :| Gap(g) && Proper(d) && Ends(d, rest) && s == g + (Spell(d) + rest) && Means(Content(d), v);
      ReadDoc(d, rest);
      GapBeforeValue(g, Spell(d) + rest);
      ReadBackMeans(Content(d));
      MeansUnique(Content(d), v, ReadBack(Content(d)));
    }
  }

  /** A member with an empty name, a one for its value, and a comma. */
  const SLIP := Entry("", "", "\"\"", "", "", Atom(Int(1), "1"), "", ",")

  lemma SlipProper()
    ensures ProperEntry(SLIP) && SpellEntry(SLIP) == "\"\":1," && Content(SLIP.item) == Int(1)
  {
    hide Spells;
    EmptySpelled();
    assert "\"\""[1..1] == "";
    assert DecimalOf("1"[..0]) == 0 && NumberIs("1", Int(1));
  }

  lemma SlipTable()
    ensures Proper(Table([SLIP], "")) && Spell(Table([SLIP], "")) + "" == "{\"\":1,}"
    ensures ContentEntries([SLIP]) == [Member("", Int(1))]
  {
    hide ProperEntry, SpellEntry, Content;
    SlipProper();
    assert Gap("") && ProperEntries([], "", "") && [SLIP][1..] == [];
    assert SpellEntries([SLIP]) == SpellEntry(SLIP) + SpellEntries([]);
  }

  /** Behind an empty name a comma may stand before the closing brace, as if nothing had been read yet. */
  lemma CommaBehindEmptyName()
    ensures ParseValue("{\"\":1,}") == Some(Parsed(Obj([Member("", Tagged(1))]), ""))
  {
    hide ParseValue, Proper, Spell, ContentEntries, SLIP;
    SlipTable();
    ReadDoc(Table([SLIP], ""), "");
    ReadAnother([], "", Int(1));
    NoMembers();
    assert [] + [Member("", Int(1))] == [Member("", Int(1))];
  }
}
