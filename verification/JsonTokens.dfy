/**
 The tokens that the reader of lib/json/jsoncpp.cpp finds at the start of a text.
 */
module JsonTokens {
  import opened JsonSpec
  import opened JsonText

  /** Without leading space, the next token starts with the text. */
  lemma Lexed(s: string)
    requires s != "" && !IsSpace(s[0])
    ensures SkipSpaces(s) == s && NextToken(s) == TokenAt(s)
  {
    hide TokenAt;
  }

  /** The token after each kind of start. */
  lemma TokenOfStart(s: string)
    requires s != ""
    ensures var start := StartOf(s[0]);
            && (start != Other ==> !IsSpace(s[0]))
            && (start.Mark? || start.Word? ==> start.kind != Comment)
            && (start.Mark? ==> TokenAt(s) == Cut(start.kind, s, 1))
            && (start == Numeric ==> TokenAt(s) == Cut(Number, s, 1 + NumberEnd(s[1..])))
            && (start.Word? && start.word <= s && start.word != "" ==> TokenAt(s) == Cut(start.kind, s, |start.word|))
  {
    hide StringEnd, NumberEnd, CommentToken, Cut;
  }

  lemma RealToken(s: string)
    ensures NextToken(s).kind != Comment ==> NextRealToken(s) == NextToken(s)
  {
    hide NextToken;
  }

  lemma CutAppend(kind: Kind, t: string, post: string)
    ensures Cut(kind, t + post, |t|) == Token(kind, t, post)
  {
  }

  lemma PunctuationToken(c: char, post: string)
    requires StartOf(c).Mark?
    ensures StartOf(c).kind != Comment
    ensures NextToken([c] + post) == Token(StartOf(c).kind, [c], post)
    ensures NextRealToken([c] + post) == Token(StartOf(c).kind, [c], post)
  {
    hide NextToken, SkipSpaces, TokenAt, StartOf, IsSpace;
    var s := [c] + post;
    TokenOfStart(s);
    Lexed(s);
    assert s[..1] == [c] && s[1..] == post;
  }

  lemma MarkStart()
    ensures StartOf('{') == Mark(ObjectBegin) && StartOf('[') == Mark(ArrayBegin)
  {
  }

  lemma WordToken(word: string, post: string)
    requires word != "" && StartOf(word[0]).Word? && StartOf(word[0]).word == word
    ensures NextRealToken(word + post) == Token(StartOf(word[0]).kind, word, post)
  {
    hide NextToken, SkipSpaces, TokenAt, StartOf, IsSpace;
    var s := word + post;
    TokenOfStart(s);
    Lexed(s);
    assert word <= s && s[|word|..] == post && s[..|word|] == word;
  }

  lemma NumberToken(t: string, post: string)
    requires NumberText(t) && Delimits(post)
    ensures NextToken(t + post) == Token(Number, t, post)
    ensures NextRealToken(t + post) == Token(Number, t, post)
  {
    hide NextToken, NextRealToken, TokenAt, SkipSpaces, StartOf, NumberEnd, Cut, NumberText, NumberChar, IsSpace, Delimits;
    var s := t + post;
    NumberParts(t);
    TokenOfStart(s);
    Lexed(s);
    assert s[1..] == t[1..] + post;
    NumberEndAt(t[1..], post);
    CutAppend(Number, t, post);
    RealToken(s);
  }

  lemma NumberParts(t: string)
    requires NumberText(t)
    ensures t != "" && StartOf(t[0]) == Numeric && forall i | 0 <= i < |t[1..]| :: NumberChar(t[1..][i])
  {
    hide NumberChar;
    NumericStart(t[0]);
  }

  lemma NumericStart(c: char)
    requires c == '-' || Numeral(c)
    ensures StartOf(c) == Numeric
  {
  }

  lemma {:induction false} NumberEndAt(t: string, post: string)
    requires Delimits(post) && forall i | 0 <= i < |t| :: NumberChar(t[i])
    ensures NumberEnd(t + post) == |t|
    decreases |t|
  {
    if t == "" {
      assert t + post == post;
    } else {
      assert (t + post)[1..] == t[1..] + post;
      NumberEndAt(t[1..], post);
    }
  }

  lemma CutWhole(kind: Kind, s: string, n: nat)
    requires n <= |s|
    ensures var t := Cut(kind, s, n); t.kind == kind && t.text == s[..n] && t.rest == s[n..] && t.text + t.rest == s
  {
  }

  /** What each kind of scalar token is. */
  ghost predicate Telling(s: string, t: Token)
    requires s != ""
  {
    && t.text + t.rest == s
    && (t.kind == Number ==> NumberText(t.text) && Delimits(t.rest))
    && (t.kind == True ==> t.text == "true") && (t.kind == False ==> t.text == "false")
    && (t.kind == NullTok ==> t.text == "null")
    && (t.kind == StringTok ==> s[0] == '\"' && StringEnd(s[1..]) == (|t.text| - 1, true))
  }

  lemma TokenIs(s: string)
    requires s != ""
    ensures Telling(s, TokenAt(s))
  {
    hide StringEnd, NumberEnd, CommentToken, Cut, NumberText, Delimits;
    match StartOf(s[0])
    case Mark(kind) => CutWhole(kind, s, 1);
    case Quote =>
      var r := StringEnd(s[1..]);
      CutWhole(if r.1 then StringTok else Bad, s, 1 + r.0);
    case Slash => CommentWhole(s);
    case Word(kind, word) => WordWhole(s);
    case Numeric =>
      CutWhole(Number, s, 1 + NumberEnd(s[1..]));
      NumberTokenIs(s);
    case Terminator => CutWhole(EndOfStream, s, 1);
    case Other => CutWhole(Bad, s, 1);
  }

  lemma CommentWhole(s: string)
    requires s != ""
    ensures var t := CommentToken(s); t.text + t.rest == s && (t.kind == Comment || t.kind == Bad)
  {
    hide CCommentEnd, LineCommentEnd;
  }

  lemma WordWhole(s: string)
    requires s != "" && StartOf(s[0]).Word?
    ensures var start, t := StartOf(s[0]), TokenAt(s);
            && t.text + t.rest == s
            && ((t.kind == start.kind && t.text == start.word) || t.kind == Bad)
            && (start.kind == True ==> start.word == "true") && (start.kind == False ==> start.word == "false")
            && (start.kind == NullTok ==> start.word == "null") && start.kind in {True, False, NullTok}
  {
    hide StringEnd, NumberEnd, CommentToken;
  }

  lemma NumberTokenIs(s: string)
    requires s != "" && StartOf(s[0]) == Numeric
    ensures var n := 1 + NumberEnd(s[1..]); NumberText(s[..n]) && Delimits(s[n..])
  {
    var n := 1 + NumberEnd(s[1..]);
    forall i | 0 <= i < n ensures NumberChar(s[..n][i]) {
      assert i > 0 ==> s[i] == s[1..][i - 1];
    }
    assert n < |s| ==> s[n] == s[1..][n - 1];
  }

  lemma {:induction false} SpacesBefore(s: string)
    ensures forall i | 0 <= i < |s| - |SkipSpaces(s)| :: Blank(s[i])
    decreases |s|
  {
    if s != "" && IsSpace(s[0]) {
      SpacesBefore(s[1..]);
      forall i | 0 <= i < |s| - |SkipSpaces(s)| ensures Blank(s[i]) {
        assert i > 0 ==> s[i] == s[1..][i - 1];
      }
    }
  }

  lemma SpacesAre(s: string) returns (g: string)
    ensures Blanks(g) && s == g + SkipSpaces(s)
  {
    SpacesBefore(s);
    hide SkipSpaces;
    g := s[..|s| - |SkipSpaces(s)|];
  }

  lemma {:induction false} BlanksGap(g: string)
    requires Blanks(g)
    ensures Gap(g)
    decreases |g|
  {
    if g != "" {
      BlanksGap(g[1..]);
    }
  }
}
