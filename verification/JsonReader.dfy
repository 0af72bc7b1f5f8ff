/**
 The reader of lib/json/jsoncpp.cpp as it runs: a position in the document and a
 list of errors.  A value that the source stores through its stack of nodes is
 returned to the caller, who stores it.
 */
module JsonReader {
  import opened JsonSpec
  import opened JsonMembers
  import opened JsonTokens
  import opened JsonReading
  import opened JsonAccepted
  import opened JsonFastWriter
  import opened JsonLayout
  import opened JsonStyledWriter
  import opened JsonStyledLaws

  /** The messages of addError. */
  datatype Error =
    | NotANumber | FourDigitsExpected | HexDigitExpected | SixCharactersExpected | SecondHalfExpected
    | EmptyEscape | BadEscape | ValueExpected | ArrayMarkMissing | NameMissing | ColonMissing | ObjectMarkMissing

  class Reader {
    var document: string
    var current: nat
    var errors: seq<Error>

    ghost predicate Valid()
      reads this
    {
      current <= |document|
    }

    ghost function Rest(): string
      requires Valid()
      reads this
    {
      document[current..]
    }

    method SkipSpaces()
      requires Valid()
      modifies this`current
      ensures Valid() && old(current) <= current && Rest() == JsonSpec.SkipSpaces(old(Rest()))
    {
      hide JsonSpec.SkipSpaces;
      while current != |document| && IsSpace(document[current])
        invariant Valid() && old(current) <= current
        invariant JsonSpec.SkipSpaces(Rest()) == JsonSpec.SkipSpaces(old(Rest()))
      {
        SkipStep(document, current);
        current := current + 1;
      }
      SkipStep(document, current);
    }

    method ReadNumber()
      requires Valid()
      modifies this`current
      ensures Valid() && current == old(current) + NumberEnd(old(Rest()))
    {
      hide NumberEnd;
      while current != |document| && IsNumberChar(document[current])
        invariant Valid()
        invariant current + NumberEnd(Rest()) == old(current) + NumberEnd(old(Rest()))
      {
        NumberStep(document, current);
        current := current + 1;
      }
      NumberStep(document, current);
    }

    /** getNextChar. */
    method NextChar() returns (c: char)
      requires Valid()
      modifies this`current
      ensures Valid()
      ensures if old(current) == |document| then c == '\0' && current == old(current)
              else c == document[old(current)] && current == old(current) + 1
    {
      if current == |document| {
        return '\0';
      }
      current := current + 1;
      return document[current - 1];
    }

    method ReadString() returns (ok: bool)
      requires Valid()
      modifies this`current
      ensures Valid() && (current - old(current), ok) == StringEnd(old(Rest()))
    {
      hide StringEnd;
      ok := false;
      while current != |document| && !ok
        invariant Valid() && old(current) <= current
        invariant ok ==> StringEnd(old(Rest())) == (current - old(current), true)
        invariant !ok ==> StringEnd(old(Rest())) == Shift(current - old(current), StringEnd(Rest()))
        decreases |document| - current
      {
        StringStep(document, current);
        var c := NextChar();
        if c == '\\' {
          c := NextChar();
        } else if c == '\"' {
          ok := true;
        }
      }
      StringStep(document, current);
    }

    method ReadCStyleComment() returns (ok: bool)
      requires Valid()
      modifies this`current
      ensures Valid() && (current - old(current), ok) == CCommentEnd(old(Rest()))
    {
      while current != |document|
        invariant Valid() && old(current) <= current
        invariant CCommentEnd(old(Rest())) == (current - old(current) + CCommentEnd(Rest()).0, CCommentEnd(Rest()).1)
        decreases |document| - current
      {
        ghost var rest := Rest();
        assert rest[1..] == document[current + 1..];
        var c := NextChar();
        if c == '*' && current < |document| && document[current] == '/' {
          assert rest[1] == '/';
          c := NextChar();
          return c == '/';
        }
      }
      var c := NextChar();
      return c == '/';
    }

    method ReadLineComment()
      requires Valid()
      modifies this`current
      ensures Valid() && current == old(current) + LineCommentEnd(old(Rest()))
    {
      var ended := false;
      while current != |document| && !ended
        invariant Valid()
        invariant ended ==> current == old(current) + LineCommentEnd(old(Rest()))
        invariant !ended ==> current + LineCommentEnd(Rest()) == old(current) + LineCommentEnd(old(Rest()))
        decreases |document| - current
      {
        ghost var rest := Rest();
        assert rest[1..] == document[current + 1..];
        var c := NextChar();
        ended := c == '\r' || c == '\n';
      }
    }

    /** readComment, after the first slash. */
    method ReadComment() returns (ok: bool)
      requires Valid() && current > 0
      modifies this`current
      ensures Valid() && current > 0
      ensures var t := CommentToken(old(document[current - 1..]));
              old(current) - 1 <= current && document[old(current) - 1..current] == t.text && Rest() == t.rest
              && t.kind == if ok then Comment else Bad
    {
      hide CCommentEnd, LineCommentEnd;
      ghost var s, from := document[current - 1..], current - 1;
      var c := NextChar();
      assert |s| > 1 ==> s[1] == c && s[2..] == Rest();
      ok := false;
      if c == '*' {
        ok := ReadCStyleComment();
      } else if c == '/' {
        ReadLineComment();
        ok := true;
      }
      SlicesOf(document, from, current);
    }

    /** match. */
    method Match(pattern: string) returns (ok: bool)
      requires Valid()
      modifies this`current
      ensures Valid() && ok == (pattern <= old(Rest())) && current == old(current) + if ok then |pattern| else 0
    {
      if |document| - current < |pattern| {
        return false;
      }
      var index := |pattern|;
      while index > 0
        invariant 0 <= index <= |pattern|
        invariant forall i | index <= i < |pattern| :: document[current + i] == pattern[i]
      {
        index := index - 1;
        if document[current + index] != pattern[index] {
          assert Rest()[index] != pattern[index];
          return false;
        }
      }
      assert Rest()[..|pattern|] == pattern;
      current := current + |pattern|;
      return true;
    }

    /** The characters from `from` to the position, as a token of the text that started there. */
    ghost predicate Took(t: Token, kind: Kind, from: nat)
      reads this
    {
      from <= current <= |document| && t == Token(kind, document[from..current], document[current..])
    }

    /** readToken: its kind and its extent. */
    method ReadToken() returns (kind: Kind, start: nat)
      requires Valid()
      modifies this`current
      ensures Valid() && old(current) <= start <= current && Took(NextToken(old(Rest())), kind, start)
    {
      hide NextToken, TokenAt, JsonSpec.SkipSpaces;
      NextTokenIs(Rest());
      SkipSpaces();
      start := current;
      if current == |document| {
        return EndOfStream, start;
      }
      var c := NextChar();
      kind := ReadAfter(c, start);
    }

    /** The switch of readToken, after its first character c at `start`. */
    method ReadAfter(c: char, start: nat) returns (kind: Kind)
      requires Valid() && start + 1 == current && c == document[start]
      modifies this`current
      ensures Valid() && start <= current && Took(TokenAt(document[start..]), kind, start)
    {
      hide StringEnd, NumberEnd, CommentToken, StartOf, IsSpace;
      ghost var s := document[start..];
      assert s[1..] == Rest();
      match StartOf(c) {
        case Mark(k) => kind := k;
        case Quote =>
          var ok := ReadString();
          kind := if ok then StringTok else Bad;
        case Slash =>
          var ok := ReadComment();
          kind := if ok then Comment else Bad;
        case Word(k, word) =>
          WordStart(c);
          WordRest(word, s);
          var ok := Match(word[1..]);
          kind := if ok then k else Bad;
        case Numeric =>
          ReadNumber();
          kind := Number;
        case Terminator => kind := EndOfStream;
        case Other => kind := Bad;
      }
      SlicesOf(document, start, current);
    }
  
    /** decodeNumber: no step of the accumulation leaves the 64-bit range. */
    method DecodeNumber(t: string) returns (ok: bool, decoded: Value)
      requires t != ""
      modifies this`errors
      ensures if ok then errors == old(errors) else |errors| > |old(errors)|
      ensures var r := JsonSpec.DecodeNumber(t);
              ok == r.Some? && (ok ==> decoded == r.value)
    {
      hide IsDigit;
      var isDouble := false;
      for inspect := 0 to |t|
        invariant isDouble <==> exists i :: 0 <= i < inspect && RealMark(t[i], i)
      {
        var c := t[inspect];
        isDouble := isDouble || c == '.' || c == 'e' || c == 'E' || c == '+' || (c == '-' && inspect != 0);
      }
      if isDouble {
        return true, Real(t);
      }
      var isNegative := t[0] == '-';
      var current := if isNegative then 1 else 0;
      var maxIntegerValue := Limit(isNegative);
      var threshold := maxIntegerValue / 10;
      var value: nat := 0;
      assert t[0..] == t;
      while current < |t|
        invariant 0 <= current <= |t| && value <= maxIntegerValue
        invariant Accumulate(t[current..], value, maxIntegerValue)
               == Accumulate(if isNegative then t[1..] else t, 0, maxIntegerValue)
      {
        var c := t[current];
        current := current + 1;
        assert t[current - 1..][1..] == t[current..];
        if !IsDigit(c) {
          errors := errors + [NotANumber];
          return false, Null;
        }
        var digit := DigitValue(c);
        if value >= threshold {
          if value > threshold || current != |t| || digit > maxIntegerValue % 10 {
            return true, Real(t);
          }
        }
        value := value * 10 + digit;
      }
      return true, if isNegative then Int(0 - value) else Tagged(value);
    }
  
    /** decodeUnicodeEscapeSequence, at position `at` of s. */
    method DecodeEscapeSequence(s: string, at: nat) returns (ok: bool, unicode: nat)
      requires at <= |s|
      modifies this`errors
      ensures if ok then errors == old(errors) else |errors| > |old(errors)|
      ensures ok == Unit(s[at..]).Some? && (ok ==> unicode == Unit(s[at..]).value)
    {
      unicode := 0;
      if |s| - at < 4 {
        errors := errors + [FourDigitsExpected];
        return false, 0;
      }
      for index := 0 to 4
        invariant HexRun(s[at..], index) == Some(unicode) && errors == old(errors)
      {
        var digit := HexValue(s[at + index]);
        if digit.None? {
          HexRunFails(s[at..], index + 1, 4);
          errors := errors + [HexDigitExpected];
          return false, 0;
        }
        unicode := unicode * 16 + digit.value;
      }
      return true, unicode;
    }

    /** decodeUnicodeCodePoint, at position `at` of s: the code point and the position after it. */
    method DecodeCodePoint(s: string, at: nat) returns (ok: bool, unicode: nat, next: nat)
      requires at <= |s|
      modifies this`errors
      ensures if ok then errors == old(errors) else |errors| > |old(errors)|
      ensures var r := CodePoint(s[at..]);
              ok == r.Some? && (ok ==> unicode == r.value.0 && next == at + r.value.1)
    {
      hide HexRun, Unit, SurrogatePair;
      ok, unicode := DecodeEscapeSequence(s, at);
      next := at + 4;
      if ok && 0xD800 <= unicode <= 0xDBFF {
        if |s| - next < 6 {
          errors := errors + [SixCharactersExpected];
          return false, 0, 0;
        }
        if s[next] != '\\' || s[next + 1] != 'u' {
          errors := errors + [SecondHalfExpected];
          return false, 0, 0;
        }
        assert s[at..][6..] == s[next + 2..];
        var pair;
        ok, pair := DecodeEscapeSequence(s, next + 2);
        unicode := SurrogatePair(unicode, pair);
        next := next + 6;
      }
    }

    /** decodeString on a token with its quotes. */
    method DecodeString(t: string) returns (ok: bool, decoded: string)
      requires |t| >= 2
      modifies this`errors
      ensures if ok then errors == old(errors) else |errors| > |old(errors)|
      ensures var r := JsonSpec.DecodeString(t);
              ok == r.Some? && (ok ==> decoded == r.value)
    {
      hide CodePoint, Utf8, SimpleEscape, Unescaped, Prefixed;
      var s := t[1..|t| - 1];
      var current := 0;
      decoded := "";
      assert s[0..] == s;
      PrefixedNothing(Unescaped(s));
      while current != |s|
        invariant 0 <= current <= |s| && errors == old(errors)
        invariant Prefixed(decoded, Unescaped(s[current..])) == Unescaped(s)
        decreases |s| - current
      {
        UnescapeAt(s, current, decoded);
        var c := s[current];
        current := current + 1;
        if c == '\"' {
          return true, decoded;
        } else if c == '\\' {
          if current == |s| {
            errors := errors + [EmptyEscape];
            return false, "";
          }
          var escape := s[current];
          current := current + 1;
          var piece := SimpleEscape(escape);
          if piece.Some? {
            decoded := decoded + [piece.value];
          } else if escape == 'u' {
            var unicode, next;
            ok, unicode, next := DecodeCodePoint(s, current);
            if !ok {
              return false, "";
            }
            decoded := decoded + Utf8(unicode);
            current := next;
          } else {
            errors := errors + [BadEscape];
            return false, "";
          }
        } else {
          decoded := decoded + [c];
        }
      }
      UnescapeEnd(s, decoded);
      return true, decoded;
    }

    /** Tokens up to the first that is not a comment (skipCommentTokens). */
    method ReadRealToken() returns (kind: Kind, start: nat)
      requires Valid()
      modifies this`current
      ensures Valid() && old(current) <= start <= current && Took(NextRealToken(old(Rest())), kind, start)
    {
      hide NextToken;
      kind, start := ReadToken();
      while kind == Comment
        invariant Valid() && old(current) <= start <= current
        invariant if kind == Comment then NextRealToken(Rest()) == NextRealToken(old(Rest()))
                  else Took(NextRealToken(old(Rest())), kind, start)
        decreases |document| - current, kind == Comment
      {
        kind, start := ReadToken();
      }
    }

    /** recoverFromError: skip to the first token of the given kind, or to the end. */
    method RecoverFromError(until: Kind)
      requires Valid()
      modifies this`current
      ensures Valid() && Rest() == AfterRecovery(old(Rest()), until)
    {
      hide NextToken;
      var kind, start := ReadToken();
      while kind != until && kind != EndOfStream
        invariant Valid()
        invariant AfterRecovery(old(Rest()), until)
               == if kind == until || kind == EndOfStream then Rest() else AfterRecovery(Rest(), until)
        decreases kind != until && kind != EndOfStream, |document| - current
      {
        kind, start := ReadToken();
      }
    }

    /** A read of a value that ends as the specification says. */
    twostate predicate Agrees(r: Option<Parsed>, ok: bool, value: Value)
      reads this
    {
      && Valid() && document == old(document)
      && ok == r.Some?
      && (ok ==> value == r.value.value && Rest() == r.value.rest && errors == old(errors))
      && (!ok ==> |errors| > |old(errors)|)
    }

    method ReadValue() returns (ok: bool, value: Value)
      requires Valid()
      modifies this`current, this`errors
      ensures Agrees(ParseValue(old(Rest())), ok, value)
      decreases |document| - current, 1
    {
      hide NextRealToken, ParseMembers, ParseArray, ParseValue, JsonSpec.DecodeNumber, JsonSpec.DecodeString;
      ghost var text := Rest();
      var kind, start := ReadRealToken();
      ghost var t := NextRealToken(text);
      ValueOfToken(text);
      if kind == ObjectBegin {
        ok, value := ReadObject();
      } else if kind == ArrayBegin {
        ok, value := ReadArray();
      } else if kind == Number {
        ok, value := DecodeNumber(document[start..current]);
      } else if kind == StringTok {
        var decoded;
        ok, decoded := DecodeString(document[start..current]);
        value := Str(decoded);
      } else if kind == True {
        ok, value := true, Bool(true);
      } else if kind == False {
        ok, value := true, Bool(false);
      } else if kind == NullTok {
        ok, value := true, Null;
      } else {
        errors := errors + [ValueExpected];
        ok, value := false, Null;
      }
    }

    method ReadArray() returns (ok: bool, value: Value)
      requires Valid() && current > 0
      modifies this`current, this`errors
      ensures Agrees(ParseArray(old(Rest())), ok, value)
      decreases |document| - current, 3
    {
      hide NextRealToken, ParseItems, NextToken, JsonSpec.SkipSpaces;
      ghost var text := Rest();
      SkipSpaces();
      if current < |document| && document[current] == ']' {
        var kind, start := ReadToken();
        ClosingToken(JsonSpec.SkipSpaces(text));
        return true, Arr([]);
      }
      SameItems(text);
      ok, value := ReadItems();
    }

    /** The loop of readArray. */
    method ReadItems() returns (ok: bool, value: Value)
      requires Valid()
      modifies this`current, this`errors
      ensures Agrees(ParseItems(old(Rest()), []), ok, value)
      decreases |document| - current, 2
    {
      hide NextRealToken, ParseValue, NextToken;
      var items: seq<Value> := [];
      while true
        invariant Valid() && old(current) <= current && document == old(document) && errors == old(errors)
        invariant ParseItems(Rest(), items) == ParseItems(old(Rest()), [])
        decreases |document| - current
      {
        var v;
        ok, v := ReadValue();
        if !ok {
          RecoverFromError(ArrayEnd);
          return false, Null;
        }
        items := items + [v];
        var kind, start := ReadRealToken();
        if kind != Separator && kind != ArrayEnd {
          errors := errors + [ArrayMarkMissing];
          RecoverFromError(ArrayEnd);
          return false, Null;
        }
        if kind == ArrayEnd {
          return true, Arr(items);
        }
      }
    }

    method ReadObject() returns (ok: bool, value: Value)
      requires Valid()
      modifies this`current, this`errors
      ensures Agrees(ParseMembers(old(Rest()), [], ""), ok, value)
      decreases |document| - current, 3
    {
      hide NextRealToken, ParseValue, NextToken, JsonSpec.DecodeString, Insert, ParseMembers, MemberEnd;
      ghost var text := Rest();
      var ms: seq<Member> := [];
      var name := "";
      while true
        invariant Valid() && old(current) <= current && document == old(document) && errors == old(errors)
        invariant ParseMembers(Rest(), ms, name) == ParseMembers(text, [], "")
        decreases |document| - current
      {
        MembersStep(Rest(), ms, name);
        var kind, start := ReadRealToken();
        if kind == ObjectEnd && name == "" {
          return true, Obj(ms);
        }
        if kind != StringTok {
          errors := errors + [NameMissing];
          RecoverFromError(ObjectEnd);
          return false, Null;
        }
        ok, name := DecodeString(document[start..current]);
        if !ok {
          RecoverFromError(ObjectEnd);
          return false, Null;
        }
        kind, start := ReadToken();
        if kind != Colon {
          errors := errors + [ColonMissing];
          RecoverFromError(ObjectEnd);
          return false, Null;
        }
        var v;
        ok, v := ReadValue();
        if !ok {
          RecoverFromError(ObjectEnd);
          return false, Null;
        }
        ms := Insert(ms, name, v);
        var end := ReadMemberEnd();
        if end == Missing {
          RecoverFromError(ObjectEnd);
          return false, Null;
        }
        if end.Closed? {
          return true, Obj(ms);
        }
      }
    }

    /** Lines 625-636 of readObject. */
    method ReadMemberEnd() returns (end: End)
      requires Valid()
      modifies this`current, this`errors
      ensures Valid() && old(current) <= current && end == MemberEnd(old(Rest()))
      ensures if end == Missing then |errors| > |old(errors)| else errors == old(errors) && Rest() == end.rest
    {
      hide NextRealToken, NextToken;
      var kind, start := ReadToken();
      if kind != ObjectEnd && kind != Separator && kind != Comment {
        errors := errors + [ObjectMarkMissing];
        return Missing;
      }
      if kind == Comment {
        kind, start := ReadRealToken();
      }
      return if kind == ObjectEnd then Closed(document[current..]) else More(document[current..]);
    }

    /**
     parse: what the start of the document stands for, and no errors if and only if there is such a start; what
     follows it is not looked at further.
     */
    method Parse(doc: string) returns (ok: bool, root: Value)
      modifies this
      ensures ok <==> errors == []
      ensures ok ==> Ordered(root) && exists rest: string :: StandsFor(doc, root, rest)
      ensures forall v, rest: string | StandsFor(doc, v, rest) :: ok && root == v
      ensures forall v | IsText(doc, v) :: ok && Means(v, root)
    {
      hide ParseValue, IsText, Means, Ordered, StandsFor;
      document, current, errors := doc, 0, [];
      assert Rest() == doc;
      ok, root := ReadValue();
      var kind, start := ReadRealToken();
      if ok {
        ParsedOrdered(doc);
        AcceptedExactly(doc, root, ParseValue(doc).value.rest);
      }
      forall v, rest: string | StandsFor(doc, v, rest) ensures ok && root == v {
        AcceptedExactly(doc, v, rest);
      }
      forall v | IsText(doc, v) ensures ok && Means(v, root) {
        ReadsMeaning(doc, v);
      }
    }
  }

  /** FastWriter::write and then Reader::parse: no errors, and the value as the reader tags it. */
  method WriteThenRead(v: Value) returns (ok: bool, root: Value)
    requires Printable(v)
    ensures ok && root == Retagged(v)
  {
    hide ParseValue, StandsFor, IsText, Means, Retagged, Fast, Ordered;
    PrintableIsStorable(v);
    RoundTrip(v);
    AcceptedExactly(Fast(v) + "\n", Retagged(v), "\n");
    var writer := new FastWriter();
    var text := writer.Write(v);
    var reader := new Reader;
    ok, root := reader.Parse(text);
  }

  /** The same with the indenting writer, for values in any order of members and with repeated names. */
  method WriteStyledThenRead(v: Value) returns (ok: bool, root: Value)
    requires Writable(v)
    ensures ok && Means(v, root)
    ensures Printable(v) ==> root == Retagged(v)
  {
    hide ParseValue, Writable, Printable, Retagged, Means, StandsFor, IsText, Ordered, Styled;
    StyledIsText(v);
    if Printable(v) {
      StyledRoundTrip(v);
      AcceptedExactly(Styled(v), Retagged(v), "\n");
    }
    var writer := new StyledWriter();
    var text := writer.Write(v);
    var reader := new Reader;
    ok, root := reader.Parse(text);
  }

  lemma SlicesOf(s: string, start: nat, end: nat)
    requires start <= end <= |s|
    ensures s[start..end] == s[start..][..end - start] && s[end..] == s[start..][end - start..]
  {
  }

  lemma ClosingToken(s: string)
    requires s != "" && s[0] == ']'
    ensures NextToken(s) == Token(ArrayEnd, "]", s[1..])
  {
    assert s == "]" + s[1..];
    PunctuationToken(']', s[1..]);
  }

  /** Leading space does not matter. */
  lemma SameToken(s: string)
    ensures NextToken(JsonSpec.SkipSpaces(s)) == NextToken(s)
    ensures NextRealToken(JsonSpec.SkipSpaces(s)) == NextRealToken(s)
  {
    hide TokenAt;
    assert JsonSpec.SkipSpaces(JsonSpec.SkipSpaces(s)) == JsonSpec.SkipSpaces(s);
  }

  lemma SameValue(s: string)
    ensures ParseValue(JsonSpec.SkipSpaces(s)) == ParseValue(s)
  {
    hide ParseValue;
    SameToken(s);
    ValueOfToken(s);
    ValueOfToken(JsonSpec.SkipSpaces(s));
  }

  lemma SameItems(s: string)
    ensures ParseItems(JsonSpec.SkipSpaces(s), []) == ParseItems(s, [])
  {
    hide NextRealToken, ParseValue;
    SameValue(s);
  }

  lemma PrefixedNothing(tail: Option<string>)
    ensures Prefixed("", tail) == tail
  {
    if tail.Some? {
      assert "" + tail.value == tail.value;
    }
  }

  lemma PrefixedTwice(a: string, b: string, tail: Option<string>)
    ensures Prefixed(a, Prefixed(b, tail)) == Prefixed(a + b, tail)
  {
    if tail.Some? {
      assert a + (b + tail.value) == a + b + tail.value;
    }
  }

  /** One step of decodeString at position i, with `decoded` what was decoded before it. */
  lemma UnescapeAt(s: string, i: nat, decoded: string)
    requires i < |s|
    ensures var c := s[i];
            var all := Prefixed(decoded, Unescaped(s[i..]));
            && (c == '\"' ==> all == Some(decoded))
            && (c != '\"' && c != '\\' ==> all == Prefixed(decoded + [c], Unescaped(s[i + 1..])))
            && (c == '\\' && i + 1 == |s| ==> all == None)
            && (c == '\\' && i + 1 < |s| ==>
                  var e := s[i + 1];
                  && (SimpleEscape(e).Some? ==> all == Prefixed(decoded + [SimpleEscape(e).value], Unescaped(s[i + 2..])))
                  && (SimpleEscape(e).None? && e != 'u' ==> all == None)
                  && (SimpleEscape(e).None? && e == 'u' ==>
                        var cp := CodePoint(s[i + 2..]);
                        && (cp.None? ==> all == None)
                        && (cp.Some? ==> all == Prefixed(decoded + Utf8(cp.value.0), Unescaped(s[i + 2 + cp.value.1..])))))
  {
    hide CodePoint, Utf8, SimpleEscape, Prefixed;
    var rest := s[i..];
    assert rest[1..] == s[i + 1..];
    PrefixedEnds(decoded);
    if s[i] != '\\' {
      PrefixedTwice(decoded, [s[i]], Unescaped(s[i + 1..]));
    } else if i + 1 < |s| {
      assert rest[2..] == s[i + 2..] && rest[1] == s[i + 1];
      if SimpleEscape(s[i + 1]).Some? {
        PrefixedTwice(decoded, [SimpleEscape(s[i + 1]).value], Unescaped(s[i + 2..]));
      } else if CodePoint(s[i + 2..]).Some? {
        var cp := CodePoint(s[i + 2..]).value;
        assert rest[2 + cp.1..] == s[i + 2 + cp.1..];
        PrefixedTwice(decoded, Utf8(cp.0), Unescaped(s[i + 2 + cp.1..]));
      }
    }
  }

  lemma PrefixedEnds(decoded: string)
    ensures Prefixed(decoded, Some("")) == Some(decoded) && Prefixed(decoded, None) == None
  {
    assert decoded + "" == decoded;
  }

  lemma UnescapeEnd(s: string, decoded: string)
    ensures Prefixed(decoded, Unescaped(s[|s|..])) == Some(decoded)
  {
    assert s[|s|..] == "";
    PrefixedEnds(decoded);
  }

  lemma {:induction false} HexRunFails(s: string, k: nat, n: nat)
    requires k <= n <= |s| && HexRun(s, k).None?
    ensures HexRun(s, n).None?
    decreases n
  {
    if k < n {
      HexRunFails(s, k, n - 1);
    }
  }

  lemma SkipStep(d: string, i: nat)
    requires i <= |d|
    ensures i < |d| && IsSpace(d[i]) ==> JsonSpec.SkipSpaces(d[i..]) == JsonSpec.SkipSpaces(d[i + 1..])
    ensures i == |d| || !IsSpace(d[i]) ==> JsonSpec.SkipSpaces(d[i..]) == d[i..]
  {
    assert i < |d| ==> d[i..][1..] == d[i + 1..];
  }

  lemma NumberStep(d: string, i: nat)
    requires i <= |d|
    ensures NumberEnd(d[i..]) == if i < |d| && IsNumberChar(d[i]) then 1 + NumberEnd(d[i + 1..]) else 0
  {
    assert i < |d| ==> d[i..][1..] == d[i + 1..];
  }

  ghost function Shift(k: int, r: (nat, bool)): (int, bool) {
    (k + r.0, r.1)
  }

  lemma StringStep(d: string, i: nat)
    requires i <= |d|
    ensures i == |d| ==> StringEnd(d[i..]) == (0, false)
    ensures i < |d| && d[i] == '\"' ==> StringEnd(d[i..]) == (1, true)
    ensures i < |d| && d[i] != '\"' ==>
              var next := if d[i] == '\\' && i + 1 < |d| then i + 2 else i + 1;
              StringEnd(d[i..]) == Shift(next - i, StringEnd(d[next..]))
  {
    if i < |d| {
      assert d[i..][1..] == d[i + 1..];
      if i + 1 < |d| {
        assert d[i..][2..] == d[i + 2..];
      }
    }
  }

  lemma NextTokenIs(text: string)
    ensures var s := JsonSpec.SkipSpaces(text);
            NextToken(text) == if s == "" then Token(EndOfStream, "", "") else TokenAt(s)
  {
    hide TokenAt, JsonSpec.SkipSpaces;
  }

  lemma WordStart(c: char)
    ensures StartOf(c).Word? ==> StartOf(c).word != "" && StartOf(c).word[0] == c
  {
  }

  lemma WordRest(word: string, s: string)
    requires word != "" && s != "" && word[0] == s[0]
    ensures word[1..] <= s[1..] <==> word <= s
  {
    assert word == [word[0]] + word[1..] && s == [s[0]] + s[1..];
    if word[1..] <= s[1..] {
      assert s[1..][..|word| - 1] == word[1..];
      assert s[..|word|] == word;
    }
  }
}
