/**
 The stages in which the machine of lib/http/request_parser.cpp reads a request: each
 part of a text brings it from one state to the next.
 */
module HttpStages {
  import opened HttpSpec
  import opened HttpGrammar

  /** The text brings the machine from m to m', without a verdict. */
  predicate Leads(m: Machine, text: Text, m': Machine) {
    Sound(m) && Feed(m, text) == Parsed(Indeterminate, m', |text|)
  }

  lemma LeadsNothing(m: Machine)
    requires Sound(m)
    ensures Leads(m, [], m)
  {
  }

  lemma LeadsOne(m: Machine, c: Char, m': Machine)
    requires Sound(m) && Consume(m, c) == Step(Indeterminate, m')
    ensures Leads(m, [c], m')
  {
    hide Consume;
    assert Feed(m', [c][1..]) == Parsed(Indeterminate, m', 0);
  }

  lemma LeadsJoin(m: Machine, a: Text, m1: Machine, b: Text, m2: Machine)
    requires Leads(m, a, m1) && Leads(m1, b, m2)
    ensures Leads(m, a + b, m2)
  {
    hide Consume, Feed;
    FeedJoin(m, a, b);
  }

  /** The machine after one more character that it just appends. */
  lemma LeadsMore(m: Machine, s: Text, m1: Machine, m2: Machine)
    requires s != [] && Leads(m, s[..|s| - 1], m1) && Consume(m1, s[|s| - 1]) == Step(Indeterminate, m2)
    ensures Leads(m, s, m2)
  {
    hide Consume, Feed, Sound;
    FeedSound(m, s[..|s| - 1]);
    LeadsOne(m1, s[|s| - 1], m2);
    LeadsJoin(m, s[..|s| - 1], m1, [s[|s| - 1]], m2);
    assert s == s[..|s| - 1] + [s[|s| - 1]];
  }

  lemma FeedSound(m: Machine, s: Text)
    requires Sound(m)
    ensures Sound(Feed(m, s).machine)
  {
  }

  lemma {:induction false} MethodStage(r: Request, s: Text)
    requires AllToken(s) && s != []
    ensures Leads(Machine(MethodStart, r), s, Machine(Method, r.(verb := r.verb + s)))
    decreases |s|
  {
    hide Leads, Feed;
    var m, last := Machine(MethodStart, r), s[|s| - 1];
    TokenIs(last);
    hide TokenChar, IsToken;
    if |s| == 1 {
      assert s == [s[0]];
      LeadsOne(m, s[0], Machine(Method, r.(verb := r.verb + s)));
    } else {
      var front := s[..|s| - 1];
      MethodStage(r, front);
      var r1 := r.(verb := r.verb + front);
      assert r.verb + s == r1.verb + [last];
      LeadsMore(m, s, Machine(Method, r1), Machine(Method, r.(verb := r.verb + s)));
    }
  }

  lemma {:induction false} UriStage(r: Request, s: Text)
    requires UriText(s)
    ensures Leads(Machine(Uri, r), s, Machine(Uri, r.(uri := r.uri + s)))
    decreases |s|
  {
    hide Leads, Feed;
    var m := Machine(Uri, r);
    if s == [] {
      assert r.uri + s == r.uri;
      LeadsNothing(m);
    } else {
      var front, last := s[..|s| - 1], s[|s| - 1];
      UriStage(r, front);
      var r1 := r.(uri := r.uri + front);
      assert r.uri + s == r1.uri + [last];
      LeadsMore(m, s, Machine(Uri, r1), Machine(Uri, r.(uri := r.uri + s)));
    }
  }

  lemma VersionStage(r: Request)
    ensures Leads(Machine(Uri, r), HTTP_VERSION, Machine(MajorStart, r.(major := 0, minor := 0)))
  {
    hide Leads, Feed, IsToken, IsCtl;
    var m1 := Machine(VersionH, r);
    LeadsOne(Machine(Uri, r), SPACE, m1);
    LeadsOne(m1, 72, Machine(VersionT1, r));
    LeadsOne(Machine(VersionT1, r), 84, Machine(VersionT2, r));
    LeadsOne(Machine(VersionT2, r), 84, Machine(VersionP, r));
    LeadsOne(Machine(VersionP, r), 80, Machine(VersionSlash, r));
    LeadsOne(Machine(VersionSlash, r), 47, Machine(MajorStart, r.(major := 0, minor := 0)));
    VersionJoin(r);
  }

  lemma VersionJoin(r: Request)
    requires Leads(Machine(Uri, r), [SPACE], Machine(VersionH, r))
    requires Leads(Machine(VersionH, r), [72], Machine(VersionT1, r))
    requires Leads(Machine(VersionT1, r), [84], Machine(VersionT2, r))
    requires Leads(Machine(VersionT2, r), [84], Machine(VersionP, r))
    requires Leads(Machine(VersionP, r), [80], Machine(VersionSlash, r))
    requires Leads(Machine(VersionSlash, r), [47], Machine(MajorStart, r.(major := 0, minor := 0)))
    ensures Leads(Machine(Uri, r), HTTP_VERSION, Machine(MajorStart, r.(major := 0, minor := 0)))
  {
    hide Leads, Feed, Consume;
    var end := Machine(MajorStart, r.(major := 0, minor := 0));
    LeadsJoin(Machine(Uri, r), [SPACE], Machine(VersionH, r), [72], Machine(VersionT1, r));
    LeadsJoin(Machine(Uri, r), [SPACE] + [72], Machine(VersionT1, r), [84], Machine(VersionT2, r));
    LeadsJoin(Machine(Uri, r), [SPACE] + [72] + [84], Machine(VersionT2, r), [84], Machine(VersionP, r));
    LeadsJoin(Machine(Uri, r), [SPACE] + [72] + [84] + [84], Machine(VersionP, r), [80], Machine(VersionSlash, r));
    LeadsJoin(Machine(Uri, r), [SPACE] + [72] + [84] + [84] + [80], Machine(VersionSlash, r), [47], end);
    assert [SPACE] + [72] + [84] + [84] + [80] + [47] == HTTP_VERSION;
  }

  function Last(r: Request, name: Text, value: Text): Request {
    r.(headers := r.headers + [Header(name, value)])
  }

  lemma LastUpdates(r: Request, name: Text, value: Text, c: Char)
    ensures WithName(Last(r, name, value), c) == Last(r, name + [c], value)
    ensures WithValue(Last(r, name, value), c) == Last(r, name, value + [c])
  {
  }

  lemma {:induction false} NameStage(r: Request, s: Text)
    requires AllToken(s) && s != []
    ensures Leads(Machine(HeaderLineStart, r), s, Machine(HeaderName, Last(r, s, [])))
    decreases |s|
  {
    hide Leads, Feed, WithName;
    var m, last := Machine(HeaderLineStart, r), s[|s| - 1];
    assert TokenChar(last);
    TokenIs(last);
    hide TokenChar, IsToken;
    if |s| == 1 {
      assert s == [last];
      LeadsOne(m, last, Machine(HeaderName, Last(r, s, [])));
    } else {
      var front := s[..|s| - 1];
      NameStage(r, front);
      LastUpdates(r, front, [], last);
      assert s == front + [last];
      LeadsMore(m, s, Machine(HeaderName, Last(r, front, [])), Machine(HeaderName, Last(r, s, [])));
    }
  }

  /** Two characters in a row. */
  lemma LeadsTwo(m: Machine, c: Char, m1: Machine, d: Char, m2: Machine)
    requires Sound(m) && Sound(m1) && Consume(m, c) == Step(Indeterminate, m1) && Consume(m1, d) == Step(Indeterminate, m2)
    ensures Leads(m, [c, d], m2)
  {
    hide Consume, Feed, Sound;
    LeadsOne(m, c, m1);
    LeadsOne(m1, d, m2);
    LeadsJoin(m, [c], m1, [d], m2);
    assert [c] + [d] == [c, d];
  }

  lemma EndStage(r: Request)
    ensures var p := Feed(Machine(HeaderLineStart, r), [CR, LF]);
            p == Parsed(Good, Machine(ExpectingNewline3, r), 2)
  {
    assert [CR, LF][1..] == [LF];
  }

  // --- the version -----------------------------------------------------------------------

  lemma {:induction false} MajorStage(r: Request, s: Text)
    requires r.major == 0 && Digits(s) && s != []
    ensures Leads(Machine(MajorStart, r), s, Machine(Major, r.(major := Value(s))))
    decreases |s|
  {
    hide Leads, Feed;
    var m, front := Machine(MajorStart, r), s[..|s| - 1];
    if |s| == 1 {
      assert s == [s[0]] && Value(front) == 0;
      LeadsOne(m, s[0], Machine(Major, r.(major := Value(s))));
    } else {
      MajorStage(r, front);
      LeadsMore(m, s, Machine(Major, r.(major := Value(front))), Machine(Major, r.(major := Value(s))));
    }
  }

  lemma {:induction false} MinorStage(r: Request, s: Text)
    requires r.minor == 0 && Digits(s) && s != []
    ensures Leads(Machine(MinorStart, r), s, Machine(Minor, r.(minor := Value(s))))
    decreases |s|
  {
    hide Leads, Feed;
    var m, front := Machine(MinorStart, r), s[..|s| - 1];
    if |s| == 1 {
      assert s == [s[0]] && Value(front) == 0;
      LeadsOne(m, s[0], Machine(Minor, r.(minor := Value(s))));
    } else {
      MinorStage(r, front);
      LeadsMore(m, s, Machine(Minor, r.(minor := Value(front))), Machine(Minor, r.(minor := Value(s))));
    }
  }

  // --- the request line ------------------------------------------------------------------

  lemma LineStage(verb: Text, uri: Text, a: Text, b: Text, major: nat, minor: nat)
    requires verb != [] && AllToken(verb) && UriText(uri) && Digits(a) && a != [] && Digits(b) && b != []
    ensures Leads(Ready(major, minor), LineText(verb, uri, a, b),
                  Machine(HeaderLineStart, Request(verb, uri, Value(a), Value(b), [])))
  {
    hide Leads, Feed, Value, Digits, AllToken, UriText, Consume;
    var r0 := Request([], [], major, minor, []);
    var r1 := r0.(verb := verb);
    assert [] + verb == verb && [] + uri == uri;
    MethodStage(r0, verb);
    BetweenStages(r1);
    var r2 := r1.(uri := uri);
    UriStage(r1, uri);
    VersionStage(r2);
    var r3 := r2.(major := 0, minor := 0);
    MajorStage(r3, a);
    var r4 := r3.(major := Value(a));
    BetweenStages(r4);
    MinorStage(r4, b);
    var r5 := r4.(minor := Value(b));
    BetweenStages(r5);
    LineJoin(verb, uri, a, b, r0, r1, r2, r3, r4, r5);
  }

  /** The marks between the parts of the request line. */
  lemma BetweenStages(r: Request)
    ensures Leads(Machine(Method, r), BLANK, Machine(Uri, r))
    ensures Leads(Machine(Major, r), POINT, Machine(MinorStart, r))
    ensures Leads(Machine(Minor, r), CRLF, Machine(HeaderLineStart, r))
  {
    hide Leads, Feed;
    LeadsOne(Machine(Method, r), SPACE, Machine(Uri, r));
    LeadsOne(Machine(Major, r), DOT, Machine(MinorStart, r));
    LeadsTwo(Machine(Minor, r), CR, Machine(ExpectingNewline1, r), LF, Machine(HeaderLineStart, r));
  }

  lemma LineJoin(verb: Text, uri: Text, a: Text, b: Text,
                 r0: Request, r1: Request, r2: Request, r3: Request, r4: Request, r5: Request)
    requires Leads(Machine(MethodStart, r0), verb, Machine(Method, r1))
    requires Leads(Machine(Method, r1), BLANK, Machine(Uri, r1))
    requires Leads(Machine(Uri, r1), uri, Machine(Uri, r2))
    requires Leads(Machine(Uri, r2), HTTP_VERSION, Machine(MajorStart, r3))
    requires Leads(Machine(MajorStart, r3), a, Machine(Major, r4))
    requires Leads(Machine(Major, r4), POINT, Machine(MinorStart, r4))
    requires Leads(Machine(MinorStart, r4), b, Machine(Minor, r5))
    requires Leads(Machine(Minor, r5), CRLF, Machine(HeaderLineStart, r5))
    ensures Leads(Machine(MethodStart, r0), LineText(verb, uri, a, b), Machine(HeaderLineStart, r5))
  {
    hide Leads, Feed, Consume;
    var end := Machine(HeaderLineStart, r5);
    var t1 := b + CRLF;
    LeadsJoin(Machine(MinorStart, r4), b, Machine(Minor, r5), CRLF, end);
    LeadsJoin(Machine(Major, r4), POINT, Machine(MinorStart, r4), t1, end);
    LeadsJoin(Machine(MajorStart, r3), a, Machine(Major, r4), POINT + t1, end);
    var t2 := a + (POINT + t1);
    LeadsJoin(Machine(Uri, r2), HTTP_VERSION, Machine(MajorStart, r3), t2, end);
    LeadsJoin(Machine(Uri, r1), uri, Machine(Uri, r2), HTTP_VERSION + t2, end);
    var t3 := uri + (HTTP_VERSION + t2);
    LeadsJoin(Machine(Method, r1), BLANK, Machine(Uri, r1), t3, end);
    LeadsJoin(Machine(MethodStart, r0), verb, Machine(Method, r1), BLANK + t3, end);
  }

  // --- a header line and a continuation line --------------------------------------------------

  /** The value of the last header goes on. */
  function AddValue(r: Request, s: Text): Request
    requires r.headers != []
  {
    var last := |r.headers| - 1;
    r.(headers := r.headers[last := r.headers[last].(value := r.headers[last].value + s)])
  }

  lemma AddValueMore(r: Request, s: Text, c: Char)
    requires r.headers != []
    ensures WithValue(AddValue(r, s), c) == AddValue(r, s + [c])
    ensures AddValue(r, []) == r && WithValue(r, c) == AddValue(r, [c])
  {
    var last := |r.headers| - 1;
    assert r.headers[last].value + s + [c] == r.headers[last].value + (s + [c]);
    assert r.headers[last].value + [] == r.headers[last].value;
    assert r.headers[last := r.headers[last]] == r.headers;
  }

  lemma {:induction false} ValueStage(r: Request, s: Text)
    requires NoCtl(s) && r.headers != []
    ensures Leads(Machine(HeaderValue, r), s, Machine(HeaderValue, AddValue(r, s)))
    decreases |s|
  {
    hide Leads, Feed, WithValue, AddValue;
    var m := Machine(HeaderValue, r);
    if s == [] {
      AddValueMore(r, [], SPACE);
      LeadsNothing(m);
    } else {
      var front, last := s[..|s| - 1], s[|s| - 1];
      ValueStage(r, front);
      AddValueMore(r, front, last);
      HeadersStay(r, front);
      assert s == front + [last];
      LeadsMore(m, s, Machine(HeaderValue, AddValue(r, front)), Machine(HeaderValue, AddValue(r, s)));
    }
  }

  lemma HeadersStay(r: Request, s: Text)
    requires r.headers != []
    ensures AddValue(r, s).headers != []
  {
  }

  lemma ValueOfLast(r: Request, name: Text, value: Text)
    ensures AddValue(Last(r, name, []), value) == Last(r, name, value)
  {
    assert [] + value == value;
    assert AddValue(Last(r, name, []), value).headers == r.headers + [Header(name, value)];
  }

  lemma HeaderStage(r: Request, h: Header)
    requires GoodHeader(h)
    ensures Leads(Machine(HeaderLineStart, r), PrintHeader(h), Machine(HeaderLineStart, r.(headers := r.headers + [h])))
  {
    hide Leads, Feed;
    var r0, r1 := Last(r, h.name, []), Last(r, h.name, h.value);
    NameStage(r, h.name);
    LeadsTwo(Machine(HeaderName, r0), COLON, Machine(SpaceBeforeHeaderValue, r0), SPACE, Machine(HeaderValue, r0));
    ValueStage(r0, h.value);
    ValueOfLast(r, h.name, h.value);
    LeadsTwo(Machine(HeaderValue, r1), CR, Machine(ExpectingNewline2, r1), LF, Machine(HeaderLineStart, r1));
    LeadsJoin(Machine(HeaderLineStart, r), h.name, Machine(HeaderName, r0), NAME_END, Machine(HeaderValue, r0));
    LeadsJoin(Machine(HeaderLineStart, r), h.name + NAME_END, Machine(HeaderValue, r0), h.value, Machine(HeaderValue, r1));
    LeadsJoin(Machine(HeaderLineStart, r), h.name + NAME_END + h.value, Machine(HeaderValue, r1),
              CRLF, Machine(HeaderLineStart, r1));
  }

  lemma {:induction false} SpaceStage(r: Request, s: Text)
    requires r.headers != [] && s != [] && forall i | 0 <= i < |s| :: IsBlank(s[i])
    ensures Leads(Machine(HeaderLineStart, r), s, Machine(HeaderLws, r))
    decreases |s|
  {
    hide Leads, Feed;
    var m, last := Machine(HeaderLineStart, r), s[|s| - 1];
    assert IsBlank(last);
    if |s| == 1 {
      assert s == [last];
      LeadsOne(m, last, Machine(HeaderLws, r));
    } else {
      SpaceStage(r, s[..|s| - 1]);
      LeadsMore(m, s, Machine(HeaderLws, r), Machine(HeaderLws, r));
    }
  }

  /** The rest of a continuation line after its blanks. */
  lemma FoldValueStage(r: Request, s: Text)
    requires r.headers != [] && NoCtl(s) && (s != [] ==> s[0] != SPACE)
    ensures Leads(Machine(HeaderLws, r), s + CRLF, Machine(HeaderLineStart, AddValue(r, s)))
  {
    hide Leads, Feed, AddValue, WithValue, IsToken;
    var end := Machine(HeaderLineStart, AddValue(r, s));
    HeadersStay(r, s);
    if s == [] {
      AddValueMore(r, [], CR);
      LeadsTwo(Machine(HeaderLws, r), CR, Machine(ExpectingNewline2, r), LF, end);
      assert s + CRLF == CRLF;
    } else {
      AddValueMore(r, [], s[0]);
      var r1 := AddValue(r, [s[0]]);
      assert !IsCtl(s[0]);
      HeadersStay(r, [s[0]]);
      LeadsOne(Machine(HeaderLws, r), s[0], Machine(HeaderValue, r1));
      ValueStage(r1, s[1..]);
      AddValueJoin(r, [s[0]], s[1..]);
      assert [s[0]] + s[1..] == s;
      LeadsJoin(Machine(HeaderLws, r), [s[0]], Machine(HeaderValue, r1), s[1..], Machine(HeaderValue, AddValue(r, s)));
      LeadsTwo(Machine(HeaderValue, AddValue(r, s)), CR, Machine(ExpectingNewline2, AddValue(r, s)), LF, end);
      LeadsJoin(Machine(HeaderLws, r), s, Machine(HeaderValue, AddValue(r, s)), CRLF, end);
    }
  }

  lemma AddValueJoin(r: Request, a: Text, b: Text)
    requires r.headers != []
    ensures AddValue(r, a).headers != [] && AddValue(AddValue(r, a), b) == AddValue(r, a + b)
  {
    var last := |r.headers| - 1;
    assert r.headers[last].value + a + b == r.headers[last].value + (a + b);
  }

  lemma FoldStage(r: Request, space: Text, s: Text)
    requires r.headers != [] && space != [] && (forall i | 0 <= i < |space| :: IsBlank(space[i]))
    requires NoCtl(s) && (s != [] ==> s[0] != SPACE)
    ensures Leads(Machine(HeaderLineStart, r), space + (s + CRLF), Machine(HeaderLineStart, AddValue(r, s)))
  {
    hide Leads, Feed, AddValue, Consume;
    SpaceStage(r, space);
    FoldValueStage(r, s);
    LeadsJoin(Machine(HeaderLineStart, r), space, Machine(HeaderLws, r), s + CRLF, Machine(HeaderLineStart, AddValue(r, s)));
  }
}
