/**
 Which texts the parser of lib/http/request_parser.cpp accepts: the request line with
 versions of any number of digits, header lines, and continuation lines.
 */
module HttpLanguage {
  import opened HttpSpec
  import opened HttpGrammar
  import opened HttpStages

  // --- what has been read -----------------------------------------------------------------------

  function Before(lines: seq<Line>): seq<Line>
    requires lines != []
  {
    lines[..|lines| - 1]
  }

  function LastOf(lines: seq<Line>): Line
    requires lines != []
  {
    lines[|lines| - 1]
  }

  /** The text read so far in a state of the request line, given what was written so far. */
  function ReadLine(s: State, w: Written): Text {
    match s
    case MethodStart => []
    case Method => w.verb
    case Uri => w.verb + [SPACE] + w.uri
    case VersionH => w.verb + [SPACE] + w.uri + [SPACE]
    case VersionT1 => w.verb + [SPACE] + w.uri + [SPACE, 72]
    case VersionT2 => w.verb + [SPACE] + w.uri + [SPACE, 72, 84]
    case VersionP => w.verb + [SPACE] + w.uri + [SPACE, 72, 84, 84]
    case VersionSlash => w.verb + [SPACE] + w.uri + [SPACE, 72, 84, 84, 80]
    case MajorStart => UpToMajor(w)
    case Major => UpToMajor(w) + w.major
    case MinorStart => UpToMajor(w) + w.major + [DOT]
    case Minor => UpToMajor(w) + w.major + [DOT] + w.minor
    case ExpectingNewline1 => UpToMajor(w) + w.major + [DOT] + w.minor + [CR]
    case _ => RenderHead(w)
  }

  /** The part of the header lines read so far. */
  function ReadHeaders(s: State, lines: seq<Line>): Text
    requires InHeader(s) ==> lines != []
    requires s == HeaderName || s == SpaceBeforeHeaderValue ==> LastOf(lines).Start?
  {
    match s
    case HeaderName => RenderLines(Before(lines)) + LastOf(lines).name
    case SpaceBeforeHeaderValue => RenderLines(Before(lines)) + (LastOf(lines).name + [COLON])
    case HeaderLws => RenderLines(Before(lines)) + Open(LastOf(lines))
    case HeaderValue => RenderLines(Before(lines)) + Open(LastOf(lines))
    case ExpectingNewline2 => RenderLines(Before(lines)) + (Open(LastOf(lines)) + [CR])
    case ExpectingNewline3 => RenderLines(lines) + [CR]
    case _ => RenderLines(lines)
  }

  /** Where the request line is over. */
  predicate PastLine(s: State) {
    InHeader(s) || s == HeaderLineStart || s == ExpectingNewline3
  }

  predicate BeforeVersion(s: State) {
    || s == MethodStart || s == Method || s == Uri || s == VersionH || s == VersionT1 || s == VersionT2
    || s == VersionP || s == VersionSlash
  }

  /** The method and the URI written so far. */
  predicate WordsSoFar(m: Machine, w: Written) {
    && m.request.verb == w.verb && AllToken(w.verb) && m.request.uri == w.uri && UriText(w.uri)
    && (w.verb == [] <==> m.state == MethodStart) && (m.state == MethodStart || m.state == Method ==> w.uri == [])
  }

  /** The version written so far. */
  predicate VersionSoFar(m: Machine, w: Written) {
    var s := m.state;
    && Digits(w.major) && Digits(w.minor)
    && (BeforeVersion(s) || s == MajorStart <==> w.major == [])
    && (BeforeVersion(s) || s == MajorStart || s == Major || s == MinorStart <==> w.minor == [])
    && (!BeforeVersion(s) ==> m.request.major == Value(w.major) && m.request.minor == Value(w.minor))
  }

  predicate LineSoFar(m: Machine, w: Written) {
    WordsSoFar(m, w) && VersionSoFar(m, w)
  }

  predicate HeadersSoFar(m: Machine, w: Written) {
    var s, lines := m.state, w.lines;
    && m.request.headers == Headers(lines) && GoodLines(lines)
    && (!PastLine(s) ==> lines == []) && (InHeader(s) ==> lines != [])
    && (s == HeaderName || s == SpaceBeforeHeaderValue ==> LastOf(lines).Start? && LastOf(lines).value == [])
    && (s == HeaderLws ==> LastOf(lines).Fold? && LastOf(lines).value == [])
    && (s == HeaderValue && LastOf(lines).Fold? ==> LastOf(lines).value != [])
  }

  /** The text read so far brought the machine where it is. */
  predicate Tracks(m: Machine, w: Written, text: Text) {
    && LineSoFar(m, w) && HeadersSoFar(m, w)
    && text == ReadLine(m.state, w) + ReadHeaders(m.state, w.lines)
  }

  // --- one more character of the request line -----------------------------------------------------

  /** What is written after one more character. */
  function GrowLine(s: State, w: Written, c: Char): Written {
    match s
    case MethodStart => w.(verb := w.verb + [c])
    case Method => if c == SPACE then w else w.(verb := w.verb + [c])
    case Uri => if c == SPACE then w else w.(uri := w.uri + [c])
    case MajorStart => w.(major := w.major + [c])
    case Major => if c == DOT then w else w.(major := w.major + [c])
    case MinorStart => w.(minor := w.minor + [c])
    case Minor => if c == CR then w else w.(minor := w.minor + [c])
    case _ => w
  }

  lemma DigitsMore(s: Text, c: Char)
    requires Digits(s) && IsDigit(c)
    ensures Digits(s + [c]) && Value(s + [c]) == Value(s) * 10 + (c - 48)
  {
    assert (s + [c])[..|s|] == s;
  }

  lemma GrowWords(m: Machine, w: Written, c: Char)
    requires Sound(m) && WordsSoFar(m, w) && !PastLine(m.state) && Consume(m, c).verdict == Indeterminate
    ensures WordsSoFar(Consume(m, c).machine, GrowLine(m.state, w, c))
  {
    TokenIs(c);
    ControlIs(c);
    hide IsTspecial;
  }

  lemma GrowVersion(m: Machine, w: Written, c: Char)
    requires Sound(m) && VersionSoFar(m, w) && !PastLine(m.state) && Consume(m, c).verdict == Indeterminate
    ensures VersionSoFar(Consume(m, c).machine, GrowLine(m.state, w, c))
  {
    hide Value, IsTspecial, IsCtl, IsChar, Digits;
    NoDigits();
    if IsDigit(c) && !BeforeVersion(m.state) {
      DigitsMore(w.major, c);
      DigitsMore(w.minor, c);
    }
  }

  lemma NoDigits()
    ensures Digits([]) && Value([]) == 0
  {
  }

  lemma GrowLineText(m: Machine, w: Written, c: Char)
    requires Sound(m) && !PastLine(m.state) && Consume(m, c).verdict == Indeterminate && LineSoFar(m, w)
    ensures ReadLine(Consume(m, c).machine.state, GrowLine(m.state, w, c)) == ReadLine(m.state, w) + [c]
  {
    if BeforeVersion(m.state) {
      GrowFirstText(m, w, c);
    } else {
      hide IsToken, IsCtl, Value;
    }
  }

  lemma GrowFirstText(m: Machine, w: Written, c: Char)
    requires Sound(m) && BeforeVersion(m.state) && Consume(m, c).verdict == Indeterminate && WordsSoFar(m, w)
    ensures ReadLine(Consume(m, c).machine.state, GrowLine(m.state, w, c)) == ReadLine(m.state, w) + [c]
  {
    hide IsToken, IsCtl;
  }

  // --- one more character of the header lines ---------------------------------------------------------

  function Grown(lines: seq<Line>, l: Line): seq<Line>
    requires lines != []
  {
    Before(lines) + [l]
  }

  function WithMore(l: Line, c: Char): Line {
    l.(value := l.value + [c])
  }

  function GrowLines(s: State, lines: seq<Line>, c: Char): seq<Line>
    requires InHeader(s) ==> lines != []
    requires s == HeaderName ==> LastOf(lines).Start?
    requires s == HeaderLws ==> LastOf(lines).Fold?
  {
    match s
    case HeaderLineStart =>
      if c == CR then lines else if IsBlank(c) then lines + [Fold([c], [])] else lines + [Start([c], [])]
    case HeaderLws =>
      if c == CR then lines
      else if IsBlank(c) then Grown(lines, Fold(LastOf(lines).space + [c], []))
      else Grown(lines, WithMore(LastOf(lines), c))
    case HeaderName => if c == COLON then lines else Grown(lines, Start(LastOf(lines).name + [c], []))
    case HeaderValue => if c == CR then lines else Grown(lines, WithMore(LastOf(lines), c))
    case _ => lines
  }

  lemma {:induction false} SomeHeader(lines: seq<Line>)
    requires lines != [] && lines[0].Start?
    ensures Headers(lines) != []
    decreases |lines|
  {
    if |lines| > 1 {
      SomeHeader(Before(lines));
    }
  }

  lemma HeadersAfter(lines: seq<Line>, l: Line)
    ensures var before := Headers(lines);
            Headers(lines + [l]) ==
              if l.Start? then before + [Header(l.name, l.value)]
              else if before == [] then []
              else before[|before| - 1 := before[|before| - 1].(value := before[|before| - 1].value + l.value)]
    ensures RenderLines(lines + [l]) == RenderLines(lines) + (Open(l) + CRLF)
  {
    assert (lines + [l])[..|lines|] == lines;
  }

  lemma GoodLinesMore(lines: seq<Line>, l: Line)
    requires GoodLines(lines) && GoodLine(l) && (lines == [] ==> l.Start?)
    ensures GoodLines(lines + [l])
  {
  }

  lemma LinesSplit(lines: seq<Line>)
    requires lines != [] && GoodLines(lines)
    ensures lines == Before(lines) + [LastOf(lines)] && GoodLines(Before(lines)) && GoodLine(LastOf(lines))
    ensures if Before(lines) == [] then LastOf(lines).Start? else Before(lines)[0].Start?
  {
    hide GoodLine;
    assert Before(lines) != [] ==> Before(lines)[0] == lines[0];
  }

  /** The last line gets another character: the last header gets it too. */
  lemma MoreValue(r: Request, lines: seq<Line>, c: Char)
    requires lines != [] && GoodLines(lines) && r.headers == Headers(lines) && !IsCtl(c)
    requires LastOf(lines).Fold? && LastOf(lines).value == [] ==> c != SPACE
    ensures r.headers != []
    ensures var grown := Grown(lines, WithMore(LastOf(lines), c));
            GoodLines(grown) && Headers(grown) == WithValue(r, c).headers
  {
    var front, l := Before(lines), LastOf(lines);
    LinesSplit(lines);
    MoreLine(l, c);
    hide GoodLine, GoodLines, Headers, IsCtl;
    SomeHeaderIn(lines);
    HeadersAfter(front, l);
    HeadersAfter(front, WithMore(l, c));
    GoodLinesMore(front, WithMore(l, c));
    if l.Fold? {
      FoldMore(front, l, c);
    }
  }

  lemma SomeHeaderIn(lines: seq<Line>)
    requires lines != [] && GoodLines(lines)
    ensures Headers(lines) != []
  {
    hide GoodLine;
    SomeHeader(lines);
  }

  lemma MoreLine(l: Line, c: Char)
    requires GoodLine(l) && !IsCtl(c) && (l.Fold? && l.value == [] ==> c != SPACE)
    ensures GoodLine(WithMore(l, c))
  {
    ControlIs(c);
    hide IsCtl, IsToken, IsBlank;
  }

  lemma FoldMore(front: seq<Line>, l: Line, c: Char)
    requires l.Fold? && front != [] && front[0].Start?
    ensures var before := Headers(front);
            before != [] &&
            before[|before| - 1].value + (l.value + [c]) == before[|before| - 1].value + l.value + [c]
  {
    SomeHeader(front);
  }

  lemma MoreName(r: Request, lines: seq<Line>, c: Char)
    requires lines != [] && GoodLines(lines) && r.headers == Headers(lines) && IsToken(c)
    requires LastOf(lines).Start? && LastOf(lines).value == []
    ensures r.headers != []
    ensures var grown := Grown(lines, Start(LastOf(lines).name + [c], []));
            GoodLines(grown) && Headers(grown) == WithName(r, c).headers
  {
    hide IsCtl, IsToken;
    var front, l := Before(lines), LastOf(lines);
    LinesSplit(lines);
    TokenIs(c);
    assert GoodLine(Start(l.name + [c], []));
    hide GoodLine, GoodLines, Headers;
    SomeHeaderIn(lines);
    HeadersAfter(front, l);
    HeadersAfter(front, Start(l.name + [c], []));
    GoodLinesMore(front, Start(l.name + [c], []));
  }

  lemma MoreSpace(lines: seq<Line>, c: Char)
    requires lines != [] && GoodLines(lines) && IsBlank(c) && LastOf(lines).Fold? && LastOf(lines).value == []
    ensures var grown := Grown(lines, Fold(LastOf(lines).space + [c], []));
            GoodLines(grown) && Headers(grown) == Headers(lines)
  {
    hide IsBlank;
    var front, l := Before(lines), LastOf(lines);
    LinesSplit(lines);
    assert GoodLine(Fold(l.space + [c], []));
    hide GoodLine, GoodLines, Headers;
    HeadersAfter(front, l);
    HeadersAfter(front, Fold(l.space + [c], []));
    GoodLinesMore(front, Fold(l.space + [c], []));
  }

  lemma NewFold(lines: seq<Line>, c: Char)
    requires GoodLines(lines) && IsBlank(c) && Headers(lines) != []
    ensures GoodLines(lines + [Fold([c], [])]) && Headers(lines + [Fold([c], [])]) == Headers(lines)
  {
    hide IsBlank, Headers;
    assert GoodLine(Fold([c], []));
    hide GoodLine;
    HeadersAfter(lines, Fold([c], []));
    NothingAdded(Headers(lines));
    NoLines();
    GoodLinesMore(lines, Fold([c], []));
  }

  lemma NothingAdded(hs: seq<Header>)
    requires hs != []
    ensures hs[|hs| - 1 := hs[|hs| - 1].(value := hs[|hs| - 1].value + [])] == hs
  {
    assert hs[|hs| - 1].value + [] == hs[|hs| - 1].value;
  }

  lemma NoLines()
    ensures Headers([]) == [] && RenderLines([]) == []
  {
  }

  lemma NewStart(lines: seq<Line>, c: Char)
    requires GoodLines(lines) && IsToken(c)
    ensures GoodLines(lines + [Start([c], [])])
    ensures Headers(lines + [Start([c], [])]) == Headers(lines) + [Header([c], [])]
  {
    hide IsToken, Headers;
    HeadersAfter(lines, Start([c], []));
    TokenIs(c);
    assert GoodLine(Start([c], []));
    GoodLinesMore(lines, Start([c], []));
  }

  lemma BlankIsNoToken(c: Char)
    requires IsBlank(c)
    ensures !IsToken(c)
  {
  }

  lemma GrowHeadersSoFar(m: Machine, w: Written, c: Char)
    requires Sound(m) && HeadersSoFar(m, w) && PastLine(m.state) && Consume(m, c).verdict == Indeterminate
    ensures HeadersSoFar(Consume(m, c).machine, w.(lines := GrowLines(m.state, w.lines, c)))
  {
    hide Headers, GoodLines, IsToken;
    var s, r, lines := m.state, m.request, w.lines;
    if s == HeaderLineStart && IsBlank(c) {
      BlankIsNoToken(c);
      NewFold(lines, c);
    } else if s == HeaderLineStart && c != CR {
      NewStart(lines, c);
    } else if s == HeaderLws && IsBlank(c) {
      MoreSpace(lines, c);
    } else if s == HeaderName && c != COLON {
      MoreName(r, lines, c);
    } else if (s == HeaderLws || s == HeaderValue) && c != CR {
      MoreValue(r, lines, c);
    }
  }

  lemma GrownParts(lines: seq<Line>, l: Line)
    ensures Before(lines + [l]) == lines && LastOf(lines + [l]) == l
  {
  }

  lemma TextNew(lines: seq<Line>, c: Char)
    ensures ReadHeaders(HeaderLws, lines + [Fold([c], [])]) == RenderLines(lines) + [c]
    ensures ReadHeaders(HeaderName, lines + [Start([c], [])]) == RenderLines(lines) + [c]
  {
    hide RenderLines;
    GrownParts(lines, Fold([c], []));
    GrownParts(lines, Start([c], []));
  }

  lemma TextName(lines: seq<Line>, c: Char)
    requires lines != [] && LastOf(lines).Start? && LastOf(lines).value == []
    ensures ReadHeaders(HeaderName, Grown(lines, Start(LastOf(lines).name + [c], []))) == ReadHeaders(HeaderName, lines) + [c]
    ensures ReadHeaders(SpaceBeforeHeaderValue, lines) == ReadHeaders(HeaderName, lines) + [COLON]
    ensures ReadHeaders(HeaderValue, lines) == ReadHeaders(SpaceBeforeHeaderValue, lines) + [SPACE]
  {
    hide RenderLines;
    GrownParts(Before(lines), Start(LastOf(lines).name + [c], []));
    assert Open(LastOf(lines)) == LastOf(lines).name + [COLON] + [SPACE];
  }

  lemma TextValue(lines: seq<Line>, c: Char)
    requires lines != []
    ensures ReadHeaders(HeaderValue, Grown(lines, WithMore(LastOf(lines), c))) == ReadHeaders(HeaderValue, lines) + [c]
    ensures ReadHeaders(ExpectingNewline2, lines) == ReadHeaders(HeaderValue, lines) + [CR]
  {
    hide RenderLines;
    GrownParts(Before(lines), WithMore(LastOf(lines), c));
    OpenMore(LastOf(lines), c);
    hide Open;
  }

  lemma OpenMore(l: Line, c: Char)
    ensures Open(WithMore(l, c)) == Open(l) + [c]
  {
  }

  lemma LineDone(lines: seq<Line>)
    requires lines != []
    ensures RenderLines(lines) == ReadHeaders(ExpectingNewline2, lines) + [LF]
  {
    hide Open;
    assert Open(LastOf(lines)) + CRLF == Open(LastOf(lines)) + [CR] + [LF];
  }

  lemma TextSpace(lines: seq<Line>, c: Char)
    requires lines != [] && LastOf(lines).Fold? && LastOf(lines).value == []
    ensures ReadHeaders(HeaderLws, Grown(lines, Fold(LastOf(lines).space + [c], []))) == ReadHeaders(HeaderLws, lines) + [c]
    ensures ReadHeaders(HeaderLws, lines) == ReadHeaders(HeaderValue, lines)
  {
    hide RenderLines;
    GrownParts(Before(lines), Fold(LastOf(lines).space + [c], []));
  }

  lemma GrowHeadersText(m: Machine, w: Written, c: Char)
    requires Sound(m) && HeadersSoFar(m, w) && PastLine(m.state) && Consume(m, c).verdict == Indeterminate
    requires HeadersSoFar(Consume(m, c).machine, w.(lines := GrowLines(m.state, w.lines, c)))
    ensures ReadHeaders(Consume(m, c).machine.state, GrowLines(m.state, w.lines, c)) == ReadHeaders(m.state, w.lines) + [c]
  {
    hide Headers, GoodLines, GoodLine, IsToken, IsCtl, RenderLines, Open, LastOf, Before, Grown, WithMore, ReadHeaders;
    var s, lines := m.state, w.lines;
    if s == HeaderLineStart {
      if IsBlank(c) { BlankIsNoToken(c); }
      TextNew(lines, c);
      DoneText(lines);
    } else if s == HeaderName || s == SpaceBeforeHeaderValue {
      TextName(lines, c);
    } else if InHeader(s) {
      TextValue(lines, c);
      if s == HeaderLws { TextSpace(lines, c); }
      LineDone(lines);
      DoneText(lines);
    }
  }

  lemma DoneText(lines: seq<Line>)
    ensures ReadHeaders(HeaderLineStart, lines) == RenderLines(lines)
    ensures ReadHeaders(ExpectingNewline3, lines) == RenderLines(lines) + [CR]
  {
  }

  // --- every accepted text -----------------------------------------------------------------------

  lemma GrowOnLine(m: Machine, w: Written, text: Text, c: Char)
    requires Sound(m) && Tracks(m, w, text) && !PastLine(m.state) && Consume(m, c).verdict == Indeterminate
    ensures Tracks(Consume(m, c).machine, GrowLine(m.state, w, c), text + [c])
  {
    hide ReadLine, WordsSoFar, VersionSoFar, Consume, HeadersSoFar, GrowLine;
    GrowWords(m, w, c);
    GrowVersion(m, w, c);
    GrowLineText(m, w, c);
    HeadersUntouched(m, w, c);
  }

  lemma HeadersUntouched(m: Machine, w: Written, c: Char)
    requires Sound(m) && HeadersSoFar(m, w) && !PastLine(m.state) && Consume(m, c).verdict == Indeterminate
    ensures var m', w' := Consume(m, c).machine, GrowLine(m.state, w, c);
            && HeadersSoFar(m', w') && w'.lines == []
            && ReadHeaders(m.state, w.lines) == [] && ReadHeaders(m'.state, w'.lines) == []
  {
    hide IsToken, IsCtl;
  }

  lemma GrowOnHeaders(m: Machine, w: Written, text: Text, c: Char)
    requires Sound(m) && Tracks(m, w, text) && PastLine(m.state) && Consume(m, c).verdict == Indeterminate
    ensures Tracks(Consume(m, c).machine, w.(lines := GrowLines(m.state, w.lines, c)), text + [c])
  {
    hide LineSoFar, ReadLine, ReadHeaders, Consume, Headers, GoodLines, GrowLines;
    GrowHeadersSoFar(m, w, c);
    GrowHeadersText(m, w, c);
    LineUntouched(m, w, c);
    JoinOne(ReadLine(m.state, w), ReadHeaders(m.state, w.lines), c);
  }

  lemma JoinOne(a: Text, b: Text, c: Char)
    ensures a + (b + [c]) == a + b + [c]
  {
  }

  lemma LineUntouched(m: Machine, w: Written, c: Char)
    requires Sound(m) && LineSoFar(m, w) && PastLine(m.state) && Consume(m, c).verdict == Indeterminate
    requires InHeader(m.state) ==> w.lines != []
    requires m.state == HeaderName ==> LastOf(w.lines).Start?
    requires m.state == HeaderLws ==> LastOf(w.lines).Fold?
    ensures var m', w' := Consume(m, c).machine, w.(lines := GrowLines(m.state, w.lines, c));
            LineSoFar(m', w') && ReadLine(m'.state, w') == ReadLine(m.state, w)
  {
    hide Consume, GrowLines, Value, Digits, AllToken, UriText, ReadLine, RenderHead, LineSoFar;
    HeadersOnly(m, c);
    LineOver(m, w);
    LineOver(Consume(m, c).machine, w.(lines := GrowLines(m.state, w.lines, c)));
    var w' := w.(lines := GrowLines(m.state, w.lines, c));
    ReadPast(m.state, w);
    ReadPast(Consume(m, c).machine.state, w');
    SameHead(w, w');
  }

  /** The whole request line was written. */
  predicate LineWritten(r: Request, w: Written) {
    && w.verb != [] && r.verb == w.verb && AllToken(w.verb) && r.uri == w.uri && UriText(w.uri)
    && w.major != [] && w.minor != [] && Digits(w.major) && Digits(w.minor)
    && r.major == Value(w.major) && r.minor == Value(w.minor)
  }

  lemma LineOver(m: Machine, w: Written)
    requires PastLine(m.state)
    ensures LineSoFar(m, w) <==> LineWritten(m.request, w)
  {
    hide AllToken, UriText, Digits, Value;
  }

  lemma ReadPast(s: State, w: Written)
    requires PastLine(s)
    ensures ReadLine(s, w) == RenderHead(w)
  {
    hide RenderHead;
  }

  lemma SameHead(w: Written, w': Written)
    requires w'.(lines := []) == w.(lines := [])
    ensures RenderHead(w') == RenderHead(w)
  {
  }

  /** From the first header line on, only the headers change. */
  lemma HeadersOnly(m: Machine, c: Char)
    requires Sound(m) && PastLine(m.state)
    ensures var m' := Consume(m, c).machine;
            PastLine(m'.state) && m'.request.(headers := []) == m.request.(headers := [])
  {
    hide IsToken, IsCtl, WithName, WithValue;
    if m.request.headers != [] {
      KeepsLine(m.request, c);
    }
  }

  lemma KeepsLine(r: Request, c: Char)
    requires r.headers != []
    ensures WithName(r, c).(headers := []) == r.(headers := [])
    ensures WithValue(r, c).(headers := []) == r.(headers := [])
  {
  }

  lemma OnlyEnd(m: Machine, c: Char)
    requires Sound(m) && Consume(m, c).verdict == Good
    ensures m.state == ExpectingNewline3 && c == LF && Consume(m, c).machine == m
  {
    hide IsToken, IsCtl;
  }

  /** The last character: the text is the rendering of what was written, and the request its meaning. */
  lemma TracksEnd(m: Machine, w: Written, text: Text, c: Char)
    requires Sound(m) && Tracks(m, w, text) && Consume(m, c).verdict == Good
    ensures GoodText(w) && text + [c] == Render(w)
    ensures Consume(m, c).machine == Machine(ExpectingNewline3, Meaning(w))
  {
    hide Consume, Headers, GoodLines, AllToken, UriText, Value, Digits, RenderLines, RenderHead, ReadLine, ReadHeaders;
    OnlyEnd(m, c);
    ReadPast(m.state, w);
    DoneText(w.lines);
    assert RenderHead(w) + (RenderLines(w.lines) + [CR]) + [LF] == RenderHead(w) + RenderLines(w.lines) + CRLF;
  }

  lemma {:induction false} AcceptedFrom(m: Machine, w: Written, read: Text, text: Text) returns (all: Written)
    requires Sound(m) && Tracks(m, w, read) && Feed(m, text).verdict == Good
    ensures GoodText(all) && read + text[..Feed(m, text).used] == Render(all)
    ensures Feed(m, text).machine == Machine(ExpectingNewline3, Meaning(all))
    decreases |text|
  {
    hide Consume, Tracks, Sound, GoodText, Render, Meaning;
    var c := text[0];
    var s := Consume(m, c);
    if s.verdict == Good {
      TracksEnd(m, w, read, c);
      all := w;
      assert text[..1] == [c];
    } else {
      var grown := GrowTracks(m, w, read, c);
      all := AcceptedFrom(s.machine, grown, read + [c], text[1..]);
      var k := Feed(s.machine, text[1..]).used;
      assert text[..k + 1] == [c] + text[1..][..k];
      assert read + [c] + text[1..][..k] == read + text[..k + 1];
    }
  }

  lemma GrowTracks(m: Machine, w: Written, text: Text, c: Char) returns (grown: Written)
    requires Sound(m) && Tracks(m, w, text) && Consume(m, c).verdict == Indeterminate
    ensures Tracks(Consume(m, c).machine, grown, text + [c])
  {
    hide Consume, LineSoFar, ReadLine, ReadHeaders, Headers, GoodLines;
    if PastLine(m.state) {
      GrowOnHeaders(m, w, text, c);
      grown := w.(lines := GrowLines(m.state, w.lines, c));
    } else {
      GrowOnLine(m, w, text, c);
      grown := GrowLine(m.state, w, c);
    }
  }

  /** Every accepted text is a rendering, and the request is what it means. */
  lemma AcceptedText(major: nat, minor: nat, text: Text) returns (w: Written)
    requires Feed(Ready(major, minor), text).verdict == Good
    ensures var p := Feed(Ready(major, minor), text);
            GoodText(w) && text[..p.used] == Render(w) && p.machine == Machine(ExpectingNewline3, Meaning(w))
  {
    hide Feed, GoodText, Render, Meaning;
    var none := Written([], [], [], [], []);
    NothingRead(major, minor, none);
    w := AcceptedFrom(Ready(major, minor), none, [], text);
    var k := Feed(Ready(major, minor), text).used;
    assert [] + text[..k] == text[..k];
  }

  lemma NothingRead(major: nat, minor: nat, none: Written)
    requires none == Written([], [], [], [], [])
    ensures Tracks(Ready(major, minor), none, [])
  {
  }

  // --- every rendering is accepted -------------------------------------------------------------------

  lemma {:induction false} LinesStage(r: Request, lines: seq<Line>)
    requires GoodLines(lines)
    ensures Leads(Machine(HeaderLineStart, r.(headers := [])), RenderLines(lines),
                  Machine(HeaderLineStart, r.(headers := Headers(lines))))
    decreases |lines|
  {
    hide Leads, Feed, Consume, Headers, RenderLines, GoodLine, GoodLines;
    var m := Machine(HeaderLineStart, r.(headers := []));
    if lines == [] {
      NoLines();
      LeadsNothing(m);
    } else {
      var front, l := Before(lines), LastOf(lines);
      LinesSplit(lines);
      LinesStage(r, front);
      HeadersAfter(front, l);
      var r1, r2 := r.(headers := Headers(front)), r.(headers := Headers(lines));
      LineOfHeader(r1, front, l, r2);
      LeadsJoin(m, RenderLines(front), Machine(HeaderLineStart, r1), Open(l) + CRLF, Machine(HeaderLineStart, r2));
    }
  }

  lemma LineOfHeader(r: Request, front: seq<Line>, l: Line, after: Request)
    requires GoodLines(front) && GoodLine(l) && r.headers == Headers(front) && (front == [] ==> l.Start?)
    requires after == r.(headers := Headers(front + [l]))
    ensures Leads(Machine(HeaderLineStart, r), Open(l) + CRLF, Machine(HeaderLineStart, after))
  {
    hide Leads, Feed, Consume, Headers, RenderLines, IsToken, IsCtl, IsBlank;
    HeadersAfter(front, l);
    if l.Start? {
      var h := Header(l.name, l.value);
      HeaderStage(r, h);
      assert PrintHeader(h) == Open(l) + CRLF;
    } else {
      SomeHeader(front);
      FoldStage(r, l.space, l.value);
      assert l.space + (l.value + CRLF) == Open(l) + CRLF;
    }
  }

  lemma HeadText(w: Written)
    ensures RenderHead(w) == LineText(w.verb, w.uri, w.major, w.minor)
  {
  }

  /** Every rendering is accepted on its last character, and the request is what it means. */
  lemma RenderAccepted(w: Written, major: nat, minor: nat)
    requires GoodText(w)
    ensures Feed(Ready(major, minor), Render(w)) == Parsed(Good, Machine(ExpectingNewline3, Meaning(w)), |Render(w)|)
    ensures forall k | 0 <= k < |Render(w)| :: Feed(Ready(major, minor), Render(w)[..k]).verdict == Indeterminate
  {
    hide Feed, Consume, RenderHead, RenderLines, GoodLines, Headers, Value, Digits, IsToken, IsCtl;
    var r := Meaning(w);
    var m0, m1, m2 := Ready(major, minor), Machine(HeaderLineStart, r.(headers := [])), Machine(HeaderLineStart, r);
    LineStage(w.verb, w.uri, w.major, w.minor, major, minor);
    HeadText(w);
    LinesStage(r, w.lines);
    LeadsJoin(m0, RenderHead(w), m1, RenderLines(w.lines), m2);
    EndStage(r);
    FeedJoin(m0, RenderHead(w) + RenderLines(w.lines), CRLF);
    forall k | 0 <= k < |Render(w)| ensures Feed(m0, Render(w)[..k]).verdict == Indeterminate {
      NoVerdictBefore(m0, Render(w), k);
    }
  }

  /** A text is accepted if and only if it starts with a rendering. */
  lemma AcceptedExactly(major: nat, minor: nat, text: Text)
    ensures Feed(Ready(major, minor), text).verdict == Good <==>
            exists w: Written :: GoodText(w) && Render(w) <= text
  {
    hide Feed, GoodText, Render, Meaning;
    if Feed(Ready(major, minor), text).verdict == Good {
      var w := AcceptedText(major, minor, text);
      assert Render(w) <= text;
    }
    if w: Written :| GoodText(w) && Render(w) <= text {
      RenderAccepted(w, major, minor);
      FeedJoin(Ready(major, minor), Render(w), text[|Render(w)|..]);
      assert text == Render(w) + text[|Render(w)|..];
    }
  }

  // --- requests as text and back ------------------------------------------------------------------

  function PlainLines(hs: seq<Header>): seq<Line> {
    if hs == [] then [] else PlainLines(hs[..|hs| - 1]) + [Start(hs[|hs| - 1].name, hs[|hs| - 1].value)]
  }

  /** A request, written without leading zeros and continuation lines. */
  function Plain(r: Request): Written {
    Written(r.verb, r.uri, Decimal(r.major), Decimal(r.minor), PlainLines(r.headers))
  }

  lemma {:induction false} DecimalDigits(n: nat)
    ensures Digits(Decimal(n)) && Value(Decimal(n)) == n
  {
    var s := Decimal(n);
    if n >= 10 {
      DecimalDigits(n / 10);
      assert s[..|s| - 1] == Decimal(n / 10);
      DigitsMore(Decimal(n / 10), 48 + n % 10);
    } else {
      NoDigits();
      DigitsMore([], 48 + n);
      assert [] + [48 + n] == s;
    }
  }

  lemma {:induction false} PlainLinesGood(hs: seq<Header>)
    requires GoodHeaders(hs)
    ensures GoodLines(PlainLines(hs)) && Headers(PlainLines(hs)) == hs && (hs == [] <==> PlainLines(hs) == [])
    ensures RenderLines(PlainLines(hs)) == PrintHeaders(hs)
    decreases |hs|
  {
    hide IsToken, IsCtl, Headers, RenderLines, PrintHeaders;
    if hs == [] {
      NoLines();
      NoHeaders();
    } else {
      var front, h := hs[..|hs| - 1], hs[|hs| - 1];
      PlainLinesGood(front);
      var l := Start(h.name, h.value);
      assert GoodHeader(hs[|hs| - 1]);
      assert GoodLine(l);
      GoodLinesMore(PlainLines(front), l);
      HeadersAfter(PlainLines(front), l);
      PrintBehind(front, h);
      assert hs == front + [h];
      assert PrintHeader(h) == Open(l) + CRLF;
    }
  }

  lemma NoHeaders()
    ensures PrintHeaders([]) == []
  {
  }

  lemma {:induction false} PrintBehind(hs: seq<Header>, h: Header)
    ensures PrintHeaders(hs + [h]) == PrintHeaders(hs) + PrintHeader(h)
    decreases |hs|
  {
    hide PrintHeader;
    if hs == [] {
      assert hs + [h] == [h] && [h][1..] == [];
    } else {
      assert (hs + [h])[1..] == hs[1..] + [h];
      PrintBehind(hs[1..], h);
    }
  }

  lemma PlainText(r: Request)
    requires WellFormed(r)
    ensures GoodText(Plain(r)) && Render(Plain(r)) == Print(r) && Meaning(Plain(r)) == r
  {
    hide IsToken, IsCtl, Headers, RenderLines, PrintHeaders, Decimal, Value, Digits, GoodLines, GoodHeaders;
    DecimalDigits(r.major);
    DecimalDigits(r.minor);
    PlainLinesGood(r.headers);
    HeadText(Plain(r));
  }

  /** Parsing the text of a request gives the request back, with the verdict on the last character. */
  lemma PrintThenParse(r: Request, major: nat, minor: nat)
    requires WellFormed(r)
    ensures Feed(Ready(major, minor), Print(r)) == Parsed(Good, Machine(ExpectingNewline3, r), |Print(r)|)
    ensures forall k | 0 <= k < |Print(r)| :: Feed(Ready(major, minor), Print(r)[..k]).verdict == Indeterminate
  {
    hide Feed, Print, Render, WellFormed, GoodText, Plain, Meaning;
    PlainText(r);
    RenderAccepted(Plain(r), major, minor);
  }

  lemma {:induction false} HeadersGood(lines: seq<Line>)
    requires GoodLines(lines)
    ensures GoodHeaders(Headers(lines))
    decreases |lines|
  {
    hide IsToken, IsCtl, IsBlank;
    if lines != [] {
      assert Before(lines) != [] ==> Before(lines)[0] == lines[0];
      HeadersGood(Before(lines));
      assert GoodLine(LastOf(lines));
    }
  }

  /** Whatever text was accepted: printing the request and parsing that gives the same request. */
  lemma ParseThenPrint(major: nat, minor: nat, text: Text)
    requires Feed(Ready(major, minor), text).verdict == Good
    ensures var r := Feed(Ready(major, minor), text).machine.request;
            && WellFormed(r)
            && Feed(Ready(major, minor), Print(r)).verdict == Good
            && Feed(Ready(major, minor), Print(r)).machine.request == r
  {
    hide Feed, Print, Render, Headers, IsToken, IsCtl, Value, Digits, GoodLines, GoodHeaders;
    var w := AcceptedText(major, minor, text);
    HeadersGood(w.lines);
    PrintThenParse(Meaning(w), major, minor);
  }
}
