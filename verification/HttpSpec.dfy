/**
 The HTTP request parser of lib/http/request_parser.cpp as a machine over signed
 characters, and what a whole request looks like.
 */
module HttpSpec {

  /** A signed character; bytes above 127 are negative. */
  type Char = c: int | -128 <= c < 128

  type Text = seq<Char>

  datatype Header = Header(name: Text, value: Text)

  datatype Request = Request(verb: Text, uri: Text, major: nat, minor: nat, headers: seq<Header>)

  datatype Verdict = Good | Bad | Indeterminate

  datatype State =
    | MethodStart | Method | Uri
    | VersionH | VersionT1 | VersionT2 | VersionP | VersionSlash
    | MajorStart | Major | MinorStart | Minor
    | ExpectingNewline1 | HeaderLineStart | HeaderLws | HeaderName | SpaceBeforeHeaderValue | HeaderValue
    | ExpectingNewline2 | ExpectingNewline3

  const CR: Char := 13
  const LF: Char := 10
  const SPACE: Char := 32
  const TAB: Char := 9
  const COLON: Char := 58
  const DOT: Char := 46

  // --- character classes ---------------------------------------------------------------

  predicate IsChar(c: Char) {
    0 <= c <= 127
  }

  predicate IsCtl(c: Char) {
    0 <= c <= 31 || c == 127
  }

  /** ( ) < > @ , ; : \ " / [ ] ? = { } space and tab. */
  predicate IsTspecial(c: Char) {
    || c == 40 || c == 41 || c == 60 || c == 62 || c == 64 || c == 44 || c == 59 || c == 58 || c == 92 || c == 34
    || c == 47 || c == 91 || c == 93 || c == 63 || c == 61 || c == 123 || c == 125 || c == 32 || c == 9
  }

  predicate IsDigit(c: Char) {
    48 <= c <= 57
  }

  /** A character of a token. */
  predicate IsToken(c: Char) {
    IsChar(c) && !IsCtl(c) && !IsTspecial(c)
  }

  // --- one character ---------------------------------------------------------------------

  datatype Machine = Machine(state: State, request: Request)

  /** In these states a header is being filled in. */
  predicate InHeader(state: State) {
    || state == HeaderLws || state == HeaderName || state == SpaceBeforeHeaderValue || state == HeaderValue
    || state == ExpectingNewline2
  }

  /** The last header exists wherever it is used. */
  predicate Sound(m: Machine) {
    InHeader(m.state) ==> m.request.headers != []
  }

  function WithName(r: Request, c: Char): Request
    requires r.headers != []
  {
    var last := |r.headers| - 1;
    r.(headers := r.headers[last := r.headers[last].(name := r.headers[last].name + [c])])
  }

  function WithValue(r: Request, c: Char): Request
    requires r.headers != []
  {
    var last := |r.headers| - 1;
    r.(headers := r.headers[last := r.headers[last].(value := r.headers[last].value + [c])])
  }

  datatype Step = Step(verdict: Verdict, machine: Machine)

  function Go(m: Machine, state: State): Step {
    Step(Indeterminate, m.(state := state))
  }

  function Expect(m: Machine, c: Char, wanted: Char, state: State): Step {
    if c == wanted then Go(m, state) else Step(Bad, m)
  }

  /** consume. */
  function Consume(m: Machine, c: Char): (s: Step)
    requires Sound(m)
    ensures Sound(s.machine)
  {
    var r := m.request;
    match m.state
    case MethodStart =>
      if !IsToken(c) then Step(Bad, m) else Step(Indeterminate, Machine(Method, r.(verb := r.verb + [c])))
    case Method =>
      if c == SPACE then Go(m, Uri)
      else if !IsToken(c) then Step(Bad, m)
      else Step(Indeterminate, m.(request := r.(verb := r.verb + [c])))
    case Uri =>
      if c == SPACE then Go(m, VersionH)
      else if IsCtl(c) then Step(Bad, m)
      else Step(Indeterminate, m.(request := r.(uri := r.uri + [c])))
    case VersionH => Expect(m, c, 72, VersionT1)
    case VersionT1 => Expect(m, c, 84, VersionT2)
    case VersionT2 => Expect(m, c, 84, VersionP)
    case VersionP => Expect(m, c, 80, VersionSlash)
    case VersionSlash =>
      if c == 47 then Step(Indeterminate, Machine(MajorStart, r.(major := 0, minor := 0))) else Step(Bad, m)
    case MajorStart =>
      if IsDigit(c) then Step(Indeterminate, Machine(Major, r.(major := r.major * 10 + (c - 48)))) else Step(Bad, m)
    case Major =>
      if c == DOT then Go(m, MinorStart)
      else if IsDigit(c) then Step(Indeterminate, Machine(Major, r.(major := r.major * 10 + (c - 48))))
      else Step(Bad, m)
    case MinorStart =>
      if IsDigit(c) then Step(Indeterminate, Machine(Minor, r.(minor := r.minor * 10 + (c - 48)))) else Step(Bad, m)
    case Minor =>
      if c == CR then Go(m, ExpectingNewline1)
      else if IsDigit(c) then Step(Indeterminate, Machine(Minor, r.(minor := r.minor * 10 + (c - 48))))
      else Step(Bad, m)
    case ExpectingNewline1 => Expect(m, c, LF, HeaderLineStart)
    case HeaderLineStart =>
      if c == CR then Go(m, ExpectingNewline3)
      else if r.headers != [] && (c == SPACE || c == TAB) then Go(m, HeaderLws)
      else if !IsToken(c) then Step(Bad, m)
      else Step(Indeterminate, Machine(HeaderName, r.(headers := r.headers + [Header([c], [])])))
    case HeaderLws =>
      if c == CR then Go(m, ExpectingNewline2)
      else if c == SPACE || c == TAB then Step(Indeterminate, m)
      else if IsCtl(c) then Step(Bad, m)
      else Step(Indeterminate, Machine(HeaderValue, WithValue(r, c)))
    case HeaderName =>
      if c == COLON then Go(m, SpaceBeforeHeaderValue)
      else if !IsToken(c) then Step(Bad, m)
      else Step(Indeterminate, m.(request := WithName(r, c)))
    case SpaceBeforeHeaderValue => Expect(m, c, SPACE, HeaderValue)
    case HeaderValue =>
      if c == CR then Go(m, ExpectingNewline2)
      else if IsCtl(c) then Step(Bad, m)
      else Step(Indeterminate, m.(request := WithValue(r, c)))
    case ExpectingNewline2 => Expect(m, c, LF, HeaderLineStart)
    case ExpectingNewline3 => if c == LF then Step(Good, m) else Step(Bad, m)
  }

  /** A machine that starts on a request without contents. */
  function Ready(major: nat, minor: nat): Machine {
    Machine(MethodStart, Request([], [], major, minor, []))
  }

  // --- a text --------------------------------------------------------------------------------

  /** Verdict, machine and number of characters consumed. */
  datatype Parsed = Parsed(verdict: Verdict, machine: Machine, used: nat)

  /** Characters are consumed until there is a verdict. */
  function Feed(m: Machine, text: Text): (p: Parsed)
    requires Sound(m)
    ensures Sound(p.machine) && p.used <= |text|
    ensures p.verdict == Indeterminate ==> p.used == |text|
    decreases |text|
  {
    if text == [] then Parsed(Indeterminate, m, 0)
    else
      var s := Consume(m, text[0]);
      if s.verdict != Indeterminate then Parsed(s.verdict, s.machine, 1)
      else
        var p := Feed(s.machine, text[1..]);
        p.(used := p.used + 1)
  }

  /** Feeding in two parts is the same as feeding at once. */
  lemma {:induction false} FeedJoin(m: Machine, a: Text, b: Text)
    requires Sound(m)
    ensures var p := Feed(m, a);
            Feed(m, a + b) ==
              if p.verdict != Indeterminate then p
              else var q := Feed(p.machine, b); q.(used := |a| + q.used)
    decreases |a|
  {
    hide Consume;
    if a == [] {
      assert a + b == b;
    } else {
      assert (a + b)[0] == a[0] && (a + b)[1..] == a[1..] + b;
      var s := Consume(m, a[0]);
      if s.verdict == Indeterminate {
        FeedJoin(s.machine, a[1..], b);
      }
    }
  }

  /** The chunks of a connection, fed one by one until there is a verdict. */
  function FeedChunks(m: Machine, chunks: seq<Text>): Parsed
    requires Sound(m)
    decreases |chunks|
  {
    if chunks == [] then Parsed(Indeterminate, m, 0)
    else
      var p := Feed(m, chunks[0]);
      if p.verdict != Indeterminate then p
      else
        var q := FeedChunks(p.machine, chunks[1..]);
        q.(used := p.used + q.used)
  }

  function Concat(chunks: seq<Text>): Text {
    if chunks == [] then [] else chunks[0] + Concat(chunks[1..])
  }

  /** However a text is split, verdict, request and consumed count are the same. */
  lemma {:induction false} ChunksDoNotMatter(m: Machine, chunks: seq<Text>)
    requires Sound(m)
    ensures FeedChunks(m, chunks) == Feed(m, Concat(chunks))
    decreases |chunks|
  {
    hide Consume;
    if chunks != [] {
      FeedJoin(m, chunks[0], Concat(chunks[1..]));
      var p := Feed(m, chunks[0]);
      if p.verdict == Indeterminate {
        ChunksDoNotMatter(p.machine, chunks[1..]);
      }
    }
  }

  /** Before the character that brings the verdict there is none. */
  lemma {:induction false} NoVerdictBefore(m: Machine, text: Text, k: nat)
    requires Sound(m) && k < Feed(m, text).used
    ensures Feed(m, text[..k]).verdict == Indeterminate
    decreases k
  {
    hide Consume;
    if k > 0 {
      assert text[..k][0] == text[0] && text[..k][1..] == text[1..][..k - 1];
      NoVerdictBefore(Consume(m, text[0]).machine, text[1..], k - 1);
    }
  }
}
