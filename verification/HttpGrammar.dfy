/**
 HTTP requests as texts, independent of the parser: the characters of section 2.2 of RFC
 1945, request lines, header lines and continuation lines, and the requests they mean.
 */
module HttpGrammar {
  import opened HttpSpec

  // --- characters ----------------------------------------------------------------------

  predicate IsLetter(c: Char) {
    'A' as int <= c <= 'Z' as int || 'a' as int <= c <= 'z' as int
  }

  predicate IsDecimal(c: Char) {
    '0' as int <= c <= '9' as int
  }

  /** Letters, digits and ! # $ % & ' * + - . ^ _ ` | ~ */
  predicate TokenChar(c: Char) {
    || IsLetter(c) || IsDecimal(c)
    || c == '!' as int || c == '#' as int || c == '$' as int || c == '%' as int || c == '&' as int
    || c == '\'' as int || c == '*' as int || c == '+' as int || c == '-' as int || c == '.' as int
    || c == '^' as int || c == '_' as int || c == '`' as int || c == '|' as int || c == '~' as int
  }

  /** Everything below the space, and DEL; bytes above 127 are no control characters. */
  predicate ControlChar(c: Char) {
    (c >= 0 && c < ' ' as int) || c == 127
  }

  predicate IsBlank(c: Char) {
    c == ' ' as int || c == '\t' as int
  }

  const CRLF: Text := ['\r' as int, '\n' as int]
  const BLANK: Text := [' ' as int]
  const HTTP_VERSION: Text := [' ' as int, 'H' as int, 'T' as int, 'T' as int, 'P' as int, '/' as int]
  const POINT: Text := ['.' as int]
  const NAME_END: Text := [':' as int, ' ' as int]

  /** The parser sorts characters in the same way. */
  lemma TokenIs(c: Char)
    ensures IsToken(c) <==> TokenChar(c)
  {
  }

  lemma ControlIs(c: Char)
    ensures IsCtl(c) <==> ControlChar(c)
  {
  }

  // --- requests as text ------------------------------------------------------------------------

  predicate AllToken(s: Text) {
    forall i | 0 <= i < |s| :: TokenChar(s[i])
  }

  predicate NoCtl(s: Text) {
    forall i | 0 <= i < |s| :: !ControlChar(s[i])
  }

  predicate UriText(s: Text) {
    NoCtl(s) && ' ' as int !in s
  }

  predicate GoodHeader(h: Header) {
    h.name != [] && AllToken(h.name) && NoCtl(h.value)
  }

  predicate GoodHeaders(hs: seq<Header>) {
    forall i | 0 <= i < |hs| :: GoodHeader(hs[i])
  }

  /** The requests that a text can express. */
  predicate WellFormed(r: Request) {
    r.verb != [] && AllToken(r.verb) && UriText(r.uri) && GoodHeaders(r.headers)
  }

  function Decimal(n: nat): (s: Text)
    ensures s != []
  {
    if n < 10 then [48 + n] else Decimal(n / 10) + [48 + n % 10]
  }

  function PrintHeader(h: Header): Text {
    h.name + NAME_END + h.value + CRLF
  }

  function PrintHeaders(hs: seq<Header>): Text {
    if hs == [] then [] else PrintHeader(hs[0]) + PrintHeaders(hs[1..])
  }

  /** Method SP URI SP "HTTP/" digits "." digits CRLF. */
  function LineText(verb: Text, uri: Text, major: Text, minor: Text): Text {
    verb + (BLANK + (uri + (HTTP_VERSION + (major + (POINT + (minor + CRLF))))))
  }

  /** The request line, the headers, and an empty line. */
  function Print(r: Request): Text {
    PrintLine(r) + (PrintHeaders(r.headers) + CRLF)
  }

  function PrintLine(r: Request): Text {
    LineText(r.verb, r.uri, Decimal(r.major), Decimal(r.minor))
  }

  predicate Digits(s: Text) {
    forall i | 0 <= i < |s| :: IsDecimal(s[i])
  }

  function Value(s: Text): nat
    requires Digits(s)
  {
    if s == [] then 0 else Value(s[..|s| - 1]) * 10 + (s[|s| - 1] - '0' as int)
  }

  /** A header line, or a line that continues the value of the header before it. */
  datatype Line = Start(name: Text, value: Text) | Fold(space: Text, value: Text)

  /** A request as it was written. */
  datatype Written = Written(verb: Text, uri: Text, major: Text, minor: Text, lines: seq<Line>)

  predicate GoodLine(l: Line) {
    && NoCtl(l.value)
    && match l
       case Start(name, _) => name != [] && AllToken(name)
       case Fold(space, value) =>
         && space != [] && (forall i | 0 <= i < |space| :: IsBlank(space[i]))
         && (value != [] ==> value[0] != ' ' as int)
  }

  /** The first line starts a header. */
  predicate GoodLines(lines: seq<Line>) {
    (forall i | 0 <= i < |lines| :: GoodLine(lines[i])) && (lines != [] ==> lines[0].Start?)
  }

  predicate GoodText(w: Written) {
    && w.verb != [] && AllToken(w.verb) && UriText(w.uri)
    && w.major != [] && Digits(w.major) && w.minor != [] && Digits(w.minor)
    && GoodLines(w.lines)
  }

  // --- as text and as a request ---------------------------------------------------------------

  function Open(l: Line): Text {
    match l
    case Start(name, value) => name + NAME_END + value
    case Fold(space, value) => space + value
  }

  function RenderLines(lines: seq<Line>): Text {
    if lines == [] then [] else RenderLines(lines[..|lines| - 1]) + (Open(lines[|lines| - 1]) + CRLF)
  }

  /** The request line up to the digits of the version. */
  function UpToMajor(w: Written): Text {
    w.verb + BLANK + w.uri + HTTP_VERSION
  }

  function RenderHead(w: Written): Text {
    UpToMajor(w) + w.major + POINT + w.minor + CRLF
  }

  function Render(w: Written): Text {
    RenderHead(w) + RenderLines(w.lines) + CRLF
  }

  /** The headers that the lines denote: continuation lines are joined without what they start with. */
  function Headers(lines: seq<Line>): seq<Header> {
    if lines == [] then []
    else
      var before, last := Headers(lines[..|lines| - 1]), lines[|lines| - 1];
      if last.Start? then before + [Header(last.name, last.value)]
      else if before == [] then []
      else before[|before| - 1 := before[|before| - 1].(value := before[|before| - 1].value + last.value)]
  }

  function Meaning(w: Written): Request
    requires Digits(w.major) && Digits(w.minor)
  {
    Request(w.verb, w.uri, Value(w.major), Value(w.minor), Headers(w.lines))
  }
}
