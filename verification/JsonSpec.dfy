/**
 JSON values, their compact text and the reading of text, after lib/json/jsoncpp.cpp.

 Texts are sequences of byte values held in `char`; a document ends where its
 sequence ends.  Reading functions take the text that is left and return what is
 left afterwards.  The reader runs with its default features and without
 collecting comments.
 */
module JsonSpec {
  import opened Decimals

  datatype Option<+T> = None | Some(value: T)

  /** `Real` keeps the text handed to sscanf; members of an object are ordered by name. */
  datatype Value =
    | Null
    | Int(i: int)
    | UInt(u: nat)
    | Real(text: string)
    | Bool(b: bool)
    | Str(s: string)
    | Arr(items: seq<Value>)
    | Obj(members: seq<Member>)

  datatype Member = Member(name: string, value: Value)

  const MAX_INT := 0x7FFF_FFFF
  const MIN_LARGEST_INT := -0x8000_0000_0000_0000
  const MAX_LARGEST_UINT := 0xFFFF_FFFF_FFFF_FFFF

  // --- order of member names (strcmp) --------------------------------------

  predicate Less(a: string, b: string)
    decreases |a|
  {
    b != "" && (a == "" || a[0] < b[0] || (a[0] == b[0] && Less(a[1..], b[1..])))
  }

  ghost predicate Sorted(ms: seq<Member>) {
    forall i, j | 0 <= i < j < |ms| :: Less(ms[i].name, ms[j].name)
  }

  /** operator[] followed by an assignment. */
  function Insert(ms: seq<Member>, name: string, value: Value): (r: seq<Member>)
    ensures forall m | m in r :: m in ms || m == Member(name, value)
  {
    if ms == [] then [Member(name, value)]
    else if Less(ms[0].name, name) then [ms[0]] + Insert(ms[1..], name, value)
    else if ms[0].name == name then [Member(name, value)] + ms[1..]
    else [Member(name, value)] + ms
  }

  // --- which values the writers and the reader agree on ---------------------

  predicate NulFree(s: string) {
    forall i | 0 <= i < |s| :: s[i] != '\0'
  }

  ghost predicate Printable(v: Value) {
    match v
    case Null => true
    case Int(i) => MIN_LARGEST_INT <= i < -MIN_LARGEST_INT
    case UInt(u) => u <= MAX_LARGEST_UINT
    case Real(_) => false
    case Bool(_) => true
    case Str(s) => NulFree(s)
    case Arr(items) => forall x | x in items :: Printable(x)
    case Obj(ms) => Sorted(ms) && forall m | m in ms :: NulFree(m.name) && Printable(m.value)
  }

  /** The tag the reader gives an integer: signed if negative or within `int`, else unsigned. */
  function Tagged(n: int): (v: Value) {
    if n <= MAX_INT then Int(n) else UInt(n)
  }

  function Retagged(v: Value): (r: Value)
    decreases v, 0
  {
    match v
    case Int(i) => Tagged(i)
    case UInt(u) => Tagged(u)
    case Arr(items) => Arr(RetaggedItems(items))
    case Obj(ms) => Obj(RetaggedMembers(ms))
    case _ => v
  }

  function RetaggedItems(items: seq<Value>): (r: seq<Value>)
    ensures |r| == |items| && forall i | 0 <= i < |r| :: r[i] == Retagged(items[i])
    decreases items, 1
  {
    if items == [] then [] else [Retagged(items[0])] + RetaggedItems(items[1..])
  }

  function RetaggedMembers(ms: seq<Member>): (r: seq<Member>)
    ensures |r| == |ms| && forall i | 0 <= i < |r| :: r[i] == Member(ms[i].name, Retagged(ms[i].value))
    decreases ms, 1
  {
    if ms == [] then [] else [Member(ms[0].name, Retagged(ms[0].value))] + RetaggedMembers(ms[1..])
  }

  // --- compact text ----------------------------------------------------------

  /** valueToString(LargestInt): the negation of the smallest integer wraps onto its unsigned magnitude. */
  function IntText(n: int): string {
    if n < 0 then "-" + Decimal(-n) else Decimal(n)
  }

  predicate IsControl(c: char) {
    '\0' < c <= 31 as char
  }

  function HexDigit(d: int): char
    requires 0 <= d < 16
  {
    if d < 10 then '0' + d as char else 'A' + (d - 10) as char
  }

  /** One character inside quotes. */
  function Escape(c: char): (t: string)
    ensures t != ""
  {
    if c == '\"' then "\\\""
    else if c == '\\' then "\\\\"
    else if c == 8 as char then "\\b"
    else if c == 12 as char then "\\f"
    else if c == '\n' then "\\n"
    else if c == '\r' then "\\r"
    else if c == '\t' then "\\t"
    else if IsControl(c) then "\\u00" + [HexDigit(c as int / 16), HexDigit(c as int % 16)]
    else [c]
  }

  function Escaped(s: string): string {
    if s == "" then "" else Escape(s[0]) + Escaped(s[1..])
  }

  function Quoted(s: string): string {
    "\"" + Escaped(s) + "\""
  }

  /** What FastWriter appends for a value. */
  function Fast(v: Value): string
    decreases v, 0
  {
    match v
    case Null => "null"
    case Int(i) => IntText(i)
    case UInt(u) => Decimal(u)
    case Real(text) => text
    case Bool(b) => if b then "true" else "false"
    case Str(s) => Quoted(s)
    case Arr(items) => "[" + FastItems(items) + "]"
    case Obj(ms) => "{" + FastMembers(ms) + "}"
  }

  function FastItems(items: seq<Value>): string
    decreases items, 1
  {
    if items == [] then ""
    else if |items| == 1 then Fast(items[0])
    else Fast(items[0]) + "," + FastItems(items[1..])
  }

  function FastMembers(ms: seq<Member>): string
    decreases ms, 1
  {
    if ms == [] then ""
    else
      var first := Quoted(ms[0].name) + ":" + Fast(ms[0].value);
      if |ms| == 1 then first else first + "," + FastMembers(ms[1..])
  }

  // --- tokens ------------------------------------------------------------------

  datatype Kind = ObjectBegin | ObjectEnd | ArrayBegin | ArrayEnd | StringTok | Comment | Number
                | True | False | NullTok | Separator | Colon | EndOfStream | Bad

  datatype Token = Token(kind: Kind, text: string, rest: string)

  predicate IsSpace(c: char) {
    c == ' ' || c == '\t' || c == '\r' || c == '\n'
  }

  function SkipSpaces(s: string): (r: string)
    ensures |r| <= |s| && r == s[|s| - |r|..] && (r == "" || !IsSpace(r[0]))
  {
    if s != "" && IsSpace(s[0]) then SkipSpaces(s[1..]) else s
  }

  predicate IsDigit(c: char) {
    '0' <= c <= '9'
  }

  function DigitValue(c: char): (d: nat)
    requires IsDigit(c)
    ensures d < 10
  {
    c as int - '0' as int
  }

  predicate IsNumberChar(c: char) {
    IsDigit(c) || c == '.' || c == 'e' || c == 'E' || c == '+' || c == '-'
  }

  function NumberEnd(s: string): (n: nat)
    ensures n <= |s| && (forall i | 0 <= i < n :: IsNumberChar(s[i])) && (n < |s| ==> !IsNumberChar(s[n]))
  {
    if s != "" && IsNumberChar(s[0]) then 1 + NumberEnd(s[1..]) else 0
  }

  /** readString: length up to and including the closing quote, if there is one. */
  function StringEnd(s: string): (r: (nat, bool))
    ensures r.0 <= |s| && (r.1 ==> r.0 > 0)
  {
    if s == "" then (0, false)
    else if s[0] == '\"' then (1, true)
    else
      var skip := if s[0] == '\\' && |s| > 1 then 2 else 1;
      var r := StringEnd(s[skip..]);
      (skip + r.0, r.1)
  }

  /** readCStyleComment, after its opening. */
  function CCommentEnd(s: string): (r: (nat, bool))
    ensures r.0 <= |s|
  {
    if s == "" then (0, false)
    else if s[0] == '*' && |s| > 1 && s[1] == '/' then (2, true)
    else var r := CCommentEnd(s[1..]); (1 + r.0, r.1)
  }

  /** readCppStyleComment, after its opening. */
  function LineCommentEnd(s: string): (n: nat)
    ensures n <= |s|
  {
    if s == "" then 0
    else if s[0] == '\r' || s[0] == '\n' then 1
    else 1 + LineCommentEnd(s[1..])
  }

  function Cut(kind: Kind, s: string, n: nat): Token
    requires n <= |s|
  {
    Token(kind, s[..n], s[n..])
  }

  function CommentToken(s: string): Token
    requires s != ""
  {
    if |s| == 1 then Cut(Bad, s, 1)
    else if s[1] == '*' then
      var r := CCommentEnd(s[2..]);
      Cut(if r.1 then Comment else Bad, s, 2 + r.0)
    else if s[1] == '/' then Cut(Comment, s, 2 + LineCommentEnd(s[2..]))
    else Cut(Bad, s, 2)
  }

  /** How a token starts. */
  datatype Start = Mark(kind: Kind) | Quote | Slash | Word(kind: Kind, word: string) | Numeric | Terminator | Other

  function StartOf(c: char): Start {
    match c
    case '{' => Mark(ObjectBegin)
    case '}' => Mark(ObjectEnd)
    case '[' => Mark(ArrayBegin)
    case ']' => Mark(ArrayEnd)
    case ',' => Mark(Separator)
    case ':' => Mark(Colon)
    case '\"' => Quote
    case '/' => Slash
    case 't' => Word(True, "true")
    case 'f' => Word(False, "false")
    case 'n' => Word(NullTok, "null")
    case '\0' => Terminator
    case _ => if IsDigit(c) || c == '-' then Numeric else Other
  }

  /** Number tokens are not empty, and string tokens hold their quotes. */
  predicate Sized(t: Token) {
    (t.kind == Number ==> |t.text| >= 1) && (t.kind == StringTok ==> |t.text| >= 2)
  }

  /** The token at the start of a text. */
  function TokenAt(s: string): (t: Token)
    requires s != ""
    ensures |t.rest| < |s| && Sized(t)
  {
    match StartOf(s[0])
    case Mark(kind) => Cut(kind, s, 1)
    case Quote => var r := StringEnd(s[1..]); Cut(if r.1 then StringTok else Bad, s, 1 + r.0)
    case Slash => CommentToken(s)
    case Word(kind, word) => if word <= s && word != "" then Cut(kind, s, |word|) else Cut(Bad, s, 1)
    case Numeric => Cut(Number, s, 1 + NumberEnd(s[1..]))
    case Terminator => Cut(EndOfStream, s, 1)
    case Other => Cut(Bad, s, 1)
  }

  /** readToken. */
  function NextToken(text: string): (t: Token)
    ensures Sized(t) && |t.rest| <= |text| && (t.kind != EndOfStream ==> |t.rest| < |text|)
  {
    var s := SkipSpaces(text);
    if s == "" then Token(EndOfStream, "", "") else TokenAt(s)
  }

  /** What is left after the first token of a kind, or at the end. */
  function AfterRecovery(text: string, until: Kind): string
    decreases |text|
  {
    var t := NextToken(text);
    if t.kind == until || t.kind == EndOfStream then t.rest else AfterRecovery(t.rest, until)
  }

  /** Tokens up to the first one that is not a comment. */
  function NextRealToken(text: string): (t: Token)
    ensures Sized(t) && t.kind != Comment && |t.rest| <= |text| && (t.kind != EndOfStream ==> |t.rest| < |text|)
    decreases |text|
  {
    var t := NextToken(text);
    if t.kind == Comment then NextRealToken(t.rest) else t
  }

  // --- numbers -----------------------------------------------------------------

  /** A character, at position i of a number, that makes it a real. */
  predicate RealMark(c: char, i: int) {
    c == '.' || c == 'e' || c == 'E' || c == '+' || (c == '-' && i > 0)
  }

  predicate LooksReal(t: string) {
    exists i :: 0 <= i < |t| && RealMark(t[i], i)
  }

  datatype Sum = Fits(n: nat) | TooLarge | NotDigits

  /** The accumulation loop of decodeNumber; it gives up before the sum could exceed the limit. */
  function Accumulate(digits: string, value: nat, limit: nat): (r: Sum)
    decreases |digits|
  {
    if digits == "" then Fits(value)
    else if !IsDigit(digits[0]) then NotDigits
    else
      var d := DigitValue(digits[0]);
      if value >= limit / 10 && (value > limit / 10 || |digits| > 1 || d > limit % 10) then TooLarge
      else Accumulate(digits[1..], value * 10 + d, limit)
  }

  /** The largest magnitude of a negative or non-negative integer. */
  function Limit(negative: bool): nat {
    if negative then 0x8000_0000_0000_0000 else MAX_LARGEST_UINT
  }

  /** decodeNumber on the text of a number token. */
  function DecodeNumber(t: string): (r: Option<Value>)
    requires t != ""
  {
    var negative := t[0] == '-';
    if LooksReal(t) then Some(Real(t))
    else
      match Accumulate(if negative then t[1..] else t, 0, Limit(negative))
      case TooLarge => Some(Real(t))
      case NotDigits => None
      case Fits(n) => Some(if negative then Int(0 - n) else Tagged(n))
  }

  // --- strings -----------------------------------------------------------------

  function HexValue(c: char): (r: Option<nat>)
    ensures r.Some? ==> r.value < 16
  {
    if '0' <= c <= '9' then Some(c as int - '0' as int)
    else if 'a' <= c <= 'f' then Some(c as int - 'a' as int + 10)
    else if 'A' <= c <= 'F' then Some(c as int - 'A' as int + 10)
    else None
  }

  /** The number that the first k characters write in hexadecimal. */
  function HexRun(s: string, k: nat): (r: Option<nat>)
    requires k <= |s|
  {
    if k == 0 then Some(0)
    else
      var head, last := HexRun(s, k - 1), HexValue(s[k - 1]);
      if head.None? || last.None? then None else Some(head.value * 16 + last.value)
  }

  /** decodeUnicodeEscapeSequence: four hexadecimal digits. */
  function Unit(s: string): (r: Option<nat>)
  {
    if |s| < 4 then None else HexRun(s, 4)
  }

  function SurrogatePair(high: nat, low: nat): nat {
    0x1_0000 + high % 0x400 * 0x400 + low % 0x400
  }

  /** decodeUnicodeCodePoint: the code point and the number of characters read after "\\u". */
  function CodePoint(s: string): (r: Option<(nat, nat)>)
    ensures r.Some? ==> r.value.1 <= |s|
  {
    var u := Unit(s);
    if u.None? then None
    else if 0xD800 <= u.value <= 0xDBFF then
      if |s| < 10 || s[4] != '\\' || s[5] != 'u' then None
      else
        var w := Unit(s[6..]);
        if w.None? then None
        else Some((SurrogatePair(u.value, w.value), 10))
    else Some((u.value, 4))
  }

  /** codePointToUTF8. */
  function Utf8(cp: nat): string {
    if cp <= 0x7F then [cp as char]
    else if cp <= 0x7FF then [(0xC0 + cp / 0x40 % 0x20) as char, (0x80 + cp % 0x40) as char]
    else if cp <= 0xFFFF then
      [(0xE0 + cp / 0x1000 % 0x10) as char, (0x80 + cp / 0x40 % 0x40) as char, (0x80 + cp % 0x40) as char]
    else if cp <= 0x10_FFFF then
      [(0xF0 + cp / 0x4_0000 % 0x08) as char, (0x80 + cp / 0x1000 % 0x40) as char,
       (0x80 + cp / 0x40 % 0x40) as char, (0x80 + cp % 0x40) as char]
    else ""
  }

  /** The escapes of one letter. */
  function SimpleEscape(c: char): Option<char> {
    match c
    case '\"' => Some('\"')
    case '/' => Some('/')
    case '\\' => Some('\\')
    case 'b' => Some(8 as char)
    case 'f' => Some(12 as char)
    case 'n' => Some('\n')
    case 'r' => Some('\r')
    case 't' => Some('\t')
    case _ => None
  }

  /** decodeString on the text between the quotes. */
  function Unescaped(s: string): (r: Option<string>)
    decreases |s|
  {
    if s == "" || s[0] == '\"' then Some("")
    else if s[0] != '\\' then Prefixed([s[0]], Unescaped(s[1..]))
    else if |s| == 1 then None
    else
      var plain := SimpleEscape(s[1]);
      if plain.Some? then Prefixed([plain.value], Unescaped(s[2..]))
      else if s[1] == 'u' then
        var cp := CodePoint(s[2..]);
        if cp.None? then None else Prefixed(Utf8(cp.value.0), Unescaped(s[2 + cp.value.1..]))
      else None
  }

  function Prefixed(head: string, tail: Option<string>): Option<string> {
    if tail.None? then None else Some(head + tail.value)
  }

  /** decodeString on a token, quotes included. */
  function DecodeString(t: string): Option<string> {
    if |t| < 2 then None else Unescaped(t[1..|t| - 1])
  }

  // --- values ------------------------------------------------------------------

  datatype Parsed = Parsed(value: Value, rest: string)

  /** readValue, when it succeeds. */
  function ParseValue(s: string): (r: Option<Parsed>)
    ensures r.Some? ==> |r.value.rest| < |s|
    decreases |s|, 1
  {
    var t := NextRealToken(s);
    if t.kind == ObjectBegin then ParseMembers(t.rest, [], "")
    else if t.kind == ArrayBegin then ParseArray(t.rest)
    else if t.kind == EndOfStream then None
    else ParseScalar(t)
  }

  /** readArray after '['. */
  function ParseArray(s: string): (r: Option<Parsed>)
    ensures r.Some? ==> |r.value.rest| < |s|
    decreases |s|, 3
  {
    var body := SkipSpaces(s);
    if body != "" && body[0] == ']' then Some(Parsed(Arr([]), body[1..])) else ParseItems(s, [])
  }

  /** readValue depends on its first token only. */
  lemma ValueOfToken(s: string)
    ensures var t := NextRealToken(s);
            ParseValue(s) == if t.kind == ObjectBegin then ParseMembers(t.rest, [], "")
                             else if t.kind == ArrayBegin then ParseArray(t.rest)
                             else if t.kind == EndOfStream then None
                             else ParseScalar(t)
  {
    hide NextRealToken, ParseItems, ParseMembers, ParseScalar, ParseArray;
  }

  function ParseScalar(t: Token): (r: Option<Parsed>)
    ensures r.Some? ==> r.value.rest == t.rest
  {
    match t.kind
    case Number => if t.text == "" then None else Yield(DecodeNumber(t.text), t.rest)
    case StringTok =>
      var d := DecodeString(t.text);
      Yield(if d.None? then None else Some(Str(d.value)), t.rest)
    case True => Some(Parsed(Bool(true), t.rest))
    case False => Some(Parsed(Bool(false), t.rest))
    case NullTok => Some(Parsed(Null, t.rest))
    case _ => None
  }

  function Yield(v: Option<Value>, rest: string): Option<Parsed> {
    if v.None? then None else Some(Parsed(v.value, rest))
  }

  /** The loop of readArray, with the elements read so far. */
  function ParseItems(s: string, before: seq<Value>): (r: Option<Parsed>)
    ensures r.Some? ==> |r.value.rest| < |s|
    decreases |s|, 2
  {
    var v := ParseValue(s);
    if v.None? then None
    else
      var items := before + [v.value.value];
      var t := NextRealToken(v.value.rest);
      match t.kind
      case ArrayEnd => Some(Parsed(Arr(items), t.rest))
      case Separator => ParseItems(t.rest, items)
      case _ => None
  }

  /** The loop of readObject, with the members read so far and the name read last. */
  function ParseMembers(s: string, before: seq<Member>, last: string): (r: Option<Parsed>)
    ensures r.Some? ==> |r.value.rest| < |s|
    decreases |s|, 2
  {
    var t := NextRealToken(s);
    if t.kind == ObjectEnd && last == "" then Some(Parsed(Obj(before), t.rest))
    else if t.kind != StringTok then None
    else
      var name := DecodeString(t.text);
      var colon := NextToken(t.rest);
      if name.None? || colon.kind != Colon then None
      else
        var v := ParseValue(colon.rest);
        if v.None? then None
        else
          var ms := Insert(before, name.value, v.value.value);
          match MemberEnd(v.value.rest)
          case Missing => None
          case Closed(rest) => Some(Parsed(Obj(ms), rest))
          case More(rest) => ParseMembers(rest, ms, name.value)
  }

  datatype End = Missing | Closed(rest: string) | More(rest: string)

  /** What follows a member: '}', ',', or a comment and then '}' or any other token. */
  function MemberEnd(s: string): (e: End)
    ensures e != Missing ==> |e.rest| <= |s|
  {
    var comma := NextToken(s);
    if comma.kind != ObjectEnd && comma.kind != Separator && comma.kind != Comment then Missing
    else
      var after := if comma.kind == Comment then NextRealToken(comma.rest) else comma;
      if after.kind == ObjectEnd then Closed(after.rest) else More(after.rest)
  }
}
