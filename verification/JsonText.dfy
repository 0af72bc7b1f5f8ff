/**
 JSON texts with white space and comments, written down independent of the reader of
 lib/json/jsoncpp.cpp, and what each of them stands for. Only for the odd marks that the
 reader takes for a comma are its tokens needed.
 */
module JsonText {
  import opened JsonSpec

  predicate Blank(c: char) {
    c == ' ' || c == '\t' || c == '\n' || c == '\r'
  }

  predicate Blanks(g: string) {
    forall i | 0 <= i < |g| :: Blank(g[i])
  }

  predicate NewLine(c: char) {
    c == '\n' || c == '\r'
  }

  /** A comment between slash and star, or one that ends with its line. */
  predicate IsComment(t: string) {
    || (&& |t| >= 4 && t[..2] == "/*" && t[|t| - 2] == '*' && t[|t| - 1] == '/'
        && forall i | 2 <= i < |t| - 2 :: !(t[i] == '*' && t[i + 1] == '/'))
    || (&& |t| >= 3 && t[..2] == "//" && NewLine(t[|t| - 1])
        && forall i | 2 <= i < |t| - 1 :: !NewLine(t[i]))
  }

  /** What may stand between tokens: white space and comments. */
  ghost predicate Gap(g: string)
    decreases |g|
  {
    || g == "" || (Blank(g[0]) && Gap(g[1..]))
    || exists k :: 0 < k <= |g| && IsComment(g[..k]) && Gap(g[k..])
  }

  // --- strings ---------------------------------------------------------------------------

  const SHORT_ESCAPES: set<(char, char)> :=
    {('\"', '\"'), ('\\', '\\'), ('/', '/'), ('b', 8 as char), ('f', 12 as char), ('n', 10 as char), ('r', 13 as char),
     ('t', 9 as char)}

  const LOWER_HEX := "0123456789abcdef"
  const UPPER_HEX := "0123456789ABCDEF"

  predicate HexIs(c: char, d: nat) {
    d < 16 && (c == LOWER_HEX[d] || c == UPPER_HEX[d])
  }

  predicate DigitsAre(t: string, a: nat, b: nat, c: nat, d: nat)
    requires |t| == 4
  {
    HexIs(t[0], a) && HexIs(t[1], b) && HexIs(t[2], c) && HexIs(t[3], d)
  }

  /** Four hexadecimal digits, of either case, for a code unit. */
  ghost predicate UnitIs(t: string, u: nat) {
    |t| == 4 && exists a: nat, b: nat, c: nat, d: nat :: DigitsAre(t, a, b, c, d) && u == a * 4096 + b * 256 + c * 16 + d
  }

  predicate Leading(u: nat) {
    0xD800 <= u < 0xDC00
  }

  /** Behind a leading surrogate any code unit is taken, and its lower ten bits count. */
  predicate PairIs(u: nat, w: nat, cp: nat) {
    Leading(u) && cp == 0x1_0000 + (u - 0xD800) * 0x400 + w % 0x400
  }

  /** A piece of the text and the bytes it stands for. */
  ghost predicate PieceIs(t: string, c: string) {
    || (|t| == 1 && t[0] != '\"' && t[0] != '\\' && c == t)
    || (|t| == 2 && t[0] == '\\' && |c| == 1 && (t[1], c[0]) in SHORT_ESCAPES)
    || (|t| == 6 && t[..2] == "\\u" && exists u :: UnitIs(t[2..], u) && !Leading(u) && c == Utf8(u))
    || (|t| == 12 && t[..2] == "\\u" && t[6..8] == "\\u"
        && exists u, w, cp :: UnitIs(t[2..6], u) && UnitIs(t[8..], w) && PairIs(u, w, cp) && c == Utf8(cp))
  }

  /** The text is made of pieces, and together they stand for s. */
  ghost predicate Spells(t: string, s: string)
    decreases |t|
  {
    || (t == "" && s == "")
    || exists k, j :: 0 < k <= |t| && 0 <= j <= |s| && PieceIs(t[..k], s[..j]) && Spells(t[k..], s[j..])
  }

  ghost predicate StringIs(t: string, s: string) {
    |t| >= 2 && t[0] == '\"' == t[|t| - 1] && Spells(t[1..|t| - 1], s)
  }

  // --- numbers and words -----------------------------------------------------------------

  predicate Numeral(c: char) {
    '0' <= c <= '9'
  }

  predicate NumberChar(c: char) {
    Numeral(c) || c == '.' || c == 'e' || c == 'E' || c == '+' || c == '-'
  }

  /** A digit or a minus, and then anything made of digits, signs, points and exponent marks. */
  predicate NumberText(t: string) {
    t != "" && (t[0] == '-' || Numeral(t[0])) && forall i | 0 <= i < |t| :: NumberChar(t[i])
  }

  /** What may follow a number: nothing that could continue it. */
  predicate Delimits(post: string) {
    post == "" || !NumberChar(post[0])
  }

  predicate Numerals(t: string) {
    forall i | 0 <= i < |t| :: Numeral(t[i])
  }

  function DecimalOf(t: string): nat
    requires Numerals(t)
  {
    if t == "" then 0 else DecimalOf(t[..|t| - 1]) * 10 + (t[|t| - 1] as int - '0' as int)
  }

  /** Integers of 64 bits, with a sign if negative; any other number is kept as its text. */
  predicate NumberIs(t: string, v: Value) {
    && NumberText(t)
    && if t[0] == '-' && Numerals(t[1..]) then
         v == if DecimalOf(t[1..]) > 0x8000_0000_0000_0000 then Real(t) else Int(0 - DecimalOf(t[1..]))
       else if Numerals(t) then
         if DecimalOf(t) > 0xFFFF_FFFF_FFFF_FFFF then v == Real(t) else v == Int(DecimalOf(t)) || v == UInt(DecimalOf(t))
       else v == Real(t)
  }

  ghost predicate ScalarIs(t: string, v: Value) {
    || (t == "null" && v == Null)
    || (t == "true" && v == Bool(true))
    || (t == "false" && v == Bool(false))
    || (v.Str? && StringIs(t, v.s))
    || NumberIs(t, v)
  }

  // --- documents -------------------------------------------------------------------------

  /** A scalar, a list or a table, with everything that stands between its tokens. */
  datatype Doc = Atom(v: Value, text: string) | List(gap: string, elems: seq<Elem>) | Table(entries: seq<Entry>, gap: string)

  datatype Elem = Elem(before: string, item: Doc, after: string)

  /** An entry and the mark that divides it from the next one. */
  datatype Entry = Entry(before: string, name: string, spelling: string, middle: string, gap: string, item: Doc,
                         after: string, mark: string)

  // --- as text -----------------------------------------------------------------------------

  function Spell(d: Doc): string
    decreases d, 0
  {
    match d
    case Atom(_, text) => text
    case List(gap, elems) => "[" + (if elems == [] then gap else SpellElems(elems)) + "]"
    case Table(entries, gap) => "{" + SpellEntries(entries) + gap + "}"
  }

  function SpellElem(e: Elem): string
    decreases e, 0
  {
    e.before + Spell(e.item) + e.after
  }

  function SpellElems(elems: seq<Elem>): string
    decreases elems, 1
  {
    if elems == [] then ""
    else if |elems| == 1 then SpellElem(elems[0])
    else SpellElem(elems[0]) + "," + SpellElems(elems[1..])
  }

  function SpellEntry(e: Entry): string
    decreases e, 0
  {
    e.before + e.spelling + e.middle + ":" + e.gap + Spell(e.item) + e.after + e.mark
  }

  function SpellEntries(entries: seq<Entry>): string
    decreases entries, 1
  {
    if entries == [] then "" else SpellEntry(entries[0]) + SpellEntries(entries[1..])
  }

  // --- as a value ----------------------------------------------------------------------------

  function Content(d: Doc): (v: Value)
    decreases d, 0
  {
    match d
    case Atom(v, _) => v
    case List(_, elems) => Arr(ContentElems(elems))
    case Table(entries, _) => Obj(ContentEntries(entries))
  }

  function ContentElems(elems: seq<Elem>): (r: seq<Value>)
    ensures |r| == |elems| && forall i | 0 <= i < |r| :: r[i] == Content(elems[i].item)
    decreases elems, 1
  {
    if elems == [] then [] else [Content(elems[0].item)] + ContentElems(elems[1..])
  }

  function ContentEntries(entries: seq<Entry>): (r: seq<Member>)
    ensures |r| == |entries| && forall i | 0 <= i < |r| :: r[i] == Member(entries[i].name, Content(entries[i].item))
    decreases entries, 1
  {
    if entries == [] then []
    else [Member(entries[0].name, Content(entries[0].item))] + ContentEntries(entries[1..])
  }

  /** Comments stand everywhere but in an empty list and before a colon. */
  ghost predicate Proper(d: Doc)
    decreases d, 0
  {
    match d
    case Atom(v, text) => ScalarIs(text, v)
    case List(gap, elems) => Blanks(gap) && forall e | e in elems :: ProperElem(e)
    case Table(entries, gap) => ProperEntries(entries, gap, "")
  }

  ghost predicate ProperElem(e: Elem)
    decreases e, 0
  {
    Gap(e.before) && Gap(e.after) && Proper(e.item)
  }

  ghost predicate ProperEntry(e: Entry)
    decreases e, 0
  {
    && Gap(e.before) && StringIs(e.spelling, e.name) && Blanks(e.middle) && Gap(e.gap) && Gap(e.after) && Proper(e.item)
  }

  /**
   The entries behind one of the given name. The last entry has no mark, and the others have one; only
   behind an entry with an empty name the table may end after a mark as well.
   */
  ghost predicate ProperEntries(entries: seq<Entry>, gap: string, last: string)
    decreases entries, 1
  {
    if entries == [] then last == "" && Gap(gap)
    else
      var e, rest := entries[0], entries[1..];
      && ProperEntry(e)
      && if e.mark == "" then rest == [] && gap == ""
         else MarkIs(e.after, e.mark, SpellEntries(rest) + gap + "}") && ProperEntries(rest, gap, e.name)
  }

  /** A comma; but behind a comment the reader takes any token that is no closing brace for one. */
  ghost predicate MarkIs(after: string, mark: string, rest: string) {
    mark == "," || (!Blanks(after) && OddMark(mark, rest))
  }

  ghost predicate OddMark(mark: string, rest: string) {
    mark != "" && forall post: string ::
      var t := NextToken(mark + (rest + post));
      t.kind != ObjectEnd && t.kind != Comment && t.text == mark && t.rest == rest + post
  }

  // --- one entry more ------------------------------------------------------------------------

  lemma EntryInFront(e: Entry, others: seq<Entry>)
    ensures SpellEntries([e] + others) == SpellEntry(e) + SpellEntries(others)
    ensures ContentEntries([e] + others) == [Member(e.name, Content(e.item))] + ContentEntries(others)
  {
    hide SpellEntry, Content;
    assert ([e] + others)[1..] == others;
  }

  /** An entry with a comma before others, or without a mark before none. */
  lemma ProperInFront(e: Entry, others: seq<Entry>, last: string)
    requires ProperEntry(e) && e.mark == (if others == [] then "" else ",")
    requires others != [] ==> ProperEntries(others, "", e.name)
    ensures ProperEntries([e] + others, "", last)
  {
    hide ProperEntry, OddMark, SpellEntries;
    assert ([e] + others)[1..] == others;
  }
}
