/**
 Unicode escapes of lib/json/jsoncpp.cpp: every code point escaped as section 7 of
 RFC 8259 prescribes is decoded to its UTF-8 form of section 3 of RFC 3629.
 */
module JsonUnicode {
  import opened JsonSpec

  /** The value of a continuation byte. */
  function Tail(c: char): Option<nat> {
    if 0x80 <= c as int < 0xC0 then Some(c as int - 0x80) else None
  }

  /** The first code point of a UTF-8 text and its length, after the table of section 3 of RFC 3629. */
  function FromUtf8(s: string): Option<(nat, nat)> {
    if s == "" then None
    else
      var a := s[0] as int;
      if a < 0x80 then Some((a, 1))
      else if 0xC0 <= a < 0xE0 && |s| >= 2 && Tail(s[1]).Some? then Some(((a - 0xC0) * 0x40 + Tail(s[1]).value, 2))
      else if 0xE0 <= a < 0xF0 && |s| >= 3 && Tail(s[1]).Some? && Tail(s[2]).Some? then
        Some((((a - 0xE0) * 0x40 + Tail(s[1]).value) * 0x40 + Tail(s[2]).value, 3))
      else if 0xF0 <= a < 0xF8 && |s| >= 4 && Tail(s[1]).Some? && Tail(s[2]).Some? && Tail(s[3]).Some? then
        Some(((((a - 0xF0) * 0x40 + Tail(s[1]).value) * 0x40 + Tail(s[2]).value) * 0x40 + Tail(s[3]).value, 4))
      else None
  }

  /** codePointToUTF8 is inverted by the decoder, and each form is used for its own range only. */
  lemma Utf8Decodes(cp: nat, s: string)
    requires cp <= 0x10_FFFF
    ensures var t := Utf8(cp);
            && |t| == (if cp <= 0x7F then 1 else if cp <= 0x7FF then 2 else if cp <= 0xFFFF then 3 else 4)
            && FromUtf8(t + s) == Some((cp, |t|))
  {
    hide FromUtf8;
    var t := Utf8(cp);
    if cp <= 0x7F {
      Form1(cp, s);
    } else if cp <= 0x7FF {
      assert cp / 0x40 < 0x20;
      Form2(cp / 0x40, cp % 0x40, s);
    } else if cp <= 0xFFFF {
      assert cp / 0x1000 < 0x10 && cp / 0x1000 == cp / 0x40 / 0x40;
      Form3(cp / 0x1000, cp / 0x40 % 0x40, cp % 0x40, s);
    } else {
      assert cp / 0x4_0000 < 0x08 && cp / 0x1000 == cp / 0x40 / 0x40 && cp / 0x4_0000 == cp / 0x1000 / 0x40;
      Form4(cp / 0x4_0000, cp / 0x1000 % 0x40, cp / 0x40 % 0x40, cp % 0x40, s);
    }
  }

  lemma Form1(a: nat, s: string)
    requires a < 0x80
    ensures FromUtf8([a as char] + s) == Some((a, 1))
  {
  }

  lemma Form2(a: nat, b: nat, s: string)
    requires a < 0x20 && b < 0x40
    ensures FromUtf8([(0xC0 + a) as char, (0x80 + b) as char] + s) == Some((a * 0x40 + b, 2))
  {
  }

  lemma Form3(a: nat, b: nat, c: nat, s: string)
    requires a < 0x10 && b < 0x40 && c < 0x40
    ensures FromUtf8([(0xE0 + a) as char, (0x80 + b) as char, (0x80 + c) as char] + s)
         == Some(((a * 0x40 + b) * 0x40 + c, 3))
  {
  }

  lemma Form4(a: nat, b: nat, c: nat, d: nat, s: string)
    requires a < 0x08 && b < 0x40 && c < 0x40 && d < 0x40
    ensures FromUtf8([(0xF0 + a) as char, (0x80 + b) as char, (0x80 + c) as char, (0x80 + d) as char] + s)
         == Some((((a * 0x40 + b) * 0x40 + c) * 0x40 + d, 4))
  {
  }

  /** A code unit as four hexadecimal digits. */
  function Hex4(u: nat): string
    requires u < 0x1_0000
  {
    [HexDigit(u / 0x1000), HexDigit(u / 0x100 % 0x10), HexDigit(u / 0x10 % 0x10), HexDigit(u % 0x10)]
  }

  lemma HexDigitValue(d: nat)
    requires d < 16
    ensures HexValue(HexDigit(d)) == Some(d)
  {
  }

  lemma Hex4Reads(u: nat, s: string)
    requires u < 0x1_0000
    ensures Unit(Hex4(u) + s) == Some(u)
  {
    hide HexValue, HexDigit, HexRun, Unit;
    var t := Hex4(u) + s;
    var a, b, c, d := u / 0x1000, u / 0x100 % 0x10, u / 0x10 % 0x10, u % 0x10;
    HexDigitValue(a);
    HexDigitValue(b);
    HexDigitValue(c);
    HexDigitValue(d);
    assert t[0] == HexDigit(a) && t[1] == HexDigit(b) && t[2] == HexDigit(c) && t[3] == HexDigit(d);
    FourDigits(t, a, b, c, d);
    Nibbles(u);
  }

  lemma FourDigits(t: string, a: nat, b: nat, c: nat, d: nat)
    requires |t| >= 4 && HexValue(t[0]) == Some(a) && HexValue(t[1]) == Some(b)
    requires HexValue(t[2]) == Some(c) && HexValue(t[3]) == Some(d)
    ensures Unit(t) == Some(((a * 16 + b) * 16 + c) * 16 + d)
  {
    hide HexValue;
    assert HexRun(t, 1) == Some(a);
    assert HexRun(t, 2) == Some(a * 16 + b);
    assert HexRun(t, 3) == Some((a * 16 + b) * 16 + c);
  }

  lemma Nibbles(u: nat)
    ensures u == ((u / 0x1000 * 16 + u / 0x100 % 0x10) * 16 + u / 0x10 % 0x10) * 16 + u % 0x10
  {
    DropNibble(u, 0x10);
    DropNibble(u, 0x100);
  }

  lemma DropNibble(u: nat, m: nat)
    requires m == 0x10 || m == 0x100
    ensures u / (m * 16) == u / m / 16
    ensures u / m == u / (m * 16) * 16 + u / m % 16
  {
  }

  /** The escape of a code point after "\\u": one unit, or a surrogate pair above the basic plane. */
  function UnicodeEscape(cp: nat): string
    requires cp <= 0x10_FFFF
  {
    if cp < 0x1_0000 then Hex4(cp)
    else Hex4(0xD800 + (cp - 0x1_0000) / 0x400) + "\\u" + Hex4(0xDC00 + (cp - 0x1_0000) % 0x400)
  }

  /** decodeUnicodeCodePoint inverts the escape of every code point that is not a leading surrogate. */
  lemma CodePointReads(cp: nat, s: string)
    requires cp <= 0x10_FFFF && !(0xD800 <= cp <= 0xDBFF)
    ensures CodePoint(UnicodeEscape(cp) + s) == Some((cp, |UnicodeEscape(cp)|))
  {
    hide Unit, Hex4, HexRun;
    if cp < 0x1_0000 {
      Hex4Reads(cp, s);
      Hex4Length(cp);
    } else {
      var high, low := 0xD800 + (cp - 0x1_0000) / 0x400, 0xDC00 + (cp - 0x1_0000) % 0x400;
      var rest := "\\u" + Hex4(low) + s;
      assert UnicodeEscape(cp) + s == Hex4(high) + rest;
      Hex4Reads(high, rest);
      Hex4Length(high);
      Hex4Reads(low, s);
      Hex4Length(low);
      assert (Hex4(high) + rest)[6..] == Hex4(low) + s;
    }
  }

  lemma Hex4Length(u: nat)
    requires u < 0x1_0000
    ensures |Hex4(u)| == 4
  {
  }

  /** An escaped code point, read and decoded again, is that code point. */
  lemma EscapedCodePoint(cp: nat, s: string)
    requires cp <= 0x10_FFFF && !(0xD800 <= cp <= 0xDBFF)
    ensures Unescaped("\\u" + (UnicodeEscape(cp) + s)) == Prefixed(Utf8(cp), Unescaped(s))
    ensures FromUtf8(Utf8(cp)) == Some((cp, |Utf8(cp)|))
  {
    hide CodePoint, Utf8, UnicodeEscape, FromUtf8;
    CodePointReads(cp, s);
    var t := "\\u" + (UnicodeEscape(cp) + s);
    assert t[2..] == UnicodeEscape(cp) + s && t[2 + |UnicodeEscape(cp)|..] == s;
    assert SimpleEscape('u').None?;
    Utf8Decodes(cp, "");
    assert Utf8(cp) + "" == Utf8(cp);
  }
}
