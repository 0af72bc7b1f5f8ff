/**
 Which texts between quotes lib/json/jsoncpp.cpp takes for a string: any mixture of plain characters, of the
 eight escapes of one letter and of Unicode escapes of section 7 of RFC 8259, and no other.
 */
module JsonStrings {
  import opened JsonSpec
  import opened JsonText
  import opened JsonTokens
  import opened JsonUnicode

  // --- one piece -------------------------------------------------------------------------------

  lemma HexIsValue(c: char)
    ensures forall d: nat :: HexIs(c, d) <==> HexValue(c) == Some(d)
  {
    if HexValue(c).Some? {
      assert HexIs(c, HexValue(c).value);
    }
  }

  lemma UnitReads(t: string, u: nat, rest: string)
    requires UnitIs(t, u)
    ensures Unit(t + rest) == Some(u)
  {
    hide HexValue, HexIs, Unit, HexRun;
    var a: nat, b: nat, c: nat, d: nat :| DigitsAre(t, a, b, c, d) && u == a * 4096 + b * 256 + c * 16 + d;
    HexIsValue(t[0]);
    HexIsValue(t[1]);
    HexIsValue(t[2]);
    HexIsValue(t[3]);
    FourDigits(t + rest, a, b, c, d);
  }

  lemma ReadIsUnit(t: string, rest: string)
    requires |t| == 4 && Unit(t + rest).Some?
    ensures UnitIs(t, Unit(t + rest).value)
  {
    hide HexValue, HexIs, Unit, HexRun;
    AllHex(t + rest);
    HexIsValue(t[0]);
    HexIsValue(t[1]);
    HexIsValue(t[2]);
    HexIsValue(t[3]);
    var a, b, c, d := HexValue(t[0]).value, HexValue(t[1]).value, HexValue(t[2]).value, HexValue(t[3]).value;
    FourDigits(t + rest, a, b, c, d);
    assert DigitsAre(t, a, b, c, d);
  }

  lemma AllHex(t: string)
    requires Unit(t).Some?
    ensures |t| >= 4 && HexValue(t[0]).Some? && HexValue(t[1]).Some? && HexValue(t[2]).Some? && HexValue(t[3]).Some?
  {
    hide HexValue;
    assert HexRun(t, 3).Some? && HexRun(t, 2).Some? && HexRun(t, 1).Some?;
  }

  /** StringEnd passes over a piece, and Unescaped puts its bytes in front. */
  ghost predicate Passed(t: string, c: string, rest: string) {
    && Unescaped(t + rest) == Prefixed(c, Unescaped(rest))
    && StringEnd(t + rest) == (|t| + StringEnd(rest).0, StringEnd(rest).1)
  }

  lemma UnescapeSimple(e: char, s: string)
    requires SimpleEscape(e).Some?
    ensures Unescaped(['\\', e] + s) == Prefixed([SimpleEscape(e).value], Unescaped(s))
  {
    hide SimpleEscape;
    assert (['\\', e] + s)[2..] == s;
  }

  lemma UnescapeUnicode(h: string, cp: nat, s: string)
    requires |h| == 4 && CodePoint(h + s) == Some((cp, 4))
    ensures Unescaped(['\\', 'u'] + (h + s)) == Prefixed(Utf8(cp), Unescaped(s))
  {
    hide CodePoint, Utf8;
    var t := ['\\', 'u'] + (h + s);
    assert t[2..] == h + s && t[6..] == s;
    assert SimpleEscape('u').None?;
  }

  lemma PlainPassed(c: char, rest: string)
    requires c != '\"' && c != '\\'
    ensures Passed([c], [c], rest)
  {
    assert ([c] + rest)[1..] == rest;
  }

  lemma ShortPassed(e: char, c: char, rest: string)
    requires (e, c) in SHORT_ESCAPES
    ensures Passed(['\\', e], [c], rest)
  {
    assert SimpleEscape(e) == Some(c);
    UnescapeSimple(e, rest);
    assert (['\\', e] + rest)[2..] == rest;
  }

  lemma {:induction false} HexSkipped(h: string, rest: string)
    requires forall i | 0 <= i < |h| :: HexValue(h[i]).Some?
    ensures StringEnd(h + rest) == (|h| + StringEnd(rest).0, StringEnd(rest).1)
    decreases |h|
  {
    if h == "" {
      assert h + rest == rest;
    } else {
      assert (h + rest)[1..] == h[1..] + rest;
      HexSkipped(h[1..], rest);
    }
  }

  lemma UnitSkipped(h: string, u: nat, rest: string)
    requires UnitIs(h, u)
    ensures StringEnd("\\u" + h + rest) == (6 + StringEnd(rest).0, StringEnd(rest).1)
  {
    hide HexValue, UnitIs, HexIs;
    UnitLength(h, u);
    UnitReads(h, u, "");
    assert h + "" == h;
    AllHex(h);
    HexSkipped(h, rest);
    var t := "\\u" + h + rest;
    assert t[2..] == h + rest;
  }

  lemma UnitPassed(h: string, u: nat, rest: string)
    requires UnitIs(h, u) && !Leading(u)
    ensures Passed("\\u" + h, Utf8(u), rest)
  {
    hide UnitIs, Utf8, Unescaped, StringEnd, Unit;
    UnitSkipped(h, u, rest);
    UnitReads(h, u, rest);
    UnitLength(h, u);
    UnescapeUnicode(h, u, rest);
    assert ['\\', 'u'] + (h + rest) == "\\u" + h + rest;
  }

  lemma UnitLength(h: string, u: nat)
    requires UnitIs(h, u)
    ensures |h| == 4
  {
  }

  lemma PairPassed(h: string, u: nat, l: string, w: nat, cp: nat, rest: string)
    requires UnitIs(h, u) && UnitIs(l, w) && PairIs(u, w, cp)
    ensures Passed("\\u" + h + "\\u" + l, Utf8(cp), rest)
  {
    hide UnitIs, Utf8, StringEnd, Unit, Unescaped;
    UnitLength(h, u);
    UnitLength(l, w);
    var t := "\\u" + h + "\\u" + l;
    UnitSkipped(l, w, rest);
    UnitSkipped(h, u, "\\u" + l + rest);
    assert t + rest == "\\u" + h + ("\\u" + l + rest);
    PairRead(h, u, l, w, cp, rest);
    assert (t + rest)[2..] == h + ("\\u" + l + rest) && (t + rest)[12..] == rest;
    UnescapePair(t + rest, cp);
  }

  lemma PairRead(h: string, u: nat, l: string, w: nat, cp: nat, rest: string)
    requires UnitIs(h, u) && UnitIs(l, w) && PairIs(u, w, cp) && |h| == |l| == 4
    ensures CodePoint(h + ("\\u" + l + rest)) == Some((cp, 10))
  {
    hide UnitIs, Unit;
    var t := h + ("\\u" + l + rest);
    UnitReads(h, u, "\\u" + l + rest);
    UnitReads(l, w, rest);
    assert t[6..] == l + rest;
  }

  lemma UnescapePair(t: string, cp: nat)
    requires |t| >= 12 && t[0] == '\\' && t[1] == 'u' && CodePoint(t[2..]) == Some((cp, 10))
    ensures Unescaped(t) == Prefixed(Utf8(cp), Unescaped(t[12..]))
  {
    hide CodePoint, Utf8;
    assert SimpleEscape('u').None?;
  }

  lemma PiecePassed(t: string, c: string, rest: string)
    requires PieceIs(t, c)
    ensures Passed(t, c, rest)
  {
    hide Passed, UnitIs, Utf8, PairIs;
    if |t| == 1 {
      assert t == [t[0]];
      PlainPassed(t[0], rest);
    } else if |t| == 2 {
      assert t == ['\\', t[1]] && c == [c[0]];
      ShortPassed(t[1], c[0], rest);
    } else if |t| == 6 {
      var u :| UnitIs(t[2..], u) && !Leading(u) && c == Utf8(u);
      assert t == "\\u" + t[2..];
      UnitPassed(t[2..], u, rest);
    } else {
      var u, w, cp :| UnitIs(t[2..6], u) && UnitIs(t[8..], w) && PairIs(u, w, cp) && c == Utf8(cp);
      assert t == t[..2] + t[2..6] + t[6..8] + t[8..];
      PairPassed(t[2..6], u, t[8..], w, cp, rest);
    }
  }

  // --- the whole text ------------------------------------------------------------------------------

  lemma {:induction false} SpelledReads(t: string, s: string, post: string)
    requires Spells(t, s)
    ensures Unescaped(t) == Some(s) && StringEnd(t + ("\"" + post)) == (|t| + 1, true)
    decreases |t|
  {
    hide PieceIs, Unescaped, StringEnd;
    if t == "" && s == "" {
      EndsHere(post);
      assert t + ("\"" + post) == "\"" + post;
    } else {
      var k, j :| 0 < k <= |t| && 0 <= j <= |s| && PieceIs(t[..k], s[..j]) && Spells(t[k..], s[j..]);
      SpelledReads(t[k..], s[j..], post);
      PiecePassed(t[..k], s[..j], t[k..]);
      PiecePassed(t[..k], s[..j], t[k..] + ("\"" + post));
      assert t[..k] + t[k..] == t && s[..j] + s[j..] == s;
      assert t[..k] + (t[k..] + ("\"" + post)) == t + ("\"" + post);
    }
  }

  lemma EndsHere(post: string)
    ensures Unescaped("") == Some("") && StringEnd("\"" + post) == (1, true)
  {
  }

  /** What starts a text that decodes. */
  lemma FirstPiece(t: string) returns (k: nat, c: string)
    requires t != "" && t[0] != '\"' && Unescaped(t).Some?
    ensures 0 < k <= |t| && PieceIs(t[..k], c)
  {
    hide Unescaped, Utf8, UnitIs, CodePoint;
    if t[0] != '\\' {
      k, c := 1, [t[0]];
    } else {
      EscapeStarts(t);
      if t[1] == 'u' {
        k, c := FirstUnicode(t);
      } else {
        k, c := 2, [SimpleEscape(t[1]).value];
      }
    }
  }

  lemma EscapeStarts(t: string)
    requires t != "" && t[0] == '\\' && Unescaped(t).Some?
    ensures |t| >= 2 && if t[1] == 'u' then CodePoint(t[2..]).Some? else SimpleEscape(t[1]).Some?
  {
    hide CodePoint;
  }

  lemma FirstUnicode(t: string) returns (k: nat, c: string)
    requires |t| >= 2 && t[0] == '\\' && t[1] == 'u' && CodePoint(t[2..]).Some?
    ensures 0 < k <= |t| && PieceIs(t[..k], c)
  {
    hide Unescaped, Utf8, UnitIs, Unit;
    var h := t[2..];
    LongEnough(h);
    var u := Unit(h).value;
    assert h[..4] + h[4..] == h;
    ReadIsUnit(h[..4], h[4..]);
    if Leading(u) {
      LongEnough(h[6..]);
      var w := Unit(h[6..]).value;
      assert h[6..10] + h[10..] == h[6..];
      ReadIsUnit(h[6..10], h[10..]);
      var cp := 0x1_0000 + (u - 0xD800) * 0x400 + w % 0x400;
      k, c := 12, Utf8(cp);
      assert t[..12][2..6] == h[..4] && t[..12][8..] == h[6..10] && PairIs(u, w, cp);
    } else {
      k, c := 6, Utf8(u);
      assert t[..6][2..] == h[..4];
    }
  }

  lemma LongEnough(h: string)
    ensures Unit(h).Some? ==> |h| >= 4
  {
  }

  lemma {:induction false} ReadIsSpelled(t: string, s: string)
    requires Unescaped(t) == Some(s) && StringEnd(t + "\"") == (|t| + 1, true)
    ensures Spells(t, s)
    decreases |t|
  {
    hide PieceIs, Unescaped, StringEnd;
    if t == "" {
      EndsHere("");
    } else {
      NotYet(t);
      var k, c := FirstPiece(t);
      var rest := t[k..];
      PiecePassed(t[..k], c, rest);
      PiecePassed(t[..k], c, rest + "\"");
      assert t[..k] + rest == t && t[..k] + (rest + "\"") == t + "\"";
      var s' := Unescaped(rest).value;
      ReadIsSpelled(rest, s');
      assert s[..|c|] == c && s[|c|..] == s';
    }
  }

  lemma NotYet(t: string)
    requires t != "" && StringEnd(t + "\"") == (|t| + 1, true)
    ensures t[0] != '\"'
  {
  }

  // --- results ---------------------------------------------------------------------------------------

  /** In any spelling, a string is one token and is read as the string it stands for. */
  lemma SpelledString(t: string, s: string, post: string)
    requires Spells(t, s)
    ensures NextToken("\"" + t + "\"" + post) == Token(StringTok, "\"" + t + "\"", post)
    ensures ParseValue("\"" + t + "\"" + post) == Some(Parsed(Str(s), post))
  {
    hide Spells, Unescaped, NextToken, StringEnd, SkipSpaces;
    var q := "\"" + t + "\"";
    SpelledReads(t, s, post);
    Lexed(q + post);
    assert (q + post)[1..] == t + ("\"" + post);
    CutAppend(StringTok, q, post);
    RealToken(q + post);
    assert q[1..|q| - 1] == t;
  }

  /** A string token is decoded to s if and only if it spells s. */
  lemma SpelledExactly(t: string, s: string)
    requires NextToken("\"" + t + "\"").text == "\"" + t + "\"" && NextToken("\"" + t + "\"").kind == StringTok
    ensures DecodeString("\"" + t + "\"") == Some(s) <==> Spells(t, s)
  {
    hide Spells, Unescaped, NextToken, StringEnd, SkipSpaces;
    var q := "\"" + t + "\"";
    Lexed(q);
    assert q[1..] == t + "\"" && q[1..|q| - 1] == t;
    if Spells(t, s) {
      SpelledReads(t, s, "");
    }
    if Unescaped(t) == Some(s) {
      ReadIsSpelled(t, s);
    }
  }

  /** The writers put no bare control character and no bare quote into a string, so other readers take it as well. */
  lemma {:induction false} WrittenClean(text: string)
    requires NulFree(text)
    ensures Spells(Escaped(text), text)
    ensures forall i | 0 <= i < |Escaped(text)| :: Escaped(text)[i] >= ' '
    decreases |text|
  {
    hide Spells, Escape;
    if text == "" {
      EmptySpelled();
    } else {
      WrittenClean(text[1..]);
      EscapeIsPiece(text[0]);
      var k, rest := |Escape(text[0])|, Escaped(text[1..]);
      assert Escaped(text)[..k] == Escape(text[0]) && Escaped(text)[k..] == rest && text[..1] == [text[0]];
      OneMore(Escaped(text), k, text);
    }
  }

  lemma EmptySpelled()
    ensures Spells("", "")
  {
  }

  lemma OneMore(t: string, k: nat, s: string)
    requires 0 < k <= |t| && s != "" && PieceIs(t[..k], s[..1]) && Spells(t[k..], s[1..])
    ensures Spells(t, s)
  {
    hide PieceIs;
  }

  lemma EscapeIsPiece(c: char)
    requires c != '\0'
    ensures PieceIs(Escape(c), [c]) && forall i | 0 <= i < |Escape(c)| :: Escape(c)[i] >= ' '
  {
    hide UnitIs;
    if |Escape(c)| == 6 {
      ControlUnit(c);
      assert Utf8(c as int) == [c];
    }
  }

  lemma ControlUnit(c: char)
    requires IsControl(c) && |Escape(c)| == 6
    ensures UnitIs(Escape(c)[2..], c as int)
  {
    assert DigitsAre(Escape(c)[2..], 0, 0, c as int / 16, c as int % 16);
  }
}
