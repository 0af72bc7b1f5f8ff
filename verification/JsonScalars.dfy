/**
 Numbers and words: which tokens lib/json/jsoncpp.cpp takes for which values.
 */
module JsonScalars {
  import opened Decimals
  import opened JsonSpec
  import opened JsonMembers
  import opened JsonText
  import opened JsonTokens
  import opened JsonStrings

  // --- integers ---------------------------------------------------------------------------

  predicate AllDigits(t: string) {
    forall i | 0 <= i < |t| :: IsDigit(t[i])
  }

  /** The number that `value` followed by decimal digits denotes. */
  ghost function ValueOf(digits: string, value: nat): (n: nat)
    requires AllDigits(digits)
    ensures n >= value && (digits != "" ==> n >= 10 * value) && (|digits| > 1 ==> n >= 100 * value)
    decreases |digits|
  {
    if digits == "" then value else ValueOf(digits[1..], value * 10 + DigitValue(digits[0]))
  }

  /** Integer decoding is exact: it gives up exactly when the number exceeds the limit. */
  lemma {:induction false} AccumulateExact(digits: string, value: nat, limit: nat)
    requires AllDigits(digits) && value <= limit && limit >= 10
    ensures Accumulate(digits, value, limit)
         == (if ValueOf(digits, value) <= limit then Fits(ValueOf(digits, value)) else TooLarge)
    decreases |digits|
  {
    if digits != "" {
      var d := DigitValue(digits[0]);
      if !(value >= limit / 10 && (value > limit / 10 || |digits| > 1 || d > limit % 10)) {
        AccumulateExact(digits[1..], value * 10 + d, limit);
      }
    }
  }

  lemma {:induction false} ValueOfAppend(a: string, b: string, value: nat)
    requires AllDigits(a) && AllDigits(b)
    ensures AllDigits(a + b) && ValueOf(a + b, value) == ValueOf(b, ValueOf(a, value))
    decreases |a|
  {
    if a == "" {
      assert a + b == b;
    } else {
      assert (a + b)[1..] == a[1..] + b;
      ValueOfAppend(a[1..], b, value * 10 + DigitValue(a[0]));
    }
  }

  lemma {:induction false} DecimalValue(n: nat)
    ensures AllDigits(Decimal(n)) && ValueOf(Decimal(n), 0) == n
  {
    if n >= 10 {
      DecimalValue(n / 10);
      var d := Digit(n % 10);
      assert ValueOf([d], n / 10) == n by {
        assert [d][1..] == "";
      }
      ValueOfAppend(Decimal(n / 10), [d], 0);
    } else {
      assert [Digit(n)][1..] == "";
    }
  }

  /**
   A sign and digits decode to exactly the integer they denote when it fits 64 bits, signed if
   negative and unsigned otherwise; every other such text goes to the real path.
   */
  lemma IntegerDecoding(digits: string, negative: bool)
    requires AllDigits(digits) && digits != ""
    ensures var t := if negative then "-" + digits else digits;
            var n := ValueOf(digits, 0);
            DecodeNumber(t) == Some(if n > Limit(negative) then Real(t) else if negative then Int(0 - n) else Tagged(n))
  {
    var t := if negative then "-" + digits else digits;
    AccumulateExact(digits, 0, Limit(negative));
    assert negative ==> t[1..] == digits;
    assert IsDigit(digits[0]);
    NotReal(t);
  }

  lemma NotReal(t: string)
    requires t != "" && (t[0] == '-' || IsDigit(t[0])) && AllDigits(t[1..])
    ensures !LooksReal(t)
  {
    forall i | 0 <= i < |t| ensures IsDigit(t[i]) || (i == 0 && t[i] == '-') {
      if i > 0 { assert t[i] == t[1..][i - 1]; }
    }
  }

  /** The two ways to add up digits agree. */
  lemma {:induction false} DecimalOfIs(t: string)
    requires Numerals(t)
    ensures AllDigits(t) && ValueOf(t, 0) == DecimalOf(t)
    decreases |t|
  {
    if t != "" {
      var front, last := t[..|t| - 1], [t[|t| - 1]];
      DecimalOfIs(front);
      ValueOfAppend(front, last, 0);
      assert front + last == t && last[1..] == "";
    }
  }

  // --- number tokens -------------------------------------------------------------------------

  /** Whether a number text is integral. */
  lemma IntegralIs(t: string)
    requires NumberText(t)
    ensures !LooksReal(t) <==> Numerals(if t[0] == '-' then t[1..] else t)
    ensures t[0] == '-' ==> !Numerals(t)
  {
    var digits := if t[0] == '-' then t[1..] else t;
    if !LooksReal(t) {
      forall i | 0 <= i < |digits| ensures Numeral(digits[i]) {
        var k := if t[0] == '-' then i + 1 else i;
        assert digits[i] == t[k] && NumberChar(t[k]) && !RealMark(t[k], k);
      }
    } else {
      var k :| 0 <= k < |t| && RealMark(t[k], k);
      var i := if t[0] == '-' then k - 1 else k;
      assert digits[i] == t[k];
    }
  }

  /** A number text is decoded to what it stands for. */
  lemma NumberDecodes(t: string, v: Value)
    requires NumberText(t)
    ensures NumberIs(t, v) ==> DecodeNumber(t) == Some(ReadBack(v))
    ensures DecodeNumber(t) == Some(v) ==> NumberIs(t, v) && ReadBack(v) == v
  {
    hide Accumulate, ValueOf, LooksReal, DecimalOf, Numerals, NumberChar;
    IntegralIs(t);
    var digits := if t[0] == '-' then t[1..] else t;
    if Numerals(digits) {
      DecimalOfIs(digits);
      AccumulateExact(digits, 0, Limit(t[0] == '-'));
    }
  }

  // --- scalars -----------------------------------------------------------------------------------

  lemma NumberReads(t: string, v: Value, post: string)
    requires NumberIs(t, v) && Delimits(post)
    ensures ParseValue(t + post) == Some(Parsed(ReadBack(v), post))
  {
    hide NextToken, NextRealToken, DecodeNumber, DecodeString, ParseValue, ReadBack, Delimits;
    ValueOfToken(t + post);
    NumberDecodes(t, v);
    NumberToken(t, post);
  }

  lemma WordReads(t: string, v: Value, post: string)
    requires (t == "null" && v == Null) || (t == "true" && v == Bool(true)) || (t == "false" && v == Bool(false))
    ensures ParseValue(t + post) == Some(Parsed(ReadBack(v), post))
  {
    hide NextToken, NextRealToken, DecodeNumber, DecodeString, ParseValue, StartOf;
    ValueOfToken(t + post);
    WordStarts();
    WordToken(t, post);
  }

  lemma WordStarts()
    ensures StartOf('n') == Word(NullTok, "null") && StartOf('t') == Word(True, "true") && StartOf('f') == Word(False, "false")
  {
  }

  /** Every scalar text is read as what it stands for. */
  lemma ScalarReads(t: string, v: Value, post: string)
    requires ScalarIs(t, v) && (NumberText(t) ==> Delimits(post))
    ensures ParseValue(t + post) == Some(Parsed(ReadBack(v), post))
  {
    hide ParseValue, Spells, NumberText, Delimits, NumberIs;
    if NumberIs(t, v) {
      assert NumberText(t) by { NumberIsText(t, v); }
      NumberReads(t, v, post);
    } else if v.Str? && StringIs(t, v.s) {
      StringReads(t, v.s, post);
    } else {
      WordReads(t, v, post);
    }
  }

  lemma NumberIsText(t: string, v: Value)
    requires NumberIs(t, v)
    ensures NumberText(t)
  {
  }

  lemma StringReads(t: string, s: string, post: string)
    requires StringIs(t, s)
    ensures ParseValue(t + post) == Some(Parsed(Str(s), post))
    ensures NextToken(t + post) == Token(StringTok, t, post) && DecodeString(t) == Some(s)
  {
    hide ParseValue, Spells, NextToken, Unescaped;
    var inner := t[1..|t| - 1];
    assert t == "\"" + inner + "\"";
    SpelledString(inner, s, post);
    SpelledReads(inner, s, post);
  }

  /** What is read from a token is what the token stands for. */
  lemma ScalarRead(s: string)
    requires s != "" && ParseScalar(TokenAt(s)).Some?
    ensures var t, v := TokenAt(s), ParseScalar(TokenAt(s)).value.value;
            && ScalarIs(t.text, v) && ReadBack(v) == v && (NumberText(t.text) ==> Delimits(t.rest))
  {
    hide TokenAt, StringEnd, DecodeNumber, DecodeString, NumberIs, StringIs, Delimits;
    TokenIs(s);
    var t := TokenAt(s);
    var v := ParseScalar(t).value.value;
    match t.kind
    case Number => NumberDecodes(t.text, v);
    case StringTok => StringRead(s);
    case _ =>
  }

  lemma StringRead(s: string)
    requires s != "" && TokenAt(s).kind == StringTok && DecodeString(TokenAt(s).text).Some?
    ensures StringIs(TokenAt(s).text, DecodeString(TokenAt(s).text).value) && !NumberText(TokenAt(s).text)
  {
    hide TokenAt, StringEnd, Unescaped, Spells;
    TokenIs(s);
    var t := TokenAt(s).text;
    var n := |t| - 1;
    assert t == s[..n + 1] && s[1..] == s[1..n] + s[n..];
    StringCloses(s[1..], n);
    assert t[1..|t| - 1] == s[1..n] && t[0] == s[0] && s[1..][..n] + "" == s[1..n] + "\"";
    ReadIsSpelled(t[1..|t| - 1], DecodeString(t).value);
  }

  /** A closed string ends with its quote, whatever follows. */
  lemma {:induction false} StringCloses(s: string, n: nat)
    requires StringEnd(s) == (n, true)
    ensures 0 < n <= |s| && s[n - 1] == '\"'
    ensures forall post: string :: StringEnd(s[..n] + post) == (n, true)
    decreases |s|
  {
    if s[0] != '\"' {
      var skip := if s[0] == '\\' && |s| > 1 then 2 else 1;
      StringCloses(s[skip..], n - skip);
      forall post: string ensures StringEnd(s[..n] + post) == (n, true) {
        var u := s[..n] + post;
        assert u[skip..] == s[skip..][..n - skip] + post;
        assert u[0] == s[0] && |u| > 1;
      }
    }
  }

  // --- the texts of the writers ---------------------------------------------------------------------

  /** What FastWriter writes for a scalar stands for it. */
  lemma FastIsScalar(v: Value)
    requires Writable(v) && !v.Arr? && !v.Obj?
    ensures ScalarIs(Fast(v), v)
  {
    hide Decimal, NumberIs, StringIs;
    match v
    case Int(i) => IntTextIs(i, v);
    case UInt(u) => IntTextIs(u, v);
    case Str(s) => QuotedIs(s);
    case _ =>
  }

  lemma QuotedIs(s: string)
    requires NulFree(s)
    ensures StringIs(Quoted(s), s)
  {
    hide Spells, Escaped;
    WrittenClean(s);
    assert Quoted(s)[1..|Quoted(s)| - 1] == Escaped(s);
  }

  lemma {:induction false} DecimalIs(n: nat)
    ensures Decimal(n) != "" && Numerals(Decimal(n)) && DecimalOf(Decimal(n)) == n
  {
    if n >= 10 {
      DecimalIs(n / 10);
      assert Decimal(n)[..|Decimal(n)| - 1] == Decimal(n / 10);
    }
  }

  lemma DecimalHead(n: nat)
    ensures IsDigit(Decimal(n)[0])
  {
    DecimalIs(n);
  }

  lemma IntTextIs(n: int, v: Value)
    requires MIN_LARGEST_INT <= n <= MAX_LARGEST_UINT && (v == Int(n) || (n >= 0 && v == UInt(n)))
    ensures NumberIs(IntText(n), v)
  {
    hide Decimal, DecimalOf;
    var m: nat := if n < 0 then 0 - n else n;
    DecimalIs(m);
    var t := IntText(n);
    assert n < 0 ==> t[1..] == Decimal(m);
    assert forall i | 0 <= i < |t| :: NumberChar(t[i]);
  }
}
