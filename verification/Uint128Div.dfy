/**
 Shift-and-subtract division and radix printing of lib/util/uint128_t.cpp.
 */
module Uint128Division {
  import opened Numbers
  import opened Uint128
  import opened Uint128Product

  // --- bit length ---------------------------------------------------------------

  /** The bit length is the only k with 2^(k-1) <= n < 2^k. */
  lemma BitLengthUnique(n: nat, k: nat)
    requires k > 0 && Pow2(k - 1) <= n < Pow2(k)
    ensures BitLength(n) == k
  {
    BitLengthBounds(n);
    var b := BitLength(n);
    if b < k {
      Pow2Monotone(b, k - 1);
    } else if k < b {
      Pow2Monotone(k, b - 1);
    }
  }

  lemma BitLengthUpper(u: nat, l: nat)
    requires u > 0 && l < B64
    ensures BitLength(u * B64 + l) == 64 + BitLength(u)
  {
    hide BitLength, Pow2;
    BitLengthBounds(u);
    var b := BitLength(u);
    Pow2Words();
    Pow2Add(b - 1, 64);
    Pow2Add(b, 64);
    BitLengthUnique(u * B64 + l, 64 + b);
  }

  /** bits(): counts the shifts until the higher non-zero word is empty. */
  method Bits(x: U128) returns (n: nat)
    ensures n == BitLength(Value(x)) <= 128
  {
    BitsBound(Value(x));
    n := 0;
    if x.upper != 0 {
      BitLengthUpper(x.upper, x.lower);
      n := 64;
      var up := x.upper;
      while up != 0
        invariant up >= 0 && n + BitLength(up) == 64 + BitLength(x.upper)
      {
        up := up / 2;
        n := n + 1;
      }
    } else {
      var low := x.lower;
      while low != 0
        invariant low >= 0 && n + BitLength(low) == BitLength(x.lower)
      {
        low := low / 2;
        n := n + 1;
      }
    }
  }

  lemma BitsBound(n: nat)
    requires n < B128
    ensures BitLength(n) <= 128
  {
    if n > 0 {
      BitLengthBounds(n);
      Pow2Words();
      if BitLength(n) > 128 {
        Pow2Monotone(128, BitLength(n) - 1);
      }
    }
  }

  // --- bitwise or ------------------------------------------------------------------

  lemma OrWord(a: Word, b: Word)
    ensures Or(a, b) < B64
  {
    Pow2Words();
    OrBound(a, b, 64);
  }

  /** operator|= */
  function OrU(x: U128, y: U128): U128 {
    OrWord(x.upper, y.upper);
    OrWord(x.lower, y.lower);
    U128(Or(x.upper, y.upper), Or(x.lower, y.lower))
  }

  /** In the quotient, |= of the next lower power of two is addition. */
  lemma OrUAdds(x: U128, y: U128, k: nat)
    requires k < 128 && Value(y) == Pow2(k) && Value(x) % Pow2(k + 1) == 0
    ensures Value(OrU(x, y)) == Value(x) + Value(y)
  {
    hide Or, Pow2;
    Pow2Words();
    OrZero(x.upper);
    OrZero(x.lower);
    if k < 64 {
      Pow2Monotone(k, 63);
      Pow2Step(63);
      assert y == U128(0, Pow2(k)) by { QuotientUnique(Value(y), B64, 0, Pow2(k)); }
      LowPart(x, k + 1);
      OrAdds(x.lower, k);
    } else {
      Pow2Add(k - 64, 64);
      assert y == U128(Pow2(k - 64), 0) by { ValueSplit(y, Pow2(k - 64)); }
      HighPartZero(x, k + 1);
      OrAdds(x.upper, k - 64);
    }
  }

  lemma ValueSplit(y: U128, p: nat)
    requires Value(y) == p * B64
    ensures y.upper == p && y.lower == 0
  {
  }

  /** A divisor of 2^64 that divides the number divides its lower word. */
  lemma LowPart(x: U128, j: nat)
    requires j <= 64 && Value(x) % Pow2(j) == 0
    ensures x.lower % Pow2(j) == 0
  {
    hide Pow2;
    var p, q, m := Pow2(j), Pow2(64 - j), Value(x) / Pow2(j);
    Pow2Words();
    Pow2Add(j, 64 - j);
    assert x.lower == (m - x.upper * q) * p by {
      assert x.upper * (p * q) == (x.upper * q) * p;
      assert Value(x) == m * p;
    }
    QuotientUnique(x.lower, p, m - x.upper * q, 0);
  }

  /** A multiple of 2^j with j > 64 has an empty lower word, and its upper word is a multiple too. */
  lemma HighPartZero(x: U128, j: nat)
    requires 64 < j && Value(x) % Pow2(j) == 0
    ensures x.lower == 0 && x.upper % Pow2(j - 64) == 0
  {
    hide Pow2;
    var p, m := Pow2(j - 64), Value(x) / Pow2(j);
    Pow2Words();
    Pow2Add(j - 64, 64);
    assert Value(x) == (m * p) * B64 by {
      assert Value(x) == m * (p * B64);
      assert m * (p * B64) == (m * p) * B64;
    }
    ValueSplit(x, m * p);
    QuotientUnique(x.upper, p, m, 0);
  }

  // --- division ------------------------------------------------------------------------

  datatype Division = ByZero | QR(quotient: U128, remainder: U128)

  /** The quotient and remainder of mathematics. */
  ghost predicate Divides(lhs: U128, rhs: U128, q: U128, r: U128) {
    Value(lhs) == Value(q) * Value(rhs) + Value(r) && Value(r) < Value(rhs)
  }

  /**
   Between two turns of the loop: what is left is below twice the shifted divisor
   copyd = rhs * 2^k, and the quotient so far has only bits above 2^k.
   */
  ghost predicate Turn(lhs: nat, rhs: nat, q: nat, r: nat, copyd: nat, adder: nat, k: nat) {
    && lhs == q * rhs + r
    && (r >= rhs ==> adder == Pow2(k) && copyd == rhs * adder && r < 2 * copyd && q % Pow2(k + 1) == 0)
  }

  lemma TurnSubtract(lhs: nat, rhs: nat, q: nat, r: nat, copyd: nat, adder: nat, k: nat)
    requires Turn(lhs, rhs, q, r, copyd, adder, k) && rhs > 0 && r >= rhs && r >= copyd
    ensures lhs == (q + adder) * rhs + (r - copyd)
    ensures (q + adder) % Pow2(k) == 0 && r - copyd < copyd
    ensures k == 0 ==> r - copyd < rhs
  {
    hide Pow2;
    assert (q + adder) * rhs == q * rhs + rhs * adder;
    MultipleHalf(q, k);
    Pow2Step(k);
    if k == 0 {
      Pow2Nothing();
    }
  }

  /** A multiple of 2^(k+1), with or without 2^k added, is a multiple of 2^k. */
  lemma MultipleHalf(q: nat, k: nat)
    requires q % Pow2(k + 1) == 0
    ensures q % Pow2(k) == 0 && (q + Pow2(k)) % Pow2(k) == 0
  {
    hide Pow2;
    Pow2Step(k);
    var p, m := Pow2(k), q / Pow2(k + 1);
    assert q == m * (2 * p) == (2 * m) * p;
    QuotientUnique(q, p, 2 * m, 0);
    assert q + p == (2 * m + 1) * p;
    QuotientUnique(q + p, p, 2 * m + 1, 0);
  }

  /** Halving the shifted divisor and its power of two keeps the turn. */
  lemma TurnHalve(lhs: nat, rhs: nat, q: nat, r: nat, copyd: nat, adder: nat, k: nat)
    requires lhs == q * rhs + r && rhs > 0
    requires adder == Pow2(k) && copyd == rhs * adder && r < copyd && q % Pow2(k) == 0
    requires k == 0 ==> r < rhs
    ensures Turn(lhs, rhs, q, r, copyd / 2, adder / 2, if k == 0 then 0 else k - 1)
  {
    hide Pow2;
    if k > 0 {
      Pow2Step(k - 1);
      var p := Pow2(k - 1);
      assert rhs * (2 * p) == 2 * (rhs * p);
    }
  }

  lemma HalveIsShift(x: U128)
    ensures Value(ShiftRight(x, ONE)) == Value(x) / 2
  {
    assert Value(ONE) == 1 && Pow2(1) == 2;
    ShiftRightIsDivide(x, ONE);
  }

  lemma SubExact(x: U128, y: U128)
    requires Value(x) >= Value(y)
    ensures Value(Sub(x, y)) == Value(x) - Value(y)
  {
    SubIsModular(x, y);
  }

  /** One turn of the loop of divmod. */
  method DivideTurn(ghost lhs: nat, rhs: U128, q0: U128, r0: U128, copyd0: U128, adder0: U128, ghost k: nat)
    returns (q: U128, r: U128, copyd: U128, adder: U128)
    requires Value(rhs) > 0 && k < 128 && Value(r0) >= Value(rhs)
    requires Turn(lhs, Value(rhs), Value(q0), Value(r0), Value(copyd0), Value(adder0), k)
    ensures Turn(lhs, Value(rhs), Value(q), Value(r), Value(copyd), Value(adder), if k == 0 then 0 else k - 1)
    ensures k == 0 ==> Value(r) < Value(rhs)
  {
    hide Pow2, Value, Sub, ShiftRight, OrU;
    q, r, copyd, adder := q0, r0, copyd0, adder0;
    GreaterIsGreater(r, copyd);
    if GreaterEqual(r, copyd) {
      TurnSubtract(lhs, Value(rhs), Value(q), Value(r), Value(copyd), Value(adder), k);
      SubExact(r, copyd);
      OrUAdds(q, adder, k);
      r := Sub(r, copyd);
      q := OrU(q, adder);
    } else {
      MultipleHalf(Value(q), k);
      LastTurn(Value(rhs), Value(copyd), Value(adder), k);
    }
    TurnHalve(lhs, Value(rhs), Value(q), Value(r), Value(copyd), Value(adder), k);
    HalveIsShift(copyd);
    HalveIsShift(adder);
    copyd := ShiftRight(copyd, ONE);
    adder := ShiftRight(adder, ONE);
  }

  lemma LastTurn(rhs: nat, copyd: nat, adder: nat, k: nat)
    requires adder == Pow2(k) && copyd == rhs * adder
    ensures k == 0 ==> copyd == rhs
  {
    if k == 0 {
      Pow2Nothing();
    }
  }

  lemma {:induction false} BitLengthMonotone(m: nat, n: nat)
    requires m <= n
    ensures BitLength(m) <= BitLength(n)
    decreases n
  {
    if m > 0 {
      BitLengthMonotone(m / 2, n / 2);
    }
  }

  /** Aligning the divisor with the dividend: no bit is lost, and twice the result exceeds the dividend. */
  lemma Aligned(lhs: nat, rhs: nat, d: nat)
    requires 0 < rhs <= lhs < B128 && d == BitLength(lhs) - BitLength(rhs)
    ensures rhs * Pow2(d) < B128 && lhs < 2 * (rhs * Pow2(d)) && d < 128
  {
    hide Pow2, BitLength;
    BitLengthBounds(lhs);
    BitLengthBounds(rhs);
    BitsBound(lhs);
    var b, c := BitLength(lhs), BitLength(rhs);
    Pow2Add(c, d);
    Pow2Step(c - 1);
    Pow2Words();
    Pow2Monotone(b, 128);
    AlignBounds(lhs, rhs, Pow2(d), Pow2(c - 1));
  }

  lemma AlignBounds(lhs: nat, rhs: nat, p: nat, half: nat)
    requires half <= rhs < 2 * half && lhs < (2 * half) * p && p > 0
    ensures rhs * p < (2 * half) * p && lhs < 2 * (rhs * p)
  {
    assert rhs * p < (2 * half) * p by { assert (2 * half - rhs) * p > 0; }
    assert half * p <= rhs * p by { assert (rhs - half) * p >= 0; }
    assert (2 * half) * p == 2 * (half * p);
  }

  lemma ShiftedBy(x: U128, d: nat)
    requires d < 128 && Value(x) * Pow2(d) < B128
    ensures Value(ShiftLeft(x, U128(0, d))) == Value(x) * Pow2(d)
  {
    hide Pow2, ShiftLeft, Value;
    assert Value(U128(0, d)) == d by { SmallValue(d); }
    ShiftLeftIsTimes(x, U128(0, d));
    QuotientUnique(Value(x) * Pow2(d), B128, 0, Value(x) * Pow2(d));
  }

  lemma SmallValue(d: nat)
    requires d < B64
    ensures Value(U128(0, d)) == d
  {
  }

  /** divmod: the loop ends, and its results are the quotient and the remainder. */
  method DivMod(lhs: U128, rhs: U128) returns (res: Division)
    ensures res == ByZero <==> Value(rhs) == 0
    ensures res.QR? ==> Divides(lhs, rhs, res.quotient, res.remainder)
  {
    if rhs == ZERO {
      return ByZero;
    } else if rhs == ONE {
      return QR(lhs, ZERO);
    } else if lhs == rhs {
      return QR(ONE, ZERO);
    } else if lhs == ZERO || Greater(rhs, lhs) {
      GreaterIsGreater(rhs, lhs);
      return QR(ZERO, lhs);
    }
    GreaterIsGreater(rhs, lhs);
    var q, r := DivideLarger(lhs, rhs);
    return QR(q, r);
  }

  method DivideLarger(lhs: U128, rhs: U128) returns (q: U128, r: U128)
    requires 0 < Value(rhs) <= Value(lhs)
    ensures Divides(lhs, rhs, q, r)
  {
    hide Pow2, Value;
    q, r := ZERO, lhs;
    SmallValue(0);
    var copyd, adder, k := Align(lhs, rhs);
    assert Value(q) % Pow2(k + 1) == 0;
    GreaterIsGreater(r, rhs);
    while GreaterEqual(r, rhs)
      invariant k < 128 && Turn(Value(lhs), Value(rhs), Value(q), Value(r), Value(copyd), Value(adder), k)
      invariant GreaterEqual(r, rhs) <==> Value(r) >= Value(rhs)
      decreases GreaterEqual(r, rhs), k
    {
      q, r, copyd, adder := DivideTurn(Value(lhs), rhs, q, r, copyd, adder, k);
      k := if k == 0 then 0 else k - 1;
      GreaterIsGreater(r, rhs);
    }
  }

  /** The divisor times a power of two, so large that twice the result exceeds the dividend. */
  method Align(lhs: U128, rhs: U128) returns (copyd: U128, adder: U128, ghost k: nat)
    requires 0 < Value(rhs) <= Value(lhs)
    ensures k < 128 && Value(adder) == Pow2(k) && Value(copyd) == Value(rhs) * Pow2(k) && Value(lhs) < 2 * Value(copyd)
  {
    hide Pow2, Value, ShiftLeft, ShiftRight, BitLength;
    var lhsBits := Bits(lhs);
    var rhsBits := Bits(rhs);
    BitLengthMonotone(Value(rhs), Value(lhs));
    var d: nat := lhsBits - rhsBits;
    Aligned(Value(lhs), Value(rhs), d);
    SmallValue(1);
    MulMono(1, Value(rhs), Pow2(d));
    ShiftedBy(rhs, d);
    ShiftedBy(ONE, d);
    copyd := ShiftLeft(rhs, U128(0, d));
    adder := ShiftLeft(ONE, U128(0, d));
    k := d;
    GreaterIsGreater(copyd, lhs);
    if Greater(copyd, lhs) {
      HalveIsShift(copyd);
      HalveIsShift(adder);
      AlignedHalf(Value(lhs), Value(rhs), d);
      copyd := ShiftRight(copyd, ONE);
      adder := ShiftRight(adder, ONE);
      k := d - 1;
    }
  }

  lemma AlignedHalf(lhs: nat, rhs: nat, d: nat)
    requires 0 < rhs <= lhs < rhs * Pow2(d)
    ensures d > 0 && rhs * Pow2(d) / 2 == rhs * Pow2(d - 1) && Pow2(d) / 2 == Pow2(d - 1)
    ensures lhs < 2 * (rhs * Pow2(d - 1))
  {
    hide Pow2;
    if d == 0 {
      Pow2Nothing();
    } else {
      Pow2Step(d - 1);
      assert rhs * (2 * Pow2(d - 1)) == 2 * (rhs * Pow2(d - 1));
    }
  }

  /** Quotient and remainder are determined by their property. */
  lemma DivisionUnique(lhs: U128, rhs: U128, q: U128, r: U128)
    requires Divides(lhs, rhs, q, r)
    ensures Value(q) == Value(lhs) / Value(rhs) && Value(r) == Value(lhs) % Value(rhs)
  {
    hide Value;
    QuotientUnique(Value(lhs), Value(rhs), Value(q), Value(r));
  }

  /** operator% goes through the wrapping product and difference, and still gives the remainder. */
  method Modulo(lhs: U128, rhs: U128) returns (res: Division)
    ensures res == ByZero <==> Value(rhs) == 0
    ensures res.QR? ==> Value(res.remainder) == Value(lhs) % Value(rhs)
  {
    hide Value, Sub;
    res := DivMod(lhs, rhs);
    if res.QR? {
      DivisionUnique(lhs, rhs, res.quotient, res.remainder);
      var p := Multiply(rhs, res.quotient);
      assert Value(rhs) * Value(res.quotient) == Value(lhs) - Value(res.remainder);
      SubExact(lhs, p);
      res := res.(remainder := Sub(lhs, p));
    }
  }

  // --- printing in a base ----------------------------------------------------------------

  const DIGITS := "0123456789abcdef"

  function DigitOf(d: nat): (c: char)
    requires d < 16
    ensures (c == '0') == (d == 0)
  {
    if d < 10 then '0' + d as char else 'a' + (d - 10) as char
  }

  function ValueOfDigit(c: char): nat {
    if '0' <= c <= '9' then c as int - '0' as int
    else if 'a' <= c <= 'f' then c as int - 'a' as int + 10
    else 16
  }

  lemma DigitRoundTrip(d: nat)
    requires d < 16
    ensures ValueOfDigit(DigitOf(d)) == d && DIGITS[d] == DigitOf(d)
  {
  }

  /** The number that `text` denotes in the base, read after the number `before`. */
  function NumberOf(text: string, base: nat, before: nat): nat
    decreases |text|
  {
    if text == "" then before else NumberOf(text[1..], base, before * base + ValueOfDigit(text[0]))
  }

  predicate DigitsOf(text: string, base: nat) {
    forall i | 0 <= i < |text| :: ValueOfDigit(text[i]) < base
  }

  lemma {:induction false} LeadingZeros(zeros: string, text: string, base: nat)
    requires forall i | 0 <= i < |zeros| :: zeros[i] == '0'
    ensures NumberOf(zeros + text, base, 0) == NumberOf(text, base, 0)
    decreases |zeros|
  {
    if zeros == "" {
      assert zeros + text == text;
    } else {
      assert (zeros + text)[1..] == zeros[1..] + text;
      LeadingZeros(zeros[1..], text, base);
    }
  }

  datatype Text = BadBase | Text(text: string)

  /** str: digits that denote the number, padded to `len`, and no other leading zero. */
  method Str(x: U128, base: nat, len: nat) returns (res: Text)
    ensures res == BadBase <==> base < 2 || base > 16
    ensures res.Text? ==> && NumberOf(res.text, base, 0) == Value(x) && DigitsOf(res.text, base)
                          && |res.text| >= len && |res.text| >= 1
                          && (|res.text| > len && |res.text| > 1 ==> res.text[0] != '0')
  {
    if base < 2 || base > 16 {
      return BadBase;
    }
    var out := "0";
    if x != ZERO {
      out := Significant(x, base);
    } else {
      assert "0"[1..] == "";
    }
    if |out| < len {
      var zeros := seq(len - |out|, _ => '0');
      LeadingZeros(zeros, out, base);
      out := zeros + out;
    }
    return Text(out);
  }

  /** The do-while loop of str. */
  method Significant(x: U128, base: nat) returns (out: string)
    requires 2 <= base <= 16 && x != ZERO
    ensures out != "" && out[0] != '0' && DigitsOf(out, base) && NumberOf(out, base, 0) == Value(x)
  {
    hide Value;
    out := "";
    var q := x;
    SmallValue(base);
    SmallValue(0);
    var more := true;
    NonZero(x);
    while more
      invariant DigitsOf(out, base) && NumberOf(out, base, Value(q)) == Value(x)
      invariant more == (Value(q) != 0)
      invariant !more ==> out != "" && out[0] != '0'
      decreases Value(q)
    {
      ghost var before := Value(q);
      var qr := DivMod(q, U128(0, base));
      var d := qr.remainder.lower;
      assert d == Value(qr.remainder) by { SmallLower(qr.remainder); }
      DigitRoundTrip(d);
      assert ([DIGITS[d]] + out)[1..] == out;
      out := [DIGITS[d]] + out;
      q := qr.quotient;
      QuotientSmaller(before, Value(q), base, d);
      NonZero(q);
      more := q != ZERO;
    }
  }

  lemma NonZero(x: U128)
    ensures x != ZERO <==> Value(x) != 0
  {
  }

  lemma SmallLower(x: U128)
    requires Value(x) < B64
    ensures x.lower == Value(x)
  {
  }

  lemma QuotientSmaller(n: nat, q: nat, base: nat, d: nat)
    requires n == q * base + d && base >= 2 && n > 0
    ensures q < n
    ensures q == 0 ==> d > 0
  {
    assert q * base >= 2 * q by { MulMono(2, base, q); }
  }
}
