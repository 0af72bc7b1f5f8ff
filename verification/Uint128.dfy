/**
 128-bit unsigned arithmetic on two 64-bit words (lib/util/uint128_t.cpp).

 A word is an integer below 2^64, and every sum, difference, product and left
 shift of words is written with its wrap-around.
 */
module Uint128 {
  import opened Numbers

  const B32: int := 0x1_0000_0000
  const B64: int := 0x1_0000_0000_0000_0000
  const B128: int := 0x1_0000_0000_0000_0000_0000_0000_0000_0000

  type Word = x: int | 0 <= x < B64

  datatype U128 = U128(upper: Word, lower: Word)

  const ZERO := U128(0, 0)
  const ONE := U128(0, 1)

  function Value(x: U128): (n: nat)
    ensures n < B128
  {
    x.upper * B64 + x.lower
  }

  function Wrap(n: int): Word {
    n % B64
  }

  // --- comparison, addition, subtraction ------------------------------------

  predicate Greater(x: U128, y: U128) {
    if x.upper == y.upper then x.lower > y.lower else x.upper > y.upper
  }

  predicate GreaterEqual(x: U128, y: U128) {
    Greater(x, y) || x == y
  }

  lemma GreaterIsGreater(x: U128, y: U128)
    ensures Greater(x, y) <==> Value(x) > Value(y)
    ensures GreaterEqual(x, y) <==> Value(x) >= Value(y)
  {
  }

  function Add(x: U128, y: U128): U128 {
    U128(Wrap(x.upper + y.upper + (if Wrap(x.lower + y.lower) < x.lower then 1 else 0)), Wrap(x.lower + y.lower))
  }

  function Sub(x: U128, y: U128): U128 {
    U128(Wrap(x.upper - y.upper - (if Wrap(x.lower - y.lower) > x.lower then 1 else 0)), Wrap(x.lower - y.lower))
  }

  lemma AddIsModular(x: U128, y: U128)
    ensures Value(Add(x, y)) == (Value(x) + Value(y)) % B128
  {
    var carry := if x.lower + y.lower >= B64 then 1 else 0;
    assert Wrap(x.lower + y.lower) == x.lower + y.lower - carry * B64;
    ModCombine(x.upper + y.upper + carry, x.lower + y.lower - carry * B64);
  }

  lemma SubIsModular(x: U128, y: U128)
    ensures Value(Sub(x, y)) == (Value(x) - Value(y)) % B128
  {
    var borrow := if x.lower < y.lower then 1 else 0;
    assert Wrap(x.lower - y.lower) == x.lower - y.lower + borrow * B64;
    ModCombine(x.upper - y.upper - borrow, x.lower - y.lower + borrow * B64);
  }

  // --- shifts -----------------------------------------------------------------

  lemma Pow2Byte()
    ensures Pow2(4) == 16 && Pow2(8) == 256
  {
    assert Pow2(4) == 16;
    Pow2Add(4, 4);
  }

  lemma Pow2Half()
    ensures Pow2(16) == 0x1_0000 && Pow2(32) == B32
  {
    hide Pow2;
    Pow2Byte();
    Pow2Add(8, 8);
    Pow2Add(16, 16);
  }

  lemma Pow2Words()
    ensures Pow2(64) == B64 && Pow2(128) == B128
  {
    hide Pow2;
    Pow2Half();
    Pow2Add(32, 32);
    Pow2Add(64, 64);
  }

  /** operator<< */
  function ShiftLeft(x: U128, rhs: U128): U128 {
    var shift := rhs.lower;
    if rhs.upper != 0 || shift >= 128 then ZERO
    else if shift == 64 then U128(x.lower, 0)
    else if shift == 0 then x
    else if shift < 64 then
      U128(Wrap(Wrap(x.upper * Pow2(shift)) + HighPart(x.lower, 64 - shift)), Wrap(x.lower * Pow2(shift)))
    else U128(Wrap(x.lower * Pow2(shift - 64)), 0)
  }

  /** w >> k on a word. */
  function HighPart(w: Word, k: nat): (r: Word)
    ensures r <= w
  {
    DivBound(w, Pow2(k));
    w / Pow2(k)
  }

  lemma DivBound(w: nat, d: nat)
    requires d > 0
    ensures 0 <= w / d <= w
  {
    var q := w / d;
    assert q >= 0 ==> d * q >= q;
  }

  /** operator>> */
  function ShiftRight(x: U128, rhs: U128): U128 {
    var shift := rhs.lower;
    if rhs.upper != 0 || shift >= 128 then ZERO
    else if shift == 64 then U128(0, x.upper)
    else if shift == 0 then x
    else if shift < 64 then
      U128(HighPart(x.upper, shift), Wrap(Wrap(x.upper * Pow2(64 - shift)) + HighPart(x.lower, shift)))
    else U128(0, HighPart(x.upper, shift - 64))
  }

  lemma ModCombine(hi: int, lo: int)
    requires 0 <= lo < B64
    ensures hi % B64 * B64 + lo == (hi * B64 + lo) % B128
  {
    QuotientUnique(hi * B64 + lo, B128, hi / B64, hi % B64 * B64 + lo);
  }

  /** A word times P = 2^s splits at Q = 2^(64-s). */
  lemma WordTimes(w: Word, p: nat, q: nat)
    requires p > 0 && q > 0 && p * q == B64
    ensures w * p == w / q * B64 + w % q * p && 0 <= w % q * p < B64
    ensures (w * p) % B64 == w % q * p
  {
    var h, r := w / q, w % q;
    assert w * p == (q * h + r) * p == h * (p * q) + r * p;
    assert r * p <= (q - 1) * p == q * p - p;
    QuotientUnique(w * p, B64, h, r * p);
  }

  lemma ShiftLeftWords(u: Word, l: Word, p: nat, q: nat)
    requires p > 0 && q > 0 && p * q == B64
    ensures ((u * p) % B64 + l / q) % B64 * B64 + (l * p) % B64 == ((u * B64 + l) * p) % B128
  {
    WordTimes(l, p, q);
    JoinWords(u * p, l * p, l / q, (l * p) % B64);
    assert (u * B64 + l) * p == (u * p) * B64 + l * p;
  }

  lemma JoinWords(up: int, lp: int, c: int, b: int)
    requires lp == c * B64 + b && 0 <= b < B64
    ensures (up % B64 + c) % B64 * B64 + b == (up * B64 + lp) % B128
  {
    assert (up % B64 + c) % B64 == (up + c) % B64;
    ModCombine(up + c, b);
  }

  lemma ShiftRightWords(u: Word, l: Word, p: nat, q: nat)
    requires p > 0 && q > 0 && p * q == B64
    ensures u / p * B64 + ((u * q) % B64 + l / p) % B64 == (u * B64 + l) / p
  {
    WordTimes(u, q, p);
    FitsBelow(u % p, l / p, p, q, l);
    ShiftRightSplit(p, q, u / p, u % p, l / p, l % p);
    QuotientUnique(u * B64 + l, p, u / p * B64 + u % p * q + l / p, l % p);
  }

  lemma FitsBelow(r: nat, k: nat, p: nat, q: nat, l: Word)
    requires p > 0 && q > 0 && p * q == B64 && r < p && k == l / p
    ensures (r * q + k) % B64 == r * q + k
  {
    assert k >= q ==> p * k >= p * q;
    assert r * q <= (p - 1) * q == B64 - q;
  }

  lemma ShiftRightSplit(p: int, q: int, h: int, r: int, k: int, t: int)
    requires p * q == B64
    ensures (p * h + r) * B64 + (p * k + t) == (h * B64 + r * q + k) * p + t
  {
    assert r * B64 == r * q * p;
  }

  /** The shift operators multiply and divide by a power of two. */
  lemma ShiftLeftIsTimes(x: U128, rhs: U128)
    ensures Value(ShiftLeft(x, rhs)) == (Value(x) * Pow2(Value(rhs))) % B128
  {
    hide Value, ShiftLeft, Pow2;
    var s := Value(rhs);
    if s == 0 {
      ShiftLeftZero(x, rhs);
    } else if s < 64 {
      ShiftLeftLow(x, rhs);
    } else if s < 128 {
      ShiftLeftHigh(x, rhs);
    } else {
      ShiftLeftOut(x, rhs);
    }
  }

  lemma ShiftLeftZero(x: U128, rhs: U128)
    requires Value(rhs) == 0
    ensures Value(ShiftLeft(x, rhs)) == (Value(x) * Pow2(Value(rhs))) % B128
  {
  }

  lemma ShiftLeftLow(x: U128, rhs: U128)
    requires 0 < Value(rhs) < 64
    ensures Value(ShiftLeft(x, rhs)) == (Value(x) * Pow2(Value(rhs))) % B128
  {
    hide Pow2;
    var s := Value(rhs);
    Pow2Words();
    Pow2Add(s, 64 - s);
    ShiftLeftWords(x.upper, x.lower, Pow2(s), Pow2(64 - s));
  }

  lemma ShiftLeftHigh(x: U128, rhs: U128)
    requires 64 <= Value(rhs) < 128
    ensures Value(ShiftLeft(x, rhs)) == (Value(x) * Pow2(Value(rhs))) % B128
  {
    hide Pow2;
    var s := Value(rhs);
    Pow2Words();
    Pow2Add(64, s - 64);
    HighWordOut(x.upper, x.lower, Pow2(s - 64));
    Pow2Nothing();
  }

  lemma HighWordOut(u: int, l: int, p: int)
    ensures ((u * B64 + l) * (B64 * p)) % B128 == (l * p) % B64 * B64
  {
    assert (u * B64 + l) * (B64 * p) == (u * p) * B128 + (l * p) * B64;
    var a, b := u * p, l * p;
    QuotientUnique(a * B128 + b * B64, B128, a + b / B64, b % B64 * B64);
  }

  lemma ShiftLeftOut(x: U128, rhs: U128)
    requires Value(rhs) >= 128
    ensures Value(ShiftLeft(x, rhs)) == (Value(x) * Pow2(Value(rhs))) % B128
  {
    var s := Value(rhs);
    assert ShiftLeft(x, rhs) == ZERO;
    hide Pow2, ShiftLeft, Value;
    Pow2Words();
    Pow2Add(128, s - 128);
    MultipleOut(Value(x), Pow2(s - 128));
  }

  lemma MultipleOut(v: int, p: int)
    ensures (v * (B128 * p)) % B128 == 0
  {
    assert v * (B128 * p) == (v * p) * B128;
    QuotientUnique((v * p) * B128, B128, v * p, 0);
  }

  lemma ShiftRightIsDivide(x: U128, rhs: U128)
    ensures Value(ShiftRight(x, rhs)) == Value(x) / Pow2(Value(rhs))
  {
    hide Value, ShiftRight, Pow2;
    var s := Value(rhs);
    if s == 0 {
      ShiftRightZero(x, rhs);
    } else if s < 64 {
      ShiftRightLow(x, rhs);
    } else if s < 128 {
      ShiftRightHigh(x, rhs);
    } else {
      ShiftRightOut(x, rhs);
    }
  }

  lemma ShiftRightZero(x: U128, rhs: U128)
    requires Value(rhs) == 0
    ensures Value(ShiftRight(x, rhs)) == Value(x) / Pow2(Value(rhs))
  {
  }

  lemma ShiftRightLow(x: U128, rhs: U128)
    requires 0 < Value(rhs) < 64
    ensures Value(ShiftRight(x, rhs)) == Value(x) / Pow2(Value(rhs))
  {
    hide Pow2;
    var s := Value(rhs);
    Pow2Words();
    Pow2Add(s, 64 - s);
    ShiftRightWords(x.upper, x.lower, Pow2(s), Pow2(64 - s));
  }

  lemma ShiftRightHigh(x: U128, rhs: U128)
    requires 64 <= Value(rhs) < 128
    ensures Value(ShiftRight(x, rhs)) == Value(x) / Pow2(Value(rhs))
  {
    hide Pow2;
    var s := Value(rhs);
    Pow2Words();
    Pow2Add(64, s - 64);
    DivideTwice(x.upper, x.lower, Pow2(s - 64));
    Pow2Nothing();
  }

  lemma DivideTwice(u: int, l: int, p: int)
    requires 0 <= l < B64 && p > 0
    ensures (u * B64 + l) / (B64 * p) == u / p
  {
    var q, r := u / p, u % p;
    assert u * B64 + l == q * (B64 * p) + (r * B64 + l);
    assert r * B64 + l < B64 * p;
    QuotientUnique(u * B64 + l, B64 * p, q, r * B64 + l);
  }

  lemma ShiftRightOut(x: U128, rhs: U128)
    requires Value(rhs) >= 128
    ensures Value(ShiftRight(x, rhs)) == Value(x) / Pow2(Value(rhs))
  {
    var s, v := Value(rhs), Value(x);
    assert ShiftRight(x, rhs) == ZERO;
    hide Pow2, ShiftRight, Value;
    Pow2Words();
    Pow2Add(128, s - 128);
    assert B128 * Pow2(s - 128) >= B128;
    QuotientUnique(v, Pow2(s), 0, v);
  }
}
