/**
 Fast decimal formatting (lib/util/format.h): the digit count from the position of
 the highest bit, and two digits written at a time.
 */
module FormatInt {
  import opened Numbers
  import opened Decimals

  const MAX_UINT64 := 0xffff_ffff_ffff_ffff

  // --- counting digits ------------------------------------------------------------------

  lemma {:induction false} BitLengthBound(n: nat, k: nat)
    requires n < Pow2(k)
    ensures BitLength(n) <= k
    decreases k
  {
    if n > 0 {
      BitLengthBound(n / 2, k - 1);
    }
  }

  /** POWERS_OF_10_64. */
  function PowersOf10(t: nat): nat
    requires t < 20
  {
    if t == 0 then 0 else Pow10(t)
  }

  function Estimate(bits: nat): nat {
    bits * 1233 / 4096
  }

  lemma {:induction false} Pow10Monotone(j: nat, k: nat)
    requires j <= k
    ensures 0 < Pow10(j) <= Pow10(k)
    decreases k
  {
    if j < k {
      Pow10Monotone(j, k - 1);
    } else if k > 0 {
      Pow10Monotone(k - 1, k - 1);
    }
  }

  /** The estimate is off by less than one digit in either direction. */
  predicate Close(bits: nat, t: nat)
    requires bits > 0
  {
    (t > 0 ==> Pow10(t - 1) <= Pow2(bits - 1)) && Pow2(bits) <= Pow10(t + 1)
  }

  /** All lengths from low to high have the same estimate, and it is close. */
  lemma Group(bits: nat, low: nat, high: nat, t: nat)
    requires 0 < low <= bits <= high
    requires t * 4096 <= low * 1233 && high * 1233 < (t + 1) * 4096
    requires t > 0 ==> Pow10(t - 1) <= Pow2(low - 1)
    requires Pow2(high) <= Pow10(t + 1)
    ensures Estimate(bits) == t && Close(bits, t)
  {
    hide Pow2, Pow10;
    Pow2Monotone(low - 1, bits - 1);
    Pow2Monotone(bits, high);
    QuotientUnique(bits * 1233, 4096, t, bits * 1233 - t * 4096);
  }

  lemma Powers()
    ensures Pow2(0) == 1 && Pow2(3) == 8 && Pow2(6) == 64 && Pow2(9) == 512 && Pow2(13) == 8192 &&
         Pow2(16) == 65536 && Pow2(19) == 524288 && Pow2(23) == 8388608 && Pow2(26) == 67108864 &&
         Pow2(29) == 536870912 && Pow2(33) == 8589934592 && Pow2(36) == 68719476736 &&
         Pow2(39) == 549755813888 && Pow2(43) == 8796093022208 && Pow2(46) == 70368744177664 &&
         Pow2(49) == 562949953421312 && Pow2(53) == 9007199254740992 && Pow2(56) == 72057594037927936 &&
         Pow2(59) == 576460752303423488 && Pow2(63) == 9223372036854775808 &&
         Pow2(64) == 18446744073709551616
    ensures Pow10(0) == 1 && Pow10(1) == 10 && Pow10(2) == 100 && Pow10(3) == 1000 && Pow10(4) == 10000 &&
         Pow10(5) == 100000 && Pow10(6) == 1000000 && Pow10(7) == 10000000 && Pow10(8) == 100000000 &&
         Pow10(9) == 1000000000 && Pow10(10) == 10000000000 && Pow10(11) == 100000000000 &&
         Pow10(12) == 1000000000000 && Pow10(13) == 10000000000000 && Pow10(14) == 100000000000000 &&
         Pow10(15) == 1000000000000000 && Pow10(16) == 10000000000000000 && Pow10(17) == 100000000000000000 &&
         Pow10(18) == 1000000000000000000 && Pow10(19) == 10000000000000000000 &&
         Pow10(20) == 100000000000000000000
  {
  }

  lemma EstimateShort(bits: nat)
    requires 1 <= bits <= 33
    ensures Estimate(bits) < 20 && Close(bits, Estimate(bits))
  {
    hide Close, Estimate, Pow2, Pow10;
    Powers();
    if bits <= 3 {
      Group(bits, 1, 3, 0);
    } else if bits <= 6 {
      Group(bits, 4, 6, 1);
    } else if bits <= 9 {
      Group(bits, 7, 9, 2);
    } else if bits <= 13 {
      Group(bits, 10, 13, 3);
    } else if bits <= 16 {
      Group(bits, 14, 16, 4);
    } else if bits <= 19 {
      Group(bits, 17, 19, 5);
    } else if bits <= 23 {
      Group(bits, 20, 23, 6);
    } else if bits <= 26 {
      Group(bits, 24, 26, 7);
    } else if bits <= 29 {
      Group(bits, 27, 29, 8);
    } else {
      Group(bits, 30, 33, 9);
    }
  }

  lemma EstimateLong(bits: nat)
    requires 34 <= bits <= 64
    ensures Estimate(bits) < 20 && Close(bits, Estimate(bits))
  {
    hide Close, Estimate, Pow2, Pow10;
    Powers();
    if bits <= 36 {
      Group(bits, 34, 36, 10);
    } else if bits <= 39 {
      Group(bits, 37, 39, 11);
    } else if bits <= 43 {
      Group(bits, 40, 43, 12);
    } else if bits <= 46 {
      Group(bits, 44, 46, 13);
    } else if bits <= 49 {
      Group(bits, 47, 49, 14);
    } else if bits <= 53 {
      Group(bits, 50, 53, 15);
    } else if bits <= 56 {
      Group(bits, 54, 56, 16);
    } else if bits <= 59 {
      Group(bits, 57, 59, 17);
    } else if bits <= 63 {
      Group(bits, 60, 63, 18);
    } else {
      Group(bits, 64, 64, 19);
    }
  }

  lemma EstimateIsClose(bits: nat)
    requires 1 <= bits <= 64
    ensures Estimate(bits) < 20 && Close(bits, Estimate(bits))
  {
    hide *;
    if bits <= 33 {
      EstimateShort(bits);
    } else {
      EstimateLong(bits);
    }
  }

  /** A number lies between the powers of ten that its length says. */
  lemma {:induction false} LengthIs(n: nat, k: nat)
    requires k > 0 && n < Pow10(k) && (k > 1 ==> Pow10(k - 1) <= n)
    ensures |Decimal(n)| == k
    decreases k
  {
    if k == 1 {
      assert Pow10(1) == 10 * Pow10(0);
    } else {
      Pow10Monotone(1, k - 1);
      assert Pow10(1) == 10 * Pow10(0);
      LengthIs(n / 10, k - 1);
    }
  }

  /** count_digits: the length of the decimal numeral, for every 64-bit number. */
  function CountDigits(n: nat): (count: nat)
    requires n <= MAX_UINT64
    ensures count == |Decimal(n)|
  {
    var odd := if n % 2 == 0 then n + 1 else n;  // n | 1
    CountIsLength(n);
    var t := Estimate(BitLength(odd));
    t - (if n < PowersOf10(t) then 1 else 0) + 1
  }

  lemma CountIsLength(n: nat)
    requires n <= MAX_UINT64
    ensures var odd := if n % 2 == 0 then n + 1 else n;
            var t := Estimate(BitLength(odd));
            t < 20 && (n < PowersOf10(t) ==> t > 0) && |Decimal(n)| == t - (if n < PowersOf10(t) then 1 else 0) + 1
  {
    hide Decimal, Estimate, Pow10, Pow2, BitLength;
    var odd := if n % 2 == 0 then n + 1 else n;
    BitLengthBounds(odd);
    LargestPower();
    BitLengthBound(odd, 64);
    var bits := BitLength(odd);
    EstimateIsClose(bits);
    var t := Estimate(bits);
    OddKeepsLength(n, bits);
    SmallPowers(bits);
    LengthIs(n, if n < PowersOf10(t) then t else t + 1);
  }

  lemma LargestPower()
    ensures Pow2(64) == MAX_UINT64 + 1
  {
    Powers();
  }

  lemma SmallPowers(bits: nat)
    ensures Pow10(0) == 1 && Pow10(1) == 10
    ensures Estimate(bits) > 0 ==> bits > 1
  {
  }

  /** Setting the lowest bit moves n past no power of two, and past no power of ten but one. */
  lemma OddKeepsLength(n: nat, bits: nat)
    requires bits > 0
    requires var odd := if n % 2 == 0 then n + 1 else n; Pow2(bits - 1) <= odd < Pow2(bits)
    ensures n < Pow2(bits) && (bits > 1 ==> Pow2(bits - 1) <= n) && (bits == 1 ==> n <= 1)
  {
    if bits > 1 {
      Pow2Step(bits - 2);
    } else {
      assert Pow2(1) == 2;
    }
  }

  /** The fallback that divides by 10000 in a loop. */
  method CountDigitsByDivision(number: nat) returns (count: nat)
    ensures count == |Decimal(number)|
  {
    hide Decimal, Pow10;
    var n := number;
    count := 1;
    while true
      invariant count - 1 + |Decimal(n)| == |Decimal(number)|
      decreases n
    {
      Powers();
      if n < 10 { LengthIs(n, 1); return count; }
      if n < 100 { LengthIs(n, 2); return count + 1; }
      if n < 1000 { LengthIs(n, 3); return count + 2; }
      if n < 10000 { LengthIs(n, 4); return count + 3; }
      FourDigits(n);
      n := n / 10000;
      count := count + 4;
    }
  }

  lemma FourDigits(n: nat)
    requires n >= 10000
    ensures |Decimal(n)| == |Decimal(n / 10000)| + 4
  {
    hide Decimal;
    DecimalSplit(n);
    DecimalSplit(n / 10);
    DecimalSplit(n / 100);
    DecimalSplit(n / 1000);
  }

  // --- writing digits --------------------------------------------------------------------

  /** The table DIGITS: the two digits of each number below 100. */
  function Digits(index: nat): char
    requires index < 200
  {
    if index % 2 == 0 then Digit(index / 2 / 10) else Digit(index / 2 % 10)
  }

  lemma DigitPair(value: nat)
    requires value < 100
    ensures Digits(value * 2) == Digit(value / 10) && Digits(value * 2 + 1) == Digit(value % 10)
  {
    assert value * 2 / 2 == value && (value * 2 + 1) / 2 == value;
  }

  lemma TwoDigits(value: nat)
    requires value >= 10
    ensures value >= 100 ==> Decimal(value) == Decimal(value / 100) + [Digits(value % 100 * 2), Digits(value % 100 * 2 + 1)]
    ensures value < 100 ==> Decimal(value) == [Digits(value * 2), Digits(value * 2 + 1)]
  {
    hide Decimal, Digits, Digit;
    DecimalSplit(value);
    DecimalSplit(value / 10);
    DigitPair(value % 100);
    Hundreds(value);
  }

  lemma Hundreds(value: nat)
    ensures value / 10 / 10 == value / 100 && value / 10 % 10 == value % 100 / 10 && value % 10 == value % 100 % 10
    ensures value < 100 ==> value % 100 == value
  {
  }

  /** format_decimal: fills exactly the counted cells with the numeral. */
  method FormatDecimal(buffer: array<char>, number: nat, numDigits: nat)
    requires numDigits == |Decimal(number)| <= buffer.Length
    modifies buffer
    ensures buffer[..numDigits] == Decimal(number)
    ensures buffer[numDigits..] == old(buffer[numDigits..])
  {
    hide Decimal, Digits;
    var last := numDigits - 1;
    var value := number;
    assert Decimal(value) + buffer[last + 1..numDigits] == Decimal(number);
    while value >= 100
      invariant -1 <= last < numDigits && last + 1 == |Decimal(value)|
      invariant Decimal(value) + buffer[last + 1..numDigits] == Decimal(number)
      invariant buffer[numDigits..] == old(buffer[numDigits..])
      decreases value
    {
      TwoDigits(value);
      var index := value % 100 * 2;
      ghost var tail := buffer[last + 1..numDigits];
      ghost var whole := Decimal(value);
      value := value / 100;
      buffer[last] := Digits(index + 1);
      buffer[last - 1] := Digits(index);
      last := last - 2;
      assert buffer[last + 1..numDigits] == [Digits(index), Digits(index + 1)] + tail;
      assert Decimal(value) + ([Digits(index), Digits(index + 1)] + tail) == whole + tail;
    }
    Short(value);
    if value < 10 {
      buffer[0] := Digit(value);
      assert buffer[..numDigits] == [Digit(value)] + buffer[1..numDigits];
      return;
    }
    TwoDigits(value);
    var index := value * 2;
    ghost var tail := buffer[2..numDigits];
    buffer[1] := Digits(index + 1);
    buffer[0] := Digits(index);
    assert buffer[..numDigits] == [Digits(index), Digits(index + 1)] + tail;
  }

  lemma Short(value: nat)
    requires value < 100
    ensures value < 10 ==> Decimal(value) == [Digit(value)]
    ensures value >= 10 ==> |Decimal(value)| == 2
  {
    DecimalSplit(value);
  }

  const BUFFER_SIZE := 22  // digits10 of a 64-bit number, 19, and 3

  /** FormatInt's own loop: the numeral ends just before the last cell. */
  method FormatBackwards(buffer: array<char>, number: nat) returns (start: nat)
    requires buffer.Length == BUFFER_SIZE && number <= MAX_UINT64
    modifies buffer
    ensures start + |Decimal(number)| == BUFFER_SIZE - 1
    ensures buffer[start..BUFFER_SIZE - 1] == Decimal(number)
  {
    hide Decimal, Digits;
    start := BUFFER_SIZE - 1;
    var value := number;
    AtMost20(number);
    while value >= 100
      invariant start < BUFFER_SIZE && |Decimal(value)| <= start
      invariant Decimal(value) + buffer[start..BUFFER_SIZE - 1] == Decimal(number)
      decreases value
    {
      TwoDigits(value);
      var index := value % 100 * 2;
      ghost var tail, whole := buffer[start..BUFFER_SIZE - 1], Decimal(value);
      value := value / 100;
      buffer[start - 1] := Digits(index + 1);
      buffer[start - 2] := Digits(index);
      start := start - 2;
      assert buffer[start..BUFFER_SIZE - 1] == [Digits(index), Digits(index + 1)] + tail;
      assert Decimal(value) + ([Digits(index), Digits(index + 1)] + tail) == whole + tail;
    }
    Short(value);
    ghost var tail := buffer[start..BUFFER_SIZE - 1];
    if value < 10 {
      start := start - 1;
      buffer[start] := Digit(value);
      assert buffer[start..BUFFER_SIZE - 1] == [Digit(value)] + tail;
      return;
    }
    TwoDigits(value);
    var index := value * 2;
    buffer[start - 1] := Digits(index + 1);
    buffer[start - 2] := Digits(index);
    start := start - 2;
    assert buffer[start..BUFFER_SIZE - 1] == [Digits(index), Digits(index + 1)] + tail;
  }

  lemma AtMost20(n: nat)
    requires n <= MAX_UINT64
    ensures |Decimal(n)| <= 20 && (n <= 0x8000_0000_0000_0000 ==> |Decimal(n)| <= 19)
  {
    hide Decimal, Pow10;
    Powers();
    DecimalLength(n, 20);
    if n <= 0x8000_0000_0000_0000 {
      DecimalLength(n, 19);
    }
  }

  /** FormatSigned: sign and digits fit the buffer, for every 64-bit integer and the smallest one too. */
  method FormatSigned(value: int) returns (text: string)
    requires -0x8000_0000_0000_0000 <= value < 0x8000_0000_0000_0000
    ensures text == (if value < 0 then "-" + Decimal(-value) else Decimal(value))
  {
    hide Decimal;
    var buffer := new char[BUFFER_SIZE];
    var absValue := value % 0x1_0000_0000_0000_0000;
    var negative := value < 0;
    if negative {
      absValue := (0 - absValue) % 0x1_0000_0000_0000_0000;
    }
    assert absValue == if value < 0 then -value else value;
    AtMost20(absValue);
    var start := FormatBackwards(buffer, absValue);
    if negative {
      start := start - 1;
      buffer[start] := '-';
      assert buffer[start..BUFFER_SIZE - 1] == ['-'] + buffer[start + 1..BUFFER_SIZE - 1];
    }
    text := buffer[start..BUFFER_SIZE - 1];
  }
}
