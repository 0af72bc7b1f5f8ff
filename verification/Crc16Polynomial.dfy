/**
 The CRC of lib/util/crc16.cpp is a remainder of polynomials over GF(2).

 A polynomial is the set of the exponents of its terms, so that addition is
 symmetric difference.
 */
module Crc16Polynomial {
  import opened Crc16Register
  import opened Crc16

  type Poly = set<nat>

  /** The coefficient of x^e. */
  predicate Has(p: Poly, e: int) {
    e >= 0 && e in p
  }

  function Plus(p: Poly, q: Poly): Poly {
    (p - q) + (q - p)
  }

  lemma PlusAt(p: Poly, q: Poly, e: int)
    ensures Has(Plus(p, q), e) <==> Has(p, e) != Has(q, e)
  {
  }

  /** p times x^k. */
  function Shifted(p: Poly, k: nat): Poly {
    set e | e in p :: e + k
  }

  lemma ShiftedAt(p: Poly, k: nat, e: int)
    ensures Has(Shifted(p, k), e) <==> Has(p, e - k)
  {
    if Has(p, e - k) {
      assert (e - k) + k in Shifted(p, k);
    }
  }

  /** q times x^16 + x^12 + x^5 + 1. */
  function TimesG(q: Poly): Poly {
    Plus(Plus(Shifted(q, 16), Shifted(q, 12)), Plus(Shifted(q, 5), q))
  }

  lemma TimesGAt(q: Poly, e: int)
    ensures Has(TimesG(q), e) <==> (Has(q, e - 16) != Has(q, e - 12)) != (Has(q, e - 5) != Has(q, e))
  {
    hide Has, Plus, Shifted;
    PlusAt(Plus(Shifted(q, 16), Shifted(q, 12)), Plus(Shifted(q, 5), q), e);
    PlusAt(Shifted(q, 16), Shifted(q, 12), e);
    PlusAt(Shifted(q, 5), q, e);
    ShiftedAt(q, 16, e);
    ShiftedAt(q, 12, e);
    ShiftedAt(q, 5, e);
  }

  lemma SamePoly(p: Poly, q: Poly)
    requires forall e: int :: Has(p, e) <==> Has(q, e)
    ensures p == q
  {
    forall e: nat ensures e in p <==> e in q {
      assert Has(p, e) <==> Has(q, e);
    }
  }

  ghost predicate Below16(p: Poly) {
    forall e | e in p :: e < 16
  }

  /** m = q * G + r with r of degree below 16. */
  ghost predicate Remainder(m: Poly, q: Poly, r: Poly) {
    m == Plus(TimesG(q), r) && Below16(r)
  }

  /** A product with G that is not zero has a term of degree 16 or more. */
  lemma MultipleOfG(q: Poly) returns (e: int)
    requires q != {}
    ensures e >= 16 && Has(TimesG(q), e)
  {
    hide TimesG;
    var top := Largest(q);
    TimesGAt(q, top + 16);
    e := top + 16;
  }

  lemma {:induction false} Largest(q: Poly) returns (top: nat)
    requires q != {}
    ensures top in q && forall e | e in q :: e <= top
    decreases |q|
  {
    var x :| x in q;
    var rest := q - {x};
    top := x;
    if rest != {} {
      var y := Largest(rest);
      top := if x > y then x else y;
    }
    assert forall e | e in q :: e == x || e in rest;
  }

  lemma TimesGPlus(p: Poly, q: Poly)
    ensures TimesG(Plus(p, q)) == Plus(TimesG(p), TimesG(q))
  {
    hide TimesG, Plus, Has;
    forall e: int ensures Has(TimesG(Plus(p, q)), e) <==> Has(Plus(TimesG(p), TimesG(q)), e) {
      TimesGAt(Plus(p, q), e);
      TimesGAt(p, e);
      TimesGAt(q, e);
      PlusAt(TimesG(p), TimesG(q), e);
      PlusAt(p, q, e - 16);
      PlusAt(p, q, e - 12);
      PlusAt(p, q, e - 5);
      PlusAt(p, q, e);
    }
    SamePoly(TimesG(Plus(p, q)), Plus(TimesG(p), TimesG(q)));
  }

  /** The remainder is determined by the polynomial. */
  lemma RemainderUnique(m: Poly, q: Poly, r: Poly, q': Poly, r': Poly)
    requires Remainder(m, q, r) && Remainder(m, q', r')
    ensures q == q' && r == r'
  {
    hide TimesG, Plus;
    var d := Plus(q, q');
    if d != {} {
      var e := MultipleOfG(d);
      TimesGPlus(q, q');
      PlusAt(TimesG(q), TimesG(q'), e);
      PlusAt(TimesG(q), r, e);
      PlusAt(TimesG(q'), r', e);
    } else {
      PlusNothing(q, q');
      forall e: int ensures Has(r, e) <==> Has(r', e) {
        PlusAt(TimesG(q), r, e);
        PlusAt(TimesG(q), r', e);
      }
      SamePoly(r, r');
    }
  }

  lemma PlusNothing(p: Poly, q: Poly)
    requires Plus(p, q) == {}
    ensures p == q
  {
    assert p - q == {} && q - p == {};
    forall e: nat ensures e in p <==> e in q {
      assert e !in p - q && e !in q - p;
    }
  }

  // --- the register as a polynomial ------------------------------------------------

  function Mask(i: nat): bv16 {
    match i
    case 0 => 0x0001 case 1 => 0x0002 case 2 => 0x0004 case 3 => 0x0008
    case 4 => 0x0010 case 5 => 0x0020 case 6 => 0x0040 case 7 => 0x0080
    case 8 => 0x0100 case 9 => 0x0200 case 10 => 0x0400 case 11 => 0x0800
    case 12 => 0x1000 case 13 => 0x2000 case 14 => 0x4000 case 15 => 0x8000
    case _ => 0
  }

  /** Bit i of the register. */
  predicate Coefficient(c: bv16, i: nat) {
    Meets(c, Mask(i))
  }

  predicate Meets(c: bv16, m: bv16) {
    c & m != 0
  }

  function Reg(c: bv16): Poly {
    set i | 0 <= i < 16 && Coefficient(c, i)
  }

  lemma RegAt(c: bv16, e: int)
    ensures Has(Reg(c), e) <==> 0 <= e < 16 && Coefficient(c, e)
  {
    hide Coefficient;
  }

  /** A mask has one bit or none. */
  predicate OneBit(m: bv16) {
    m & (m - 1) == 0
  }

  lemma MaskIsBit(i: nat)
    ensures OneBit(Mask(i))
  {
  }

  lemma MaskHalves(i: nat)
    requires i < 16
    ensures Halve(Mask(i)) == if i == 0 then 0 else Mask(i - 1)
  {
  }

  lemma AllOrNothing(x: bv16, m: bv16)
    requires OneBit(m)
    ensures x & m == 0 || x & m == m
  {
  }

  lemma MaskDistributes(c: bv16, d: bv16, m: bv16)
    ensures Xor(c, d) & m == Xor(c & m, d & m)
  {
  }

  lemma XorSmall(m: bv16)
    ensures Xor(m, m) == 0 && Xor(m, 0) == m && Xor(0, m) == m && Xor(0, 0) == 0
  {
  }

  lemma CoefficientXor(c: bv16, d: bv16, i: nat)
    ensures Coefficient(Xor(c, d), i) <==> Coefficient(c, i) != Coefficient(d, i)
  {
    hide Mask, Xor, OneBit;
    var m := Mask(i);
    MaskIsBit(i);
    AllOrNothing(c, m);
    AllOrNothing(d, m);
    MaskDistributes(c, d, m);
    XorSmall(m);
  }

  lemma DoubleMask(c: bv16, m: bv16)
    ensures Meets(Double(c), m) <==> Meets(c, Halve(m))
    ensures !Meets(c, 0)
  {
  }

  lemma CoefficientDouble(c: bv16, i: nat)
    requires i < 16
    ensures Coefficient(Double(c), i) <==> i > 0 && Coefficient(c, i - 1)
  {
    hide Mask, Double, Meets, Halve;
    DoubleMask(c, Mask(i));
    MaskHalves(i);
  }

  lemma CoefficientConstants(c: bv16, i: nat)
    requires i < 16
    ensures Coefficient(0x8000, i) <==> i == 15
    ensures Coefficient(0x1021, i) <==> i == 12 || i == 5 || i == 0
    ensures Coefficient(c, 15) <==> Top(c)
  {
  }

  // --- feeding a message bit by bit ----------------------------------------------------

  /** One message bit enters at the top of the register. */
  function BitIn(c: bv16, b: bool): bv16 {
    Shift1(if b then Xor(c, 0x8000) else c)
  }

  /** Coefficients after one bit: all move up, and the polynomial is subtracted if a bit falls out. */
  lemma CoefficientBitIn(c: bv16, b: bool, i: nat)
    requires i < 16
    ensures Coefficient(BitIn(c, b), i) <==>
              (i > 0 && Coefficient(c, i - 1)) != ((Top(c) != b) && (i == 12 || i == 5 || i == 0))
  {
    hide Coefficient, Xor, Double, Top;
    var d := if b then Xor(c, 0x8000) else c;
    CoefficientConstants(d, i);
    CoefficientConstants(c, 15);
    CoefficientXor(c, 0x8000, 15);
    CoefficientXor(Double(d), 0x1021, i);
    CoefficientDouble(d, i);
    if i > 0 {
      CoefficientXor(c, 0x8000, i - 1);
      CoefficientConstants(c, i - 1);
    }
  }

  function Term(b: bool, e: nat): Poly {
    if b then {e} else {}
  }

  lemma TermAt(b: bool, k: nat, e: int)
    ensures Has(Term(b, k), e) <==> b && e == k
  {
  }

  /** x times the register plus b x^16 is the new register plus G if a bit falls out. */
  lemma RegBitIn(c: bv16, b: bool, e: int)
    ensures Has(Reg(c), e - 1) != Has(Term(b, 16), e)
       <==> (Has(Reg(BitIn(c, b)), e) != ((Top(c) != b) && (e == 16 || e == 12 || e == 5 || e == 0)))
  {
    hide Has, Reg, Coefficient, BitIn, Top, Term;
    RegAt(c, e - 1);
    RegAt(BitIn(c, b), e);
    TermAt(b, 16, e);
    CoefficientConstants(c, 15);
    if 0 <= e < 16 {
      CoefficientBitIn(c, b, e);
    }
  }

  /** The message so far, and the quotient and register that go with it. */
  ghost predicate Divided(m: Poly, q: Poly, c: bv16) {
    Remainder(Shifted(m, 16), q, Reg(c))
  }

  lemma RegBelow16(c: bv16)
    ensures Below16(Reg(c))
  {
    hide Coefficient;
  }

  lemma DividedAt(m: Poly, q: Poly, c: bv16, e: int)
    requires Divided(m, q, c)
    ensures Has(m, e - 16) <==> ((Has(q, e - 16) != Has(q, e - 12)) != (Has(q, e - 5) != Has(q, e))) != Has(Reg(c), e)
  {
    hide Has, Plus, TimesG, Shifted, Reg;
    ShiftedAt(m, 16, e);
    PlusAt(TimesG(q), Reg(c), e);
    TimesGAt(q, e);
  }

  /** x m + b. */
  function Longer(m: Poly, b: bool): Poly {
    Plus(Shifted(m, 1), Term(b, 0))
  }

  lemma LongerAt(m: Poly, b: bool, e: int)
    ensures Has(Longer(m, b), e) <==> Has(m, e - 1) != (b && e == 0)
  {
    hide Has, Plus, Shifted, Term;
    PlusAt(Shifted(m, 1), Term(b, 0), e);
    ShiftedAt(m, 1, e);
    TermAt(b, 0, e);
  }

  /** One more bit: the quotient grows by the bit that falls out of the register. */
  lemma DividedBit(m: Poly, q: Poly, c: bv16, b: bool)
    requires Divided(m, q, c)
    ensures Divided(Longer(m, b), Longer(q, Top(c) != b), BitIn(c, b))
  {
    hide Has, Reg, Divided, Longer, BitIn, Top, Term, Plus, TimesG, Shifted;
    var m', q', c', t := Longer(m, b), Longer(q, Top(c) != b), BitIn(c, b), Top(c) != b;
    forall e: int ensures Has(Shifted(m', 16), e) <==> Has(Plus(TimesG(q'), Reg(c')), e) {
      ShiftedAt(m', 16, e);
      PlusAt(TimesG(q'), Reg(c'), e);
      TimesGAt(q', e);
      LongerAt(m, b, e - 16);
      LongerAt(q, t, e - 16);
      LongerAt(q, t, e - 12);
      LongerAt(q, t, e - 5);
      LongerAt(q, t, e);
      DividedAt(m, q, c, e - 1);
      RegBitIn(c, b, e);
      TermAt(b, 16, e);
    }
    SamePoly(Shifted(m', 16), Plus(TimesG(q'), Reg(c')));
    RegBelow16(c');
    assert Remainder(Shifted(m', 16), q', Reg(c'));
    DividedIs(m', q', c');
  }

  lemma DividedIs(m: Poly, q: Poly, c: bv16)
    requires Remainder(Shifted(m, 16), q, Reg(c))
    ensures Divided(m, q, c)
  {
  }

  // --- bytes and messages ----------------------------------------------------------------

  predicate TopOfByte(y: bv8) { y & 0x80 != 0 }
  function DoubleByte(y: bv8): bv8 { y << 1 }
  function WithoutTop(y: bv8): bv8 { y & 0x7F }

  /** The first n bits of y, highest first, enter the register. */
  function FeedBits(c: bv16, y: bv8, n: nat): bv16
    decreases n
  {
    if n == 0 then c else FeedBits(BitIn(c, TopOfByte(y)), DoubleByte(y), n - 1)
  }

  function AppendBits(m: Poly, y: bv8, n: nat): Poly
    decreases n
  {
    if n == 0 then m else AppendBits(Longer(m, TopOfByte(y)), DoubleByte(y), n - 1)
  }

  lemma {:induction false} DividedBits(m: Poly, q: Poly, c: bv16, y: bv8, n: nat) returns (q': Poly)
    requires Divided(m, q, c)
    ensures Divided(AppendBits(m, y, n), q', FeedBits(c, y, n))
    decreases n
  {
    hide Divided, Longer, BitIn, Top, TopOfByte, DoubleByte;
    if n == 0 {
      q' := q;
    } else {
      DividedBit(m, q, c, TopOfByte(y));
      q' := DividedBits(Longer(m, TopOfByte(y)), Longer(q, Top(c) != TopOfByte(y)), BitIn(c, TopOfByte(y)), DoubleByte(y), n - 1);
    }
  }

  function ShiftTimes(c: bv16, n: nat): bv16
    decreases n
  {
    if n == 0 then c else ShiftTimes(Shift1(c), n - 1)
  }

  function DoubleTimes(y: bv8, n: nat): bv8
    decreases n
  {
    if n == 0 then y else DoubleTimes(DoubleByte(y), n - 1)
  }

  lemma ShiftEight(c: bv16)
    ensures ShiftTimes(c, 8) == Shift8(c)
  {
    hide Shift1;
    var c2 := Shift1(Shift1(c));
    var c4 := Shift1(Shift1(c2));
    var c6 := Shift1(Shift1(c4));
    assert ShiftTimes(c6, 2) == Shift1(Shift1(c6));
    assert ShiftTimes(c4, 4) == ShiftTimes(c6, 2);
    assert ShiftTimes(c2, 6) == ShiftTimes(c4, 4);
    assert ShiftTimes(c, 8) == ShiftTimes(c2, 6);
  }

  lemma DoubleEight(y: bv8)
    ensures DoubleTimes(y, 8) == 0
  {
    var y2 := DoubleByte(DoubleByte(y));
    var y4 := DoubleByte(DoubleByte(y2));
    var y6 := DoubleByte(DoubleByte(y4));
    assert DoubleByte(DoubleByte(y6)) == 0;
    hide DoubleByte;
    assert DoubleTimes(y6, 2) == DoubleByte(DoubleByte(y6));
    assert DoubleTimes(y4, 4) == DoubleTimes(y6, 2);
    assert DoubleTimes(y2, 6) == DoubleTimes(y4, 4);
    assert DoubleTimes(y, 8) == DoubleTimes(y2, 6);
  }

  lemma UpperSplit(y: bv8)
    ensures Upper(y) == Xor(if TopOfByte(y) then 0x8000 else 0, Upper(WithoutTop(y)))
  {
  }

  lemma ShiftWithoutTop(y: bv8)
    ensures Shift1(Upper(WithoutTop(y))) == Upper(DoubleByte(y))
  {
  }

  lemma XorZero(c: bv16)
    ensures Xor(c, 0) == c
  {
  }

  /** A byte waiting in the upper half of the register enters with its top bit. */
  lemma ShiftFeeds(c: bv16, y: bv8)
    ensures Shift1(Xor(c, Upper(y))) == Xor(BitIn(c, TopOfByte(y)), Upper(DoubleByte(y)))
  {
    hide Shift1, Xor, Upper, TopOfByte, DoubleByte, WithoutTop;
    UpperSplit(y);
    var t: bv16 := if TopOfByte(y) then 0x8000 else 0;
    XorMoves(c, t, Upper(WithoutTop(y)));
    Shift1Linear(Xor(c, t), Upper(WithoutTop(y)));
    ShiftWithoutTop(y);
    XorZero(c);
  }

  lemma {:induction false} ShiftFeedsAll(c: bv16, y: bv8, n: nat)
    ensures ShiftTimes(Xor(c, Upper(y)), n) == Xor(FeedBits(c, y, n), Upper(DoubleTimes(y, n)))
    decreases n
  {
    hide Shift1, Xor, Upper, TopOfByte, DoubleByte, BitIn;
    if n > 0 {
      ShiftFeeds(c, y);
      ShiftFeedsAll(BitIn(c, TopOfByte(y)), DoubleByte(y), n - 1);
    }
  }

  lemma UpperZero()
    ensures Upper(0) == 0
  {
  }

  /** The table step feeds the eight bits of its byte. */
  lemma StepFeeds(c: bv16, y: bv8)
    ensures Step(c, y) == FeedBits(c, y, 8)
  {
    hide Step, Shift8, Xor, Upper, FeedBits, ShiftTimes, DoubleTimes;
    StepIsBits(c, y);
    ShiftEight(Xor(c, Upper(y)));
    ShiftFeedsAll(c, y, 8);
    DoubleEight(y);
    UpperZero();
    XorZero(FeedBits(c, y, 8));
  }

  /** The message as a polynomial, after the polynomial m: highest bit of the first byte first. */
  function MessagePoly(m: Poly, message: seq<bv8>): Poly
    decreases |message|
  {
    if message == [] then m else MessagePoly(AppendBits(m, message[0], 8), message[1..])
  }

  lemma {:induction false} DividedMessage(m: Poly, q: Poly, c: bv16, message: seq<bv8>) returns (q': Poly)
    requires Divided(m, q, c)
    ensures Divided(MessagePoly(m, message), q', From(c, message))
    decreases |message|
  {
    hide Divided, Step, FeedBits, AppendBits;
    if message == [] {
      q' := q;
    } else {
      var b := message[0];
      var q1 := DividedBits(m, q, c, b, 8);
      StepFeeds(c, b);
      q' := DividedMessage(AppendBits(m, b, 8), q1, Step(c, b), message[1..]);
    }
  }

  lemma NothingDivided()
    ensures Divided({}, {}, 0)
  {
    forall e: int ensures !Has(Reg(0), e) { RegAt(0, e); }
    SamePoly(Reg(0), {});
    RegBelow16(0);
    assert Shifted({}, 16) == {};
    assert TimesG({}) == {};
  }

  /** crc16 is the remainder of the message times x^16 modulo x^16 + x^12 + x^5 + 1, for any length. */
  lemma CrcIsRemainder(message: seq<bv8>)
    ensures exists q :: Remainder(Shifted(MessagePoly({}, message), 16), q, Reg(Crc(message)))
    ensures forall q, r | Remainder(Shifted(MessagePoly({}, message), 16), q, r) :: r == Reg(Crc(message))
  {
    hide Remainder, Reg, Shifted, MessagePoly, From;
    NothingDivided();
    var q0 := DividedMessage({}, {}, 0, message);
    var m := Shifted(MessagePoly({}, message), 16);
    forall q, r | Remainder(m, q, r) ensures r == Reg(Crc(message)) {
      RemainderUnique(m, q, r, q0, Reg(Crc(message)));
    }
  }
}
