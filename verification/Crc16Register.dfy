/**
 The table-driven CRC of lib/util/crc16.cpp: XMODEM, polynomial
 x^16 + x^12 + x^5 + 1, initial value 0, nothing reflected.
 This module holds the 16-bit register and its table.
 */
module Crc16Register {

  /** One entry of a row of sixteen. */
  function Pick(i: bv8, c0: bv16, c1: bv16, c2: bv16, c3: bv16, c4: bv16, c5: bv16, c6: bv16, c7: bv16,
                c8: bv16, c9: bv16, cA: bv16, cB: bv16, cC: bv16, cD: bv16, cE: bv16, cF: bv16): bv16
  {
    if i == 0 then c0 else if i == 1 then c1 else if i == 2 then c2 else if i == 3 then c3
    else if i == 4 then c4 else if i == 5 then c5 else if i == 6 then c6 else if i == 7 then c7
    else if i == 8 then c8 else if i == 9 then c9 else if i == 10 then cA else if i == 11 then cB
    else if i == 12 then cC else if i == 13 then cD else if i == 14 then cE else cF
  }

  /** crc16tab, sixteen entries to a row. */
  function Table(i: bv8): bv16 {
    var row, col := i >> 4, i & 0xF;
    if row == 0 then 
      Pick(col, 0x0000, 0x1021, 0x2042, 0x3063, 0x4084, 0x50a5, 0x60c6, 0x70e7,
           0x8108, 0x9129, 0xa14a, 0xb16b, 0xc18c, 0xd1ad, 0xe1ce, 0xf1ef)
    else if row == 1 then 
      Pick(col, 0x1231, 0x0210, 0x3273, 0x2252, 0x52b5, 0x4294, 0x72f7, 0x62d6,
           0x9339, 0x8318, 0xb37b, 0xa35a, 0xd3bd, 0xc39c, 0xf3ff, 0xe3de)
    else if row == 2 then 
      Pick(col, 0x2462, 0x3443, 0x0420, 0x1401, 0x64e6, 0x74c7, 0x44a4, 0x5485,
           0xa56a, 0xb54b, 0x8528, 0x9509, 0xe5ee, 0xf5cf, 0xc5ac, 0xd58d)
    else if row == 3 then 
      Pick(col, 0x3653, 0x2672, 0x1611, 0x0630, 0x76d7, 0x66f6, 0x5695, 0x46b4,
           0xb75b, 0xa77a, 0x9719, 0x8738, 0xf7df, 0xe7fe, 0xd79d, 0xc7bc)
    else if row == 4 then 
      Pick(col, 0x48c4, 0x58e5, 0x6886, 0x78a7, 0x0840, 0x1861, 0x2802, 0x3823,
           0xc9cc, 0xd9ed, 0xe98e, 0xf9af, 0x8948, 0x9969, 0xa90a, 0xb92b)
    else if row == 5 then 
      Pick(col, 0x5af5, 0x4ad4, 0x7ab7, 0x6a96, 0x1a71, 0x0a50, 0x3a33, 0x2a12,
           0xdbfd, 0xcbdc, 0xfbbf, 0xeb9e, 0x9b79, 0x8b58, 0xbb3b, 0xab1a)
    else if row == 6 then 
      Pick(col, 0x6ca6, 0x7c87, 0x4ce4, 0x5cc5, 0x2c22, 0x3c03, 0x0c60, 0x1c41,
           0xedae, 0xfd8f, 0xcdec, 0xddcd, 0xad2a, 0xbd0b, 0x8d68, 0x9d49)
    else if row == 7 then 
      Pick(col, 0x7e97, 0x6eb6, 0x5ed5, 0x4ef4, 0x3e13, 0x2e32, 0x1e51, 0x0e70,
           0xff9f, 0xefbe, 0xdfdd, 0xcffc, 0xbf1b, 0xaf3a, 0x9f59, 0x8f78)
    else if row == 8 then 
      Pick(col, 0x9188, 0x81a9, 0xb1ca, 0xa1eb, 0xd10c, 0xc12d, 0xf14e, 0xe16f,
           0x1080, 0x00a1, 0x30c2, 0x20e3, 0x5004, 0x4025, 0x7046, 0x6067)
    else if row == 9 then 
      Pick(col, 0x83b9, 0x9398, 0xa3fb, 0xb3da, 0xc33d, 0xd31c, 0xe37f, 0xf35e,
           0x02b1, 0x1290, 0x22f3, 0x32d2, 0x4235, 0x5214, 0x6277, 0x7256)
    else if row == 10 then 
      Pick(col, 0xb5ea, 0xa5cb, 0x95a8, 0x8589, 0xf56e, 0xe54f, 0xd52c, 0xc50d,
           0x34e2, 0x24c3, 0x14a0, 0x0481, 0x7466, 0x6447, 0x5424, 0x4405)
    else if row == 11 then 
      Pick(col, 0xa7db, 0xb7fa, 0x8799, 0x97b8, 0xe75f, 0xf77e, 0xc71d, 0xd73c,
           0x26d3, 0x36f2, 0x0691, 0x16b0, 0x6657, 0x7676, 0x4615, 0x5634)
    else if row == 12 then 
      Pick(col, 0xd94c, 0xc96d, 0xf90e, 0xe92f, 0x99c8, 0x89e9, 0xb98a, 0xa9ab,
           0x5844, 0x4865, 0x7806, 0x6827, 0x18c0, 0x08e1, 0x3882, 0x28a3)
    else if row == 13 then 
      Pick(col, 0xcb7d, 0xdb5c, 0xeb3f, 0xfb1e, 0x8bf9, 0x9bd8, 0xabbb, 0xbb9a,
           0x4a75, 0x5a54, 0x6a37, 0x7a16, 0x0af1, 0x1ad0, 0x2ab3, 0x3a92)
    else if row == 14 then 
      Pick(col, 0xfd2e, 0xed0f, 0xdd6c, 0xcd4d, 0xbdaa, 0xad8b, 0x9de8, 0x8dc9,
           0x7c26, 0x6c07, 0x5c64, 0x4c45, 0x3ca2, 0x2c83, 0x1ce0, 0x0cc1)
    else 
      Pick(col, 0xef1f, 0xff3e, 0xcf5d, 0xdf7c, 0xaf9b, 0xbfba, 0x8fd9, 0x9ff8,
           0x6e17, 0x7e36, 0x4e55, 0x5e74, 0x2e93, 0x3eb2, 0x0ed1, 0x1ef0)
  }

  /** One step of the bit-by-bit register: shift, and subtract the polynomial if a bit falls out. */
  function Shift1(c: bv16): bv16 {
    if Top(c) then Xor(Double(c), 0x1021) else Double(c)
  }

  predicate Top(c: bv16) {
    c & 0x8000 != 0
  }

  function Double(c: bv16): bv16 {
    c << 1
  }

  function Xor(x: bv16, y: bv16): bv16 {
    x ^ y
  }

  function Shift8(c: bv16): bv16 {
    Shift1(Shift1(Shift1(Shift1(Shift1(Shift1(Shift1(Shift1(c))))))))
  }

  // two rows at a time
  lemma TableRow0a(i: bv8) requires i < 8 ensures Table(i) == Shift8((i as bv16) << 8) {}
  lemma TableRow0b(i: bv8) requires 8 <= i < 16 ensures Table(i) == Shift8((i as bv16) << 8) {}
  lemma TableRow1(i: bv8) requires i >> 4 == 1 ensures Table(i) == Shift8((i as bv16) << 8) {}
  lemma TableRows1(i: bv8) requires i >> 5 == 1 ensures Table(i) == Shift8((i as bv16) << 8) {}
  lemma TableRows2(i: bv8) requires i >> 5 == 2 ensures Table(i) == Shift8((i as bv16) << 8) {}
  lemma TableRows3(i: bv8) requires i >> 5 == 3 ensures Table(i) == Shift8((i as bv16) << 8) {}
  lemma TableRows4(i: bv8) requires i >> 5 == 4 ensures Table(i) == Shift8((i as bv16) << 8) {}
  lemma TableRows5(i: bv8) requires i >> 5 == 5 ensures Table(i) == Shift8((i as bv16) << 8) {}
  lemma TableRows6(i: bv8) requires i >> 5 == 6 ensures Table(i) == Shift8((i as bv16) << 8) {}
  lemma TableRows7(i: bv8) requires i >> 5 == 7 ensures Table(i) == Shift8((i as bv16) << 8) {}

  /** Every entry of the table is what eight bit steps make of its index. */
  lemma TableIsBits(i: bv8)
    ensures Table(i) == Shift8((i as bv16) << 8)
  {
    hide Table, Shift8;
    if i < 8 { TableRow0a(i); }
    else if i < 16 { TableRow0b(i); }
    else if i >> 4 == 1 { TableRow1(i); }
    else if i >> 5 == 1 { TableRows1(i); }
    else if i >> 5 == 2 { TableRows2(i); }
    else if i >> 5 == 3 { TableRows3(i); }
    else if i >> 5 == 4 { TableRows4(i); }
    else if i >> 5 == 5 { TableRows5(i); }
    else if i >> 5 == 6 { TableRows6(i); }
    else { TableRows7(i); }
  }

  // --- linearity -----------------------------------------------------------------

  /** A byte in the upper half of the register. */
  function Upper(b: bv8): bv16 {
    (b as bv16) << 8
  }

  function Lower(b: bv8): bv16 {
    b as bv16
  }

  lemma XorTop(x: bv16, y: bv16)
    ensures Top(Xor(x, y)) <==> Top(x) != Top(y)
  {
  }

  lemma XorDouble(x: bv16, y: bv16)
    ensures Double(Xor(x, y)) == Xor(Double(x), Double(y))
  {
  }

  lemma XorMoves(x: bv16, y: bv16, g: bv16)
    ensures Xor(Xor(x, g), y) == Xor(Xor(x, y), g) == Xor(x, Xor(y, g))
  {
    hide Xor;
    XorAssociates(x, g, y);
    XorCommutes(g, y);
    XorAssociates(x, y, g);
  }

  lemma XorAssociates(x: bv16, y: bv16, z: bv16)
    ensures Xor(Xor(x, y), z) == Xor(x, Xor(y, z))
  {
  }

  lemma XorCancels(x: bv16, y: bv16)
    ensures Xor(Xor(x, y), y) == x
  {
  }

  lemma XorTwice(x: bv16, y: bv16, g: bv16)
    ensures Xor(Xor(x, g), Xor(y, g)) == Xor(x, y)
  {
    hide Xor;
    XorMoves(Xor(x, g), y, g);
    XorMoves(x, y, g);
    XorCancels(Xor(x, y), g);
  }

  lemma Shift1Linear(x: bv16, y: bv16)
    ensures Shift1(Xor(x, y)) == Xor(Shift1(x), Shift1(y))
  {
    hide Xor, Top, Double;
    XorTop(x, y);
    XorDouble(x, y);
    XorTwice(Double(x), Double(y), 0x1021);
    XorMoves(Double(x), Double(y), 0x1021);
  }

  lemma Shift8Linear(x: bv16, y: bv16)
    ensures Shift8(Xor(x, y)) == Xor(Shift8(x), Shift8(y))
  {
    hide Shift1, Xor;
    var x1, y1 := Shift1(x), Shift1(y);     Shift1Linear(x, y);
    var x2, y2 := Shift1(x1), Shift1(y1);   Shift1Linear(x1, y1);
    var x3, y3 := Shift1(x2), Shift1(y2);   Shift1Linear(x2, y2);
    var x4, y4 := Shift1(x3), Shift1(y3);   Shift1Linear(x3, y3);
    var x5, y5 := Shift1(x4), Shift1(y4);   Shift1Linear(x4, y4);
    var x6, y6 := Shift1(x5), Shift1(y5);   Shift1Linear(x5, y5);
    var x7, y7 := Shift1(x6), Shift1(y6);   Shift1Linear(x6, y6);
    Shift1Linear(x7, y7);
  }

  /** The polynomial has a constant term, so the lowest bit tells whether it was subtracted. */
  function Unshift1(d: bv16): bv16 {
    if Odd(d) then Halve(Xor(d, 0x1021)) | 0x8000 else Halve(d)
  }

  predicate Odd(d: bv16) {
    d & 1 != 0
  }

  function Halve(d: bv16): bv16 {
    d >> 1
  }

  lemma DoubleIsEven(c: bv16)
    ensures !Odd(Double(c))
  {
  }

  lemma XorOdd(d: bv16)
    ensures Odd(Xor(d, 0x1021)) == !Odd(d)
  {
  }

  lemma DoubleLosesTop(c: bv16)
    ensures Halve(Double(c)) == c & 0x7FFF
  {
  }

  lemma TopAndRest(c: bv16)
    ensures Top(c) ==> (c & 0x7FFF) | 0x8000 == c
    ensures !Top(c) ==> c & 0x7FFF == c
  {
  }

  lemma Unshift1Inverts(c: bv16)
    ensures Unshift1(Shift1(c)) == c
  {
    hide Xor, Top, Double, Odd, Halve;
    DoubleIsEven(c);
    XorOdd(Double(c));
    DoubleLosesTop(c);
    TopAndRest(c);
    XorCancels(Double(c), 0x1021);
  }

  lemma Shift8Injective(x: bv16, y: bv16)
    requires Shift8(x) == Shift8(y)
    ensures x == y
  {
    hide Shift1, Unshift1;
    var x1, y1 := Shift1(x), Shift1(y);     Unshift1Inverts(x); Unshift1Inverts(y);
    var x2, y2 := Shift1(x1), Shift1(y1);   Unshift1Inverts(x1); Unshift1Inverts(y1);
    var x3, y3 := Shift1(x2), Shift1(y2);   Unshift1Inverts(x2); Unshift1Inverts(y2);
    var x4, y4 := Shift1(x3), Shift1(y3);   Unshift1Inverts(x3); Unshift1Inverts(y3);
    var x5, y5 := Shift1(x4), Shift1(y4);   Unshift1Inverts(x4); Unshift1Inverts(y4);
    var x6, y6 := Shift1(x5), Shift1(y5);   Unshift1Inverts(x5); Unshift1Inverts(y5);
    var x7, y7 := Shift1(x6), Shift1(y6);   Unshift1Inverts(x6); Unshift1Inverts(y6);
    Unshift1Inverts(x7); Unshift1Inverts(y7);
  }

  // --- one byte --------------------------------------------------------------------

  function HighByte(c: bv16): bv8 { (c >> 8) as bv8 }
  function LowByte(c: bv16): bv8 { (c & 0xFF) as bv8 }
  function XorByte(a: bv8, b: bv8): bv8 { a ^ b }

  /** The body of the loop of the source. */
  function Step(crc: bv16, b: bv8): bv16 {
    Xor(crc << 8, Table(XorByte(HighByte(crc), b)))
  }

  /** Eight steps on a register whose upper byte is empty only move the lower byte up. */
  lemma Shift8Lower(b: bv8)
    ensures Shift8(Lower(b)) == Upper(b)
  {
  }

  lemma SplitBytes(crc: bv16, b: bv8)
    ensures Xor(crc, Upper(b)) == Xor(Upper(XorByte(HighByte(crc), b)), Lower(LowByte(crc)))
    ensures Upper(LowByte(crc)) == crc << 8
  {
  }

  lemma XorCommutes(x: bv16, y: bv16)
    ensures Xor(x, y) == Xor(y, x)
  {
  }

  /** The table step equals eight bit steps on the register with the byte added at the top. */
  lemma StepIsBits(crc: bv16, b: bv8)
    ensures Step(crc, b) == Shift8(Xor(crc, Upper(b)))
  {
    var top := XorByte(HighByte(crc), b);
    TableIsBits(top);
    assert Table(top) == Shift8(Upper(top));
    hide Table, Shift8, Xor, Upper, Lower, HighByte, LowByte, XorByte;
    SplitBytes(crc, b);
    Shift8Linear(Upper(top), Lower(LowByte(crc)));
    Shift8Lower(LowByte(crc));
    XorCommutes(crc << 8, Table(top));
  }

  /** Two bytes act like sixteen bit steps on the register with both added. */
  lemma TwoSteps(crc: bv16, a: bv8, b: bv8)
    ensures Step(Step(crc, a), b) == Shift8(Shift8(Xor(Xor(crc, Upper(a)), Lower(b))))
  {
    hide Step, Shift8, Xor, Upper, Lower;
    StepIsBits(crc, a);
    StepIsBits(Step(crc, a), b);
    Shift8Lower(b);
    Shift8Linear(Xor(crc, Upper(a)), Lower(b));
  }

  lemma StepInjective(x: bv16, y: bv16, b: bv8)
    requires Step(x, b) == Step(y, b)
    ensures x == y
  {
    hide Step, Shift8, Xor, Upper;
    StepIsBits(x, b);
    StepIsBits(y, b);
    Shift8Injective(Xor(x, Upper(b)), Xor(y, Upper(b)));
    XorCancels(x, Upper(b));
    XorCancels(y, Upper(b));
  }

  lemma BothBytes(crc: bv16, a: bv8, b: bv8)
    ensures HighByte(Xor(Xor(crc, Upper(a)), Lower(b))) == XorByte(HighByte(crc), a)
    ensures LowByte(Xor(Xor(crc, Upper(a)), Lower(b))) == XorByte(LowByte(crc), b)
  {
  }

  lemma XorByteCancels(a: bv8, b: bv8)
    ensures XorByte(a, XorByte(a, b)) == b && XorByte(a, a) == 0
  {
  }

  /** Two bytes are determined by the register they lead to. */
  lemma TwoStepsInjective(crc: bv16, a: bv8, b: bv8, c: bv8, d: bv8)
    requires Step(Step(crc, a), b) == Step(Step(crc, c), d)
    ensures a == c && b == d
  {
    hide *;
    var x, y := Xor(Xor(crc, Upper(a)), Lower(b)), Xor(Xor(crc, Upper(c)), Lower(d));
    TwoSteps(crc, a, b);
    TwoSteps(crc, c, d);
    Shift8Injective(Shift8(x), Shift8(y));
    Shift8Injective(x, y);
    BothBytes(crc, a, b);
    BothBytes(crc, c, d);
    XorByteCancels(HighByte(crc), a);
    XorByteCancels(HighByte(crc), c);
    XorByteCancels(LowByte(crc), b);
    XorByteCancels(LowByte(crc), d);
  }

  lemma BytesOfZero(x: bv16)
    requires HighByte(x) == 0 && LowByte(x) == 0
    ensures x == 0
  {
  }

  lemma ShiftZero()
    ensures Shift8(0) == 0
  {
  }

  /** A register fed its own bytes, high byte first, becomes zero. */
  lemma OwnBytes(crc: bv16)
    ensures Step(Step(crc, HighByte(crc)), LowByte(crc)) == 0
  {
    hide *;
    var h, l := HighByte(crc), LowByte(crc);
    TwoSteps(crc, h, l);
    BothBytes(crc, h, l);
    XorByteCancels(h, h);
    XorByteCancels(l, l);
    BytesOfZero(Xor(Xor(crc, Upper(h)), Lower(l)));
    ShiftZero();
  }
}
