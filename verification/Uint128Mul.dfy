/**
 The four-limb product of lib/util/uint128_t.cpp.
 */
module Uint128Product {
  import opened Numbers
  import opened Uint128

  const B96: int := 0x1_0000_0000_0000_0000_0000_0000

  function Lo(p: int): int { p % B32 }
  function Hi(p: int): int { p / B32 }

  /** A limb times a number written in limbs. */
  lemma Distribute(t: int, b0: int, b1: int, b2: int, b3: int)
    ensures t * (b0 * B96 + b1 * B64 + b2 * B32 + b3) == (t * b0) * B96 + (t * b1) * B64 + (t * b2) * B32 + t * b3
  {
    assert t * (b0 * B96) == (t * b0) * B96;
    assert t * (b1 * B64) == (t * b1) * B64;
    assert t * (b2 * B32) == (t * b2) * B32;
  }

  lemma DistributeLeft(t0: int, t1: int, t2: int, t3: int, y: int)
    ensures (t0 * B96 + t1 * B64 + t2 * B32 + t3) * y == (t0 * y) * B96 + (t1 * y) * B64 + (t2 * y) * B32 + t3 * y
  {
    Distribute(y, t0, t1, t2, t3);
  }

  /** The part of the product that matters modulo 2^128. */
  lemma KeptProducts(t0: int, t1: int, t2: int, t3: int, b0: int, b1: int, b2: int, b3: int)
    ensures ((t0 * B96 + t1 * B64 + t2 * B32 + t3) * (b0 * B96 + b1 * B64 + b2 * B32 + b3)) % B128
         == (t3 * b3 + (t3 * b2 + t2 * b3) * B32 + (t3 * b1 + t2 * b2 + t1 * b3) * B64
             + (t3 * b0 + t2 * b1 + t1 * b2 + t0 * b3) * B96) % B128
  {
    var y := b0 * B96 + b1 * B64 + b2 * B32 + b3;
    DistributeLeft(t0, t1, t2, t3, y);
    Distribute(t0, b0, b1, b2, b3);
    Distribute(t1, b0, b1, b2, b3);
    Distribute(t2, b0, b1, b2, b3);
    Distribute(t3, b0, b1, b2, b3);
    var kept := t3 * b3 + (t3 * b2 + t2 * b3) * B32 + (t3 * b1 + t2 * b2 + t1 * b3) * B64
                + (t3 * b0 + t2 * b1 + t1 * b2 + t0 * b3) * B96;
    var out := (t2 * b0 + t1 * b1 + t0 * b2) + (t1 * b0 + t0 * b1) * B32 + (t0 * b0) * B64;
    DropMultiple(kept, out);
  }

  lemma DropMultiple(kept: int, out: int)
    ensures (kept + out * B128) % B128 == kept % B128
  {
    QuotientUnique(kept + out * B128, B128, kept / B128 + out, kept % B128);
  }

  /** The columns of the source hold the kept products, up to multiples of 2^128. */
  lemma ColumnsSum(p00: int, p01: int, p02: int, p03: int, p11: int, p12: int, p13: int, p22: int, p23: int, p33: int)
    ensures var fourth := Lo(p03);
            var third := Lo(p02) + Hi(p03) + Lo(p13);
            var second := Lo(p01) + Hi(p02) + (Lo(p12) + Hi(p13)) + Lo(p23);
            var first := Lo(p00) + Hi(p01) + (Lo(p11) + Hi(p12)) + (Lo(p22) + Hi(p23)) + Lo(p33);
            (p03 + (p02 + p13) * B32 + (p01 + p12 + p23) * B64 + (p00 + p11 + p22 + p33) * B96) % B128
              == (fourth + third * B32 + second * B64 + first * B96) % B128
  {
    var first := Lo(p00) + Hi(p01) + (Lo(p11) + Hi(p12)) + (Lo(p22) + Hi(p23)) + Lo(p33);
    var second := Lo(p01) + Hi(p02) + (Lo(p12) + Hi(p13)) + Lo(p23);
    var third := Lo(p02) + Hi(p03) + Lo(p13);
    DropMultiple(Lo(p03) + third * B32 + second * B64 + first * B96, Hi(p00) + Hi(p11) + Hi(p22) + Hi(p33));
  }

  lemma ProductFits(a: nat, b: nat)
    requires a < B32 && b < B32
    ensures 0 <= a * b < B64 && Wrap(a * b) == a * b
  {
    hide Wrap;
    MulMono(a, B32 - 1, b);
    MulMono(b, B32 - 1, B32 - 1);
    assert 0 <= a * b <= (B32 - 1) * (B32 - 1) < B64;
    WrapsToItself(a * b);
  }

  lemma WrapsToItself(n: nat)
    requires n < B64
    ensures Wrap(n) == n
  {
  }

  lemma LoHiBound(p: nat)
    requires p < B64
    ensures 0 <= Lo(p) < B32 && 0 <= Hi(p) < B32
  {
  }

  function Combine(first: nat, second: nat, third: nat, fourth: nat): (r: U128)
    requires first < B64 && second < B64 && third < B64 && fourth < B32
  {
    Add(Add(Add(U128(Wrap(first * B32), 0), U128(third / B32, Wrap(third * B32))), U128(second, 0)), U128(0, fourth))
  }

  /** The last line of the source: four addends, of which only the columns count. */
  lemma CombineColumns(first: nat, second: nat, third: nat, fourth: nat)
    requires first < B64 && second < B64 && third < B64 && fourth < B32
    ensures Value(Combine(first, second, third, fourth)) == (fourth + third * B32 + second * B64 + first * B96) % B128
  {
    hide Add, Value;
    var a, b, c, d := U128(Wrap(first * B32), 0), U128(third / B32, Wrap(third * B32)), U128(second, 0), U128(0, fourth);
    AddIsModular(a, b);
    AddIsModular(Add(a, b), c);
    AddIsModular(Add(Add(a, b), c), d);
    assert Value(a) == Wrap(first * B32) * B64 && Value(b) == third * B32 && Value(c) == second * B64 && Value(d) == fourth by {
      ColumnValues(first, second, third, fourth);
    }
    SumMod(Value(a), Value(b), Value(c), Value(d));
    FirstColumn(first, fourth + third * B32 + second * B64);
  }

  lemma ColumnValues(first: nat, second: nat, third: nat, fourth: nat)
    requires first < B64 && second < B64 && third < B64 && fourth < B32
    ensures Value(U128(Wrap(first * B32), 0)) == Wrap(first * B32) * B64
    ensures Value(U128(third / B32, Wrap(third * B32))) == third * B32
    ensures Value(U128(second, 0)) == second * B64 && Value(U128(0, fourth)) == fourth
  {
  }

  lemma SumMod(a: int, b: int, c: int, d: int)
    ensures (((a + b) % B128 + c) % B128 + d) % B128 == (a + b + c + d) % B128
  {
  }

  lemma FirstColumn(first: nat, rest: int)
    ensures (Wrap(first * B32) * B64 + rest) % B128 == (rest + first * B96) % B128
  {
    DropMultiple(Wrap(first * B32) * B64 + rest, first * B32 / B64);
  }

  /** operator*: the product modulo 2^128; no product and no column leaves its word. */
  method Multiply(x: U128, y: U128) returns (r: U128)
    ensures Value(r) == (Value(x) * Value(y)) % B128
  {
    hide Add, Value;
    var top := [x.upper / B32, x.upper % B32, x.lower / B32, x.lower % B32];
    var bottom := [y.upper / B32, y.upper % B32, y.lower / B32, y.lower % B32];
    var p := Products(top, bottom);
    r := Columns(p[0, 0], p[0, 1], p[0, 2], p[0, 3], p[1, 1], p[1, 2], p[1, 3], p[2, 2], p[2, 3], p[3, 3]);
    LimbValue(x);
    LimbValue(y);
    KeptProducts(top[0], top[1], top[2], top[3], bottom[0], bottom[1], bottom[2], bottom[3]);
  }

  lemma LimbValue(x: U128)
    ensures Value(x) == x.upper / B32 * B96 + x.upper % B32 * B64 + x.lower / B32 * B32 + x.lower % B32
  {
  }

  ghost predicate Limbs(s: seq<int>) {
    |s| == 4 && forall i | 0 <= i < 4 :: 0 <= s[i] < B32
  }

  /** The nested loops: p[3 - x, y] is the product of limb x and limb y. */
  method Products(top: seq<int>, bottom: seq<int>) returns (p: array2<int>)
    requires Limbs(top) && Limbs(bottom)
    ensures fresh(p) && p.Length0 == 4 && p.Length1 == 4
    ensures forall i, y | 0 <= i < 4 && 0 <= y < 4 :: p[i, y] == top[3 - i] * bottom[y] && 0 <= p[i, y] < B64
  {
    p := new int[4, 4];
    var y := 3;
    while y > -1
      invariant -1 <= y <= 3
      invariant forall i, j | 0 <= i < 4 && y < j < 4 :: p[i, j] == top[3 - i] * bottom[j] && 0 <= p[i, j] < B64
    {
      var x := 3;
      while x > -1
        invariant -1 <= x <= 3
        invariant forall i, j | 0 <= i < 4 && y < j < 4 :: p[i, j] == top[3 - i] * bottom[j] && 0 <= p[i, j] < B64
        invariant forall i | 0 <= i < 3 - x :: p[i, y] == top[3 - i] * bottom[y] && 0 <= p[i, y] < B64
      {
        ProductFits(top[x], bottom[y]);
        p[3 - x, y] := Wrap(top[x] * bottom[y]);
        x := x - 1;
      }
      y := y - 1;
    }
  }

  lemma WrapSmall(n: int)
    requires 0 <= n < B64
    ensures Wrap(n) == n
  {
  }

  /** The column sums and their combination; pij is the product of limb 3 - i and limb j. */
  method Columns(p00: Word, p01: Word, p02: Word, p03: Word, p11: Word, p12: Word, p13: Word, p22: Word, p23: Word, p33: Word)
    returns (r: U128)
    ensures Value(r) == (p03 + (p02 + p13) * B32 + (p01 + p12 + p23) * B64 + (p00 + p11 + p22 + p33) * B96) % B128
  {
    hide Add, Value, Lo, Hi, Wrap, Combine;
    LoHiBound(p00); LoHiBound(p01); LoHiBound(p02); LoHiBound(p03); LoHiBound(p11);
    LoHiBound(p12); LoHiBound(p13); LoHiBound(p22); LoHiBound(p23); LoHiBound(p33);
    // initial row
    var fourth32 := Lo(p03);
    var third32 := Plus(Lo(p02), Hi(p03));
    var second32 := Plus(Lo(p01), Hi(p02));
    var first32 := Plus(Lo(p00), Hi(p01));
    // second row
    third32 := Plus(third32, Lo(p13));
    second32 := Plus(second32, Plus(Lo(p12), Hi(p13)));
    first32 := Plus(first32, Plus(Lo(p11), Hi(p12)));
    // third row
    second32 := Plus(second32, Lo(p23));
    first32 := Plus(first32, Plus(Lo(p22), Hi(p23)));
    // fourth row
    first32 := Plus(first32, Lo(p33));
    ColumnsSum(p00, p01, p02, p03, p11, p12, p13, p22, p23, p33);
    CombineColumns(first32, second32, third32, fourth32);
    r := Combine(first32, second32, third32, fourth32);
  }

  /** A sum of words, which the columns never make wrap. */
  function Plus(a: int, b: int): (r: Word)
    requires 0 <= a && 0 <= b && a + b < B64
    ensures r == a + b
  {
    WrapSmall(a + b);
    Wrap(a + b)
  }
}
