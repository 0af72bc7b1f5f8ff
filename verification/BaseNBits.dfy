/**
 Bit strings behind the base-n codec of lib/util/basen.h: bytes and groups of
 bits, highest bit first.
 */
module BaseNBits {
  import opened Numbers

  type Byte = b: int | 0 <= b < 256

  /** The k lowest bits of n, highest first. */
  function BitsOf(n: nat, k: nat): (s: seq<bool>)
    ensures |s| == k
    decreases k
  {
    if k == 0 then [] else BitsOf(n / 2, k - 1) + [n % 2 == 1]
  }

  function Number(s: seq<bool>): (n: nat) {
    if s == [] then 0 else 2 * Number(s[..|s| - 1]) + (if s[|s| - 1] then 1 else 0)
  }

  lemma {:induction false} NumberOfBits(n: nat, k: nat)
    requires n < Pow2(k)
    ensures Number(BitsOf(n, k)) == n
    decreases k
  {
    if k > 0 {
      NumberOfBits(n / 2, k - 1);
      var s := BitsOf(n, k);
      assert s[..k - 1] == BitsOf(n / 2, k - 1);
    }
  }

  lemma {:induction false} BitsOfNumber(s: seq<bool>)
    ensures Number(s) < Pow2(|s|) && BitsOf(Number(s), |s|) == s
    decreases |s|
  {
    if s != [] {
      BitsOfNumber(s[..|s| - 1]);
      assert s == s[..|s| - 1] + [s[|s| - 1]];
    }
  }

  /** High and low part of a number are the front and the back of its bits. */
  lemma {:induction false} BitsSplit(n: nat, j: nat, k: nat)
    ensures n / Pow2(k) >= 0 && BitsOf(n, j + k) == BitsOf(n / Pow2(k), j) + BitsOf(n % Pow2(k), k)
    decreases k
  {
    if k > 0 {
      BitsSplit(n / 2, j, k - 1);
      HalfSplit(n, Pow2(k - 1));
    }
  }

  lemma HalfSplit(n: nat, p: nat)
    requires p > 0
    ensures n / 2 / p == n / (2 * p) && n / 2 % p == n % (2 * p) / 2 && n % 2 == n % (2 * p) % 2
  {
    var q, r := n / (2 * p), n % (2 * p);
    assert n == q * (2 * p) + r;
    assert n / 2 == q * p + r / 2 by { assert n == 2 * (q * p) + r; }
    QuotientUnique(n / 2, p, q, r / 2);
    assert n == 2 * (q * p) + r;
  }

  function Zeros(k: nat): (s: seq<bool>)
    ensures |s| == k
  {
    seq(k, _ => false)
  }

  lemma {:induction false} BitsOfZero(k: nat)
    ensures BitsOf(0, k) == Zeros(k)
  {
    if k > 0 {
      BitsOfZero(k - 1);
    }
  }

  // --- streams of bytes and of groups ----------------------------------------

  function Stream(bytes: seq<Byte>): (s: seq<bool>)
    ensures |s| == 8 * |bytes|
  {
    if bytes == [] then [] else BitsOf(bytes[0], 8) + Stream(bytes[1..])
  }

  /** Values of n bits each, one after the other. */
  function GroupBits(values: seq<nat>, n: nat): (s: seq<bool>)
    ensures |s| == |values| * n
  {
    if values == [] then [] else BitsOf(values[0], n) + GroupBits(values[1..], n)
  }

  /** Cut into groups of n bits, the last one filled up with zeros. */
  function Groups(bits: seq<bool>, n: nat): (values: seq<nat>)
    requires n > 0
    decreases |bits|
  {
    if bits == [] then []
    else if |bits| <= n then [Number(bits + Zeros(n - |bits|))]
    else [Number(bits[..n])] + Groups(bits[n..], n)
  }

  /** Zeros that fill up the last group of `len` bits. */
  function Fill(len: nat, n: nat): (k: nat)
    requires n > 0
    ensures k < n
    decreases len
  {
    if len == 0 then 0 else if len <= n then n - len else Fill(len - n, n)
  }

  lemma {:induction false} GroupsCount(bits: seq<bool>, n: nat)
    requires n > 0
    ensures |Groups(bits, n)| * n == |bits| + Fill(|bits|, n)
    decreases |bits|
  {
    hide Number;
    if |bits| > n {
      GroupsCount(bits[n..], n);
      var k := |Groups(bits[n..], n)|;
      assert (1 + k) * n == n + k * n;
    }
  }

  lemma {:induction false} GroupsInRange(bits: seq<bool>, n: nat)
    requires n > 0
    ensures forall i | 0 <= i < |Groups(bits, n)| :: Groups(bits, n)[i] < Pow2(n)
    decreases |bits|
  {
    hide Number, Pow2;
    if bits == [] {
    } else if |bits| <= n {
      BitsOfNumber(bits + Zeros(n - |bits|));
    } else {
      GroupsInRange(bits[n..], n);
      BitsOfNumber(bits[..n]);
    }
  }

  /** The groups hold the bits and the filling, and nothing else. */
  lemma {:induction false} GroupsKeepBits(bits: seq<bool>, n: nat)
    requires n > 0
    ensures GroupBits(Groups(bits, n), n) == bits + Zeros(Fill(|bits|, n))
    decreases |bits|
  {
    hide Number, BitsOf, Zeros;
    if bits == [] {
      NoZeros();
    } else if |bits| <= n {
      var g := bits + Zeros(n - |bits|);
      BitsOfNumber(g);
      assert Groups(bits, n) == [Number(g)];
      OneGroup(Number(g), n);
    } else {
      GroupsKeepBits(bits[n..], n);
      BitsOfNumber(bits[..n]);
      var rest := Groups(bits[n..], n);
      assert Groups(bits, n) == [Number(bits[..n])] + rest;
      MoreGroups(Number(bits[..n]), rest, n);
      assert bits == bits[..n] + bits[n..];
      assert bits[..n] + (bits[n..] + Zeros(Fill(|bits|, n))) == bits + Zeros(Fill(|bits|, n));
    }
  }

  lemma NoZeros()
    ensures Zeros(0) == []
  {
  }

  lemma OneGroup(v: nat, n: nat)
    ensures GroupBits([v], n) == BitsOf(v, n)
  {
    hide BitsOf;
    assert [v][1..] == [];
  }

  lemma MoreGroups(v: nat, rest: seq<nat>, n: nat)
    ensures GroupBits([v] + rest, n) == BitsOf(v, n) + GroupBits(rest, n)
  {
    hide BitsOf;
    assert ([v] + rest)[1..] == rest;
  }

  /** The complete bytes of a bit string. */
  function Whole(bits: seq<bool>): (bytes: seq<Byte>)
    decreases |bits|
  {
    if |bits| < 8 then [] else [ByteAt(bits[..8])] + Whole(bits[8..])
  }

  lemma ByteRange()
    ensures Pow2(8) == 256
  {
    assert Pow2(4) == 16;
    Pow2Add(4, 4);
  }

  function ByteAt(bits: seq<bool>): (b: Byte)
    requires |bits| == 8
  {
    BitsOfNumber(bits);
    ByteRange();
    Number(bits)
  }

  lemma ByteOfBits(b: Byte)
    ensures ByteAt(BitsOf(b, 8)) == b
  {
    ByteRange();
    NumberOfBits(b, 8);
  }

  /** What is left after the complete bytes. */
  function Left(bits: seq<bool>): (s: seq<bool>)
    ensures |s| < 8
    decreases |bits|
  {
    if |bits| < 8 then bits else Left(bits[8..])
  }

  lemma {:induction false} WholeOfStream(bytes: seq<Byte>, tail: seq<bool>)
    requires |tail| < 8
    ensures Whole(Stream(bytes) + tail) == bytes && Left(Stream(bytes) + tail) == tail
    decreases |bytes|
  {
    hide BitsOf, ByteAt;
    if bytes == [] {
      assert Stream(bytes) + tail == tail;
    } else {
      WholeOfStream(bytes[1..], tail);
      var s := Stream(bytes) + tail;
      assert s[..8] == BitsOf(bytes[0], 8) && s[8..] == Stream(bytes[1..]) + tail;
      ByteOfBits(bytes[0]);
    }
  }
}
