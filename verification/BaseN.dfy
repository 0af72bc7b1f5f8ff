/**
 The base-16, base-32 and base-64 codec of lib/util/basen.h.
 */
module BaseN {
  import opened Numbers
  import opened BaseNBits

  // The alphabets of sections 8, 6 and 4 of RFC 4648.
  const UPPER := "ABCDEFGHIJKLMNOPQRSTUVWXYZ"
  const LOWER := "abcdefghijklmnopqrstuvwxyz"
  const DIGITS := "0123456789"
  const ALPHABET16 := DIGITS + "ABCDEF"
  const ALPHABET32 := UPPER + "234567"
  const ALPHABET64 := UPPER + LOWER + DIGITS + "+/"

  datatype Codec = Base16 | Base32 | Base64
  {
    function GroupLength(): (n: nat)
      ensures 4 <= n <= 6
    {
      match this case Base16 => 4 case Base32 => 5 case Base64 => 6
    }

    /** The dictionary of the conversion traits. */
    function Letter(i: nat): char
      requires i < Size()
    {
      match this
      case Base16 => if i < 10 then '0' + i as char else 'A' + (i - 10) as char
      case Base32 => if i < 26 then 'A' + i as char else '2' + (i - 26) as char
      case Base64 =>
        if i < 26 then 'A' + i as char
        else if i < 52 then 'a' + (i - 26) as char
        else if i < 62 then '0' + (i - 52) as char
        else if i == 62 then '+' else '/'
    }

    function Size(): nat {
      match this case Base16 => 16 case Base32 => 32 case Base64 => 64
    }

    /** The value of a letter, or -1. */
    function Digit(c: char): (v: int)
      ensures -1 <= v < Size()
    {
      match this
      case Base16 =>
        if '0' <= c <= '9' then c as int - '0' as int
        else if 'A' <= c <= 'F' then c as int - 'A' as int + 10
        else -1
      case Base32 =>
        if 'A' <= c <= 'Z' then c as int - 'A' as int
        else if '2' <= c <= '7' then c as int - '2' as int + 26
        else -1
      case Base64 =>
        if 'A' <= c <= 'Z' then c as int - 'A' as int
        else if 'a' <= c <= 'z' then c as int - 'a' as int + 26
        else if '0' <= c <= '9' then c as int - '0' as int + 52
        else if c == '+' then 62
        else if c == '/' then 63
        else -1
    }

    lemma LetterRoundTrip(i: nat)
      requires i < Size()
      ensures Digit(Letter(i)) == i && Letter(i) != '='
    {
    }

    function Alphabet(): string {
      match this case Base16 => ALPHABET16 case Base32 => ALPHABET32 case Base64 => ALPHABET64
    }

    lemma LettersAre(i: nat)
      requires i < Size()
      ensures |Alphabet()| == Size() && Letter(i) == Alphabet()[i]
    {
      match this
      case Base16 => Letters16(i);
      case Base32 => Letters32(i);
      case Base64 => Letters64(i);
    }

    /** A character has a value if and only if it is in the alphabet, and then it is its place there. */
    lemma DigitIs(c: char, i: nat)
      ensures Digit(c) == i <==> i < |Alphabet()| && Alphabet()[i] == c
      ensures Digit(c) == -1 <==> c !in Alphabet()
    {
      hide Alphabet;
      LettersAre(0);
      if i < Size() {
        LettersAre(i);
        LetterRoundTrip(i);
      }
      if Digit(c) >= 0 {
        LettersAre(Digit(c));
      }
      if c in Alphabet() {
        var k :| 0 <= k < |Alphabet()| && Alphabet()[k] == c;
        LettersAre(k);
        LetterRoundTrip(k);
      }
    }

    lemma SizeIsPower()
      ensures Pow2(GroupLength()) == Size()
    {
      assert Pow2(4) == 16 && Pow2(5) == 2 * Pow2(4) && Pow2(6) == 2 * Pow2(5);
    }
  }

  lemma RunsOfLetters()
    ensures |UPPER| == 26 == |LOWER| && |DIGITS| == 10
    ensures forall i | 0 <= i < 26 :: UPPER[i] == 'A' + i as char && LOWER[i] == 'a' + i as char
    ensures forall i | 0 <= i < 10 :: DIGITS[i] == '0' + i as char
  {
  }

  lemma Letters16(i: nat)
    requires i < 16
    ensures |ALPHABET16| == 16 && ALPHABET16[i] == Base16.Letter(i)
  {
  }

  lemma Letters32(i: nat)
    requires i < 32
    ensures |ALPHABET32| == 32 && ALPHABET32[i] == Base32.Letter(i)
  {
    hide UPPER;
    RunsOfLetters();
  }

  lemma Letters64(i: nat)
    requires i < 64
    ensures |ALPHABET64| == 64 && ALPHABET64[i] == Base64.Letter(i)
  {
    hide UPPER, LOWER, DIGITS;
    RunsOfLetters();
  }

  // --- extracting bits --------------------------------------------------------

  lemma HighBits(n: nat, k: nat, m: nat)
    requires m <= k
    ensures n / Pow2(m) >= 0 && BitsOf(n / Pow2(m), k - m) == BitsOf(n, k)[..k - m]
    ensures BitsOf(n % Pow2(m), m) == BitsOf(n, k)[k - m..]
  {
    BitsSplit(n, k - m, m);
  }

  /** extract_partial_bits. */
  function ExtractPartial(value: Byte, start: nat, count: nat): (v: nat)
    requires start + count < 8
  {
    value / Pow2(8 - count - start) % Pow2(count)
  }

  lemma PartialBits(value: Byte, start: nat, count: nat)
    requires start + count < 8
    ensures ExtractPartial(value, start, count) < Pow2(count)
    ensures BitsOf(ExtractPartial(value, start, count), count) == BitsOf(value, 8)[start..start + count]
  {
    hide BitsOf, Pow2;
    var high := value / Pow2(8 - count - start);
    HighBits(value, 8, 8 - count - start);
    HighBits(high, start + count, count);
  }

  /** extract_overlapping_bits. */
  function ExtractOverlapping(previous: Byte, next: Byte, start: nat, count: nat): (v: nat)
    requires start < 8 <= start + count < 16
  {
    var inNext := count - (8 - start);
    var t1 := previous * Pow2(inNext) % 256;
    var t2 := next / Pow2(8 - inNext) % Pow2(inNext);
    Or(t1, t2) % Pow2(count)
  }

  /** (p << k) & 0xFF keeps the low 8 - k bits and moves them up. */
  lemma ShiftedByte(p: Byte, k: nat)
    requires k <= 8
    ensures p * Pow2(k) % 256 == p % Pow2(8 - k) * Pow2(k)
  {
    hide Pow2;
    ByteRange();
    Pow2Add(8 - k, k);
    ShiftOut(p, Pow2(8 - k), Pow2(k));
  }

  lemma ShiftOut(p: int, a: int, b: int)
    requires 0 <= p && a > 0 && b > 0 && a * b == 256
    ensures p * b % 256 == p % a * b
  {
    var q, r := p / a, p % a;
    assert (q * a + r) * b == q * (a * b) + r * b;
    MulMono(r, a - 1, b);
    assert (a - 1) * b == 256 - b;
    QuotientUnique(p * b, 256, q, r * b);
  }

  lemma HighIsSmall(n: Byte, k: nat)
    requires k <= 8
    ensures 0 <= n / Pow2(8 - k) < Pow2(k) && n / Pow2(8 - k) % Pow2(k) == n / Pow2(8 - k)
  {
    hide Pow2;
    ByteRange();
    Pow2Add(8 - k, k);
    QuotientBelow(n, Pow2(8 - k), Pow2(k));
    QuotientUnique(n / Pow2(8 - k), Pow2(k), 0, n / Pow2(8 - k));
  }

  lemma QuotientBelow(n: int, a: int, b: int)
    requires 0 <= n < a * b && a > 0 && b > 0
    ensures 0 <= n / a < b
  {
    if n / a >= b {
      MulMono(b, n / a, a);
    }
  }

  function LowPart(n: nat, d: nat): nat
    requires d > 0
  {
    n % d
  }

  function HighPart(n: nat, d: nat): nat
    requires d > 0
  {
    n / d
  }

  function Stacked(low: nat, high: nat, scale: nat): (t: nat) {
    low * scale + high
  }

  /** The low bits of one byte followed by the k high bits of the next, as a number. */
  function Joined(previous: Byte, next: Byte, k: nat): (t: nat)
    requires k <= 8
  {
    Stacked(LowPart(previous, Pow2(8 - k)), HighPart(next, Pow2(8 - k)), Pow2(k))
  }

  lemma OverlapValue(previous: Byte, next: Byte, start: nat, count: nat)
    requires start < 8 <= start + count < 16 && count <= 8
    ensures ExtractOverlapping(previous, next, start, count)
         == Joined(previous, next, count - (8 - start)) % Pow2(count)
  {
    hide Pow2, Or;
    var k := count - (8 - start);
    ShiftedByte(previous, k);
    HighIsSmall(next, k);
    OrDisjoint(previous % Pow2(8 - k), next / Pow2(8 - k), k);
  }

  lemma OverlapBits(previous: Byte, next: Byte, start: nat, count: nat)
    requires start < 8 <= start + count < 16 && count <= 8
    ensures ExtractOverlapping(previous, next, start, count) < Pow2(count)
    ensures BitsOf(ExtractOverlapping(previous, next, start, count), count)
         == BitsOf(previous, 8)[start..] + BitsOf(next, 8)[..count - (8 - start)]
  {
    hide BitsOf, Pow2, Joined, ExtractOverlapping;
    var k := count - (8 - start);
    OverlapValue(previous, next, start, count);
    JoinedBits(previous, next, k);
    HighBits(Joined(previous, next, k), 8, count);
    SliceJoined(BitsOf(previous, 8), BitsOf(next, 8), k, 8 - count);
  }

  lemma JoinedBits(previous: Byte, next: Byte, k: nat)
    requires k <= 8
    ensures BitsOf(Joined(previous, next, k), 8) == BitsOf(previous, 8)[k..] + BitsOf(next, 8)[..k]
  {
    hide BitsOf, Pow2;
    HighIsSmall(next, k);
    var low, high := previous % Pow2(8 - k), next / Pow2(8 - k);
    var t := low * Pow2(k) + high;
    BitsSplit(t, 8 - k, k);
    QuotientUnique(t, Pow2(k), low, high);
    HighBits(previous, 8, 8 - k);
    HighBits(next, 8, 8 - k);
  }

  lemma SliceJoined(a: seq<bool>, b: seq<bool>, k: nat, m: nat)
    requires |a| == 8 && |b| == 8 && k + m <= 8
    ensures (a[k..] + b[..k])[m..] == a[k + m..] + b[..k]
  {
  }

  // --- what encoding and decoding mean ---------------------------------------------

  function Letters(codec: Codec, values: seq<nat>): (s: string)
    requires forall i | 0 <= i < |values| :: values[i] < codec.Size()
    ensures |s| == |values|
  {
    if values == [] then "" else [codec.Letter(values[0])] + Letters(codec, values[1..])
  }

  /** The '=' signs that bring the bit position back to a byte boundary. */
  function Pads(codec: Codec, startBit: nat): nat {
    match codec
    case Base16 => startBit / 4
    case Base32 => 3 * startBit % 8
    case Base64 => startBit / 2
  }

  /** Bit positions that the codec can stop at. */
  predicate Reachable(codec: Codec, startBit: nat) {
    startBit < 8 && (codec == Base16 ==> startBit % 4 == 0) && (codec == Base64 ==> startBit % 2 == 0)
  }

  lemma PadStep(codec: Codec, startBit: nat)
    requires Reachable(codec, startBit)
    ensures startBit == 0 <==> Pads(codec, startBit) == 0
    ensures startBit != 0 ==> (var next := (startBit + codec.GroupLength()) % 8;
      Reachable(codec, next) && Pads(codec, next) == Pads(codec, startBit) - 1)
  {
  }

  lemma {:induction false} PadsReachBoundary(codec: Codec, startBit: nat)
    requires Reachable(codec, startBit)
    ensures (startBit + Pads(codec, startBit) * codec.GroupLength()) % 8 == 0
    decreases Pads(codec, startBit)
  {
    hide Pads, Reachable;
    PadStep(codec, startBit);
    var n, p := codec.GroupLength(), Pads(codec, startBit);
    if startBit != 0 {
      var next := (startBit + n) % 8;
      PadsReachBoundary(codec, next);
      assert p * n == (p - 1) * n + n;
      SameRemainder(startBit + n, (p - 1) * n);
    } else {
      assert p * n == 0;
    }
  }

  lemma SameRemainder(a: int, b: int)
    ensures (a % 8 + b) % 8 == (a + b) % 8
  {
  }

  function GroupsOf(codec: Codec, bits: seq<bool>): (values: seq<nat>)
    ensures forall i | 0 <= i < |values| :: values[i] < codec.Size()
  {
    GroupsInRange(bits, codec.GroupLength());
    codec.SizeIsPower();
    Groups(bits, codec.GroupLength())
  }

  function Equals(n: nat): (s: string)
    ensures |s| == n
  {
    seq(n, _ => '=')
  }

  /** The encoded text: one letter for each group of bits, and padding. */
  function Text(codec: Codec, bytes: seq<Byte>): string {
    Letters(codec, GroupsOf(codec, Stream(bytes))) + Equals(Pads(codec, Fill(8 * |bytes|, codec.GroupLength())))
  }

  /** Values of the letters of a text; everything else is passed over. */
  function Values(codec: Codec, s: string): (values: seq<nat>)
    ensures forall i | 0 <= i < |values| :: values[i] < codec.Size()
  {
    if s == "" then []
    else if codec.Digit(s[0]) == -1 then Values(codec, s[1..])
    else [codec.Digit(s[0])] + Values(codec, s[1..])
  }

  function CountEquals(s: string): nat {
    if s == "" then 0 else (if s[0] == '=' then 1 else 0) + CountEquals(s[1..])
  }

  /** The decoded bytes: the whole bytes of the bits, and a truncated last byte without proper padding. */
  function Bytes(codec: Codec, values: seq<nat>, equals: nat): (bytes: seq<Byte>) {
    var bits := GroupBits(values, codec.GroupLength());
    Whole(bits) + LastByte(codec, Left(bits), equals)
  }

  function LastByte(codec: Codec, left: seq<bool>, equals: nat): seq<Byte>
    requires |left| < 8
  {
    if left != [] && (equals * codec.GroupLength() + |left|) % 8 != 0 then [ByteAt(left + Zeros(8 - |left|))] else []
  }

  // --- the laws ---------------------------------------------------------------------

  lemma FirstLetter(codec: Codec, v: nat, rest: string)
    requires v < codec.Size()
    ensures Values(codec, [codec.Letter(v)] + rest) == [v] + Values(codec, rest)
    ensures CountEquals([codec.Letter(v)] + rest) == CountEquals(rest)
  {
    hide Codec.Letter, Codec.Digit, Codec.Size;
    codec.LetterRoundTrip(v);
    assert ([codec.Letter(v)] + rest)[1..] == rest;
  }

  lemma {:induction false} ValuesOfLetters(codec: Codec, values: seq<nat>, n: nat)
    requires forall i | 0 <= i < |values| :: values[i] < codec.Size()
    ensures Values(codec, Letters(codec, values) + Equals(n)) == values
    ensures CountEquals(Letters(codec, values) + Equals(n)) == n
    decreases |values|
  {
    hide Equals, Values, CountEquals, Codec.Letter, Codec.Digit, Codec.Size;
    if values == [] {
      assert "" + Equals(n) == Equals(n);
      ValuesOfEquals(codec, n);
    } else {
      var rest := Letters(codec, values[1..]) + Equals(n);
      FirstLetter(codec, values[0], rest);
      assert Letters(codec, values) + Equals(n) == [codec.Letter(values[0])] + rest;
      ValuesOfLetters(codec, values[1..], n);
      assert [values[0]] + values[1..] == values;
    }
  }

  lemma {:induction false} ValuesOfEquals(codec: Codec, n: nat)
    ensures Values(codec, Equals(n)) == [] && CountEquals(Equals(n)) == n
  {
    if n > 0 {
      assert Equals(n)[1..] == Equals(n - 1);
      ValuesOfEquals(codec, n - 1);
    }
  }

  function Fill5Of(n: nat): nat {
    if n == 0 then 0 else if n == 1 then 2 else if n == 2 then 4 else if n == 3 then 1 else 3
  }

  /** The filling after n bytes. */
  lemma {:induction false} FillValues(n: nat)
    ensures Fill(8 * n, 4) == 0
    ensures Fill(8 * n, 5) == Fill5Of(n % 5)
    ensures Fill(8 * n, 6) == (if n % 3 == 0 then 0 else if n % 3 == 1 then 4 else 2)
  {
    Fill4(n);
    Fill5(n);
    Fill6(n);
  }

  lemma {:induction false} Fill4(n: nat)
    ensures Fill(8 * n, 4) == 0
  {
    if n > 0 {
      assert Fill(8 * n, 4) == Fill(8 * n - 4, 4) == Fill(8 * (n - 1), 4);
      Fill4(n - 1);
    }
  }

  lemma {:induction false} Fill5(n: nat)
    ensures Fill(8 * n, 5) == Fill5Of(n % 5)
  {
    if n >= 5 {
      hide Fill;
      FillDrop(8 * n, 5, 8);
      Fill5(n - 5);
    } else {
      ShortFill5();
    }
  }

  lemma ShortFill5()
    ensures Fill(0, 5) == 0 && Fill(8, 5) == 2 && Fill(16, 5) == 4 && Fill(24, 5) == 1 && Fill(32, 5) == 3
  {
    FillDrop(8, 5, 1);
    FillDrop(16, 5, 3);
    FillDrop(24, 5, 4);
    FillDrop(32, 5, 6);
  }

  lemma {:induction false} Fill6(n: nat)
    ensures Fill(8 * n, 6) == (if n % 3 == 0 then 0 else if n % 3 == 1 then 4 else 2)
  {
    if n >= 3 {
      hide Fill;
      FillDrop(8 * n, 6, 4);
      Fill6(n - 3);
    } else {
      ShortFill6();
    }
  }

  lemma ShortFill6()
    ensures Fill(0, 6) == 0 && Fill(8, 6) == 4 && Fill(16, 6) == 2
  {
    FillDrop(8, 6, 1);
    FillDrop(16, 6, 2);
  }

  lemma {:induction false} FillDrop(len: nat, n: nat, k: nat)
    requires n > 0 && len >= k * n
    ensures Fill(len, n) == Fill(len - k * n, n)
    decreases k
  {
    if k > 0 {
      assert k * n == (k - 1) * n + n;
      FillDrop(len, n, k - 1);
    }
  }

  /** decode(encode(bytes)) == bytes, for every byte sequence and every codec. */
  lemma RoundTrip(codec: Codec, bytes: seq<Byte>)
    ensures Bytes(codec, Values(codec, Text(codec, bytes)), CountEquals(Text(codec, bytes))) == bytes
  {
    hide Values, Letters, Groups, GroupBits, Whole, Left, Stream, Pads, Equals, CountEquals, Fill, Zeros;
    var n := codec.GroupLength();
    var values := GroupsOf(codec, Stream(bytes));
    var fill := Fill(8 * |bytes|, n);
    var pads := Pads(codec, fill);
    ValuesOfLetters(codec, values, pads);
    GroupsKeepBits(Stream(bytes), n);
    WholeOfStream(bytes, Zeros(fill));
    FillValues(|bytes|);
    PadsReachBoundary(codec, fill);
  }

  function EncodedSize(codec: Codec, n: nat): nat {
    match codec
    case Base16 => n * 2
    case Base32 => (n + 4) / 5 * 8
    case Base64 => (n + 2) / 3 * 4
  }

  /** The text is as long as encoded_size16, encoded_size32 and encoded_size64 announce. */
  lemma TextLength(codec: Codec, bytes: seq<Byte>)
    ensures |Text(codec, bytes)| == EncodedSize(codec, |bytes|)
  {
    hide Groups, Stream, Letters, Equals;
    GroupsCount(Stream(bytes), codec.GroupLength());
    FillValues(|bytes|);
  }

  /** Decoding depends on the letters and the number of '=' only. */
  lemma {:induction false} JunkIsIgnored(codec: Codec, before: string, junk: string, after: string)
    requires forall c | c in junk :: codec.Digit(c) == -1 && c != '='
    ensures Values(codec, before + junk + after) == Values(codec, before + after)
    ensures CountEquals(before + junk + after) == CountEquals(before + after)
    decreases |before| + |junk|
  {
    if before != "" {
      assert (before + junk + after)[1..] == before[1..] + junk + after;
      assert (before + after)[1..] == before[1..] + after;
      JunkIsIgnored(codec, before[1..], junk, after);
    } else if junk != "" {
      assert ("" + junk + after)[1..] == "" + junk[1..] + after;
      assert junk[0] in junk;
      JunkIsIgnored(codec, "", junk[1..], after);
    } else {
      assert before + junk + after == before + after;
    }
  }
}
