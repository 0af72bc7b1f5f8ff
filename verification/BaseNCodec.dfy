/**
 The encoding and decoding loops of lib/util/basen.h, each proved to compute the
 text, respectively the bytes, that BaseN defines.
 */
module BaseNCodec {
  import opened Numbers
  import opened BaseNBits
  import opened BaseN

  // --- encoding ---------------------------------------------------------------------

  function LettersOf(codec: Codec, bits: seq<bool>): string {
    Letters(codec, GroupsOf(codec, bits))
  }

  lemma ValueInRange(codec: Codec, v: nat)
    requires v < Pow2(codec.GroupLength())
    ensures v < codec.Size()
  {
    codec.SizeIsPower();
  }

  /** A whole group in front. */
  lemma NextLetter(codec: Codec, v: nat, rest: seq<bool>)
    requires v < Pow2(codec.GroupLength()) && rest != []
    ensures v < codec.Size()
    ensures LettersOf(codec, BitsOf(v, codec.GroupLength()) + rest) == [codec.Letter(v)] + LettersOf(codec, rest)
  {
    hide BitsOf, Number, Codec.Letter, Codec.Size, Codec.GroupLength, Pow2;
    ValueInRange(codec, v);
    var n := codec.GroupLength();
    NumberOfBits(v, n);
    var bits := BitsOf(v, n) + rest;
    assert bits[..n] == BitsOf(v, n) && bits[n..] == rest;
    assert GroupsOf(codec, bits) == [v] + GroupsOf(codec, rest);
    assert GroupsOf(codec, bits)[1..] == GroupsOf(codec, rest);
  }

  /** The last group, filled up with k zeros. */
  lemma LastLetter(codec: Codec, v: nat, bits: seq<bool>, k: nat)
    requires v < Pow2(codec.GroupLength()) && bits != []
    requires BitsOf(v, codec.GroupLength()) == bits + Zeros(k)
    ensures v < codec.Size() && LettersOf(codec, bits) == [codec.Letter(v)]
  {
    hide BitsOf, Number, Codec.Letter, Codec.Size, Codec.GroupLength, Pow2, Zeros;
    ValueInRange(codec, v);
    var n := codec.GroupLength();
    NumberOfBits(v, n);
    assert GroupsOf(codec, bits) == [v];
    assert Letters(codec, []) == "";
  }

  lemma StreamStep(bytes: seq<Byte>, i: nat)
    requires i < |bytes|
    ensures Stream(bytes[i..]) == BitsOf(bytes[i], 8) + Stream(bytes[i + 1..])
  {
    hide BitsOf;
    assert bytes[i..][1..] == bytes[i + 1..];
  }

  /** The bits from a position in byte i on. */
  function From(bytes: seq<Byte>, i: nat, startBit: nat): (bits: seq<bool>)
    requires i < |bytes| && startBit <= 8
    ensures |bits| == 8 * (|bytes| - i) - startBit
  {
    Stream(bytes[i..])[startBit..]
  }

  lemma PartialStep(codec: Codec, bytes: seq<Byte>, i: nat, startBit: nat)
    requires i < |bytes| && startBit + codec.GroupLength() < 8
    ensures var v := ExtractPartial(bytes[i], startBit, codec.GroupLength());
            && v < codec.Size()
            && LettersOf(codec, From(bytes, i, startBit))
               == [codec.Letter(v)] + LettersOf(codec, From(bytes, i, startBit + codec.GroupLength()))
  {
    hide BitsOf, Codec.Letter, Codec.Size, Codec.GroupLength, Pow2, LettersOf, ExtractPartial, Stream;
    var n := codec.GroupLength();
    var v := ExtractPartial(bytes[i], startBit, n);
    PartialBits(bytes[i], startBit, n);
    StreamStep(bytes, i);
    var s := Stream(bytes[i..]);
    assert s[startBit..] == BitsOf(v, n) + s[startBit + n..];
    NextLetter(codec, v, s[startBit + n..]);
  }

  lemma OverlapStep(codec: Codec, bytes: seq<Byte>, i: nat, startBit: nat)
    requires i + 1 < |bytes| && startBit < 8 <= startBit + codec.GroupLength()
    ensures var v := ExtractOverlapping(bytes[i], bytes[i + 1], startBit, codec.GroupLength());
            && v < codec.Size()
            && LettersOf(codec, From(bytes, i, startBit))
               == [codec.Letter(v)] + LettersOf(codec, From(bytes, i + 1, startBit + codec.GroupLength() - 8))
  {
    hide BitsOf, Codec.Letter, Codec.Size, Pow2, LettersOf, ExtractOverlapping, Stream;
    var n := codec.GroupLength();
    var k := startBit + n - 8;
    var v := ExtractOverlapping(bytes[i], bytes[i + 1], startBit, n);
    OverlapBits(bytes[i], bytes[i + 1], startBit, n);
    StreamStep(bytes, i);
    StreamStep(bytes, i + 1);
    TwoBytes(BitsOf(bytes[i], 8), BitsOf(bytes[i + 1], 8), Stream(bytes[i + 2..]), startBit, k);
    NextLetter(codec, v, From(bytes, i + 1, k));
  }

  lemma TwoBytes(a: seq<bool>, b: seq<bool>, rest: seq<bool>, startBit: nat, k: nat)
    requires |a| == 8 && |b| == 8 && startBit <= 8 && k <= 8
    ensures (a + (b + rest))[startBit..] == (a[startBit..] + b[..k]) + (b + rest)[k..]
  {
  }

  lemma FinalStep(codec: Codec, bytes: seq<Byte>, i: nat, startBit: nat)
    requires i + 1 == |bytes| && startBit < 8 <= startBit + codec.GroupLength()
    ensures var v := ExtractOverlapping(bytes[i], 0, startBit, codec.GroupLength());
            v < codec.Size() && LettersOf(codec, From(bytes, i, startBit)) == [codec.Letter(v)]
  {
    hide BitsOf, Codec.Letter, Codec.Size, Pow2, LettersOf, ExtractOverlapping, Zeros;
    var n := codec.GroupLength();
    var k := startBit + n - 8;
    OverlapBits(bytes[i], 0, startBit, n);
    FrontZeros(k);
    StreamStep(bytes, i);
    assert Stream(bytes[i + 1..]) == [];
    assert From(bytes, i, startBit) == BitsOf(bytes[i], 8)[startBit..];
    LastLetter(codec, ExtractOverlapping(bytes[i], 0, startBit, n), From(bytes, i, startBit), k);
  }

  lemma FrontZeros(k: nat)
    requires k <= 8
    ensures BitsOf(0, 8)[..k] == Zeros(k)
  {
    BitsOfZero(8);
  }

  lemma FillStep(len: nat, n: nat)
    requires n > 0
    ensures len > n ==> Fill(len, n) == Fill(len - n, n)
    ensures 0 < len <= n ==> Fill(len, n) == n - len
  {
  }

  lemma ReachableStep(codec: Codec, startBit: nat)
    requires Reachable(codec, startBit)
    ensures Reachable(codec, (startBit + codec.GroupLength()) % 8)
    ensures startBit + codec.GroupLength() < 8 ==> (startBit + codec.GroupLength()) % 8 == startBit + codec.GroupLength()
    ensures startBit + codec.GroupLength() >= 8
        ==> (startBit + codec.GroupLength()) % 8 == startBit + codec.GroupLength() - 8
  {
  }

  /** Where the loop stands: what is still to be written, and where it will end. */
  ghost predicate ToWrite(codec: Codec, bytes: seq<Byte>, i: nat, startBit: nat, written: string) {
    && i <= |bytes|
    && Reachable(codec, startBit)
    && if i < |bytes| then
         && written + LettersOf(codec, From(bytes, i, startBit)) == LettersOf(codec, Stream(bytes))
         && Fill(|From(bytes, i, startBit)|, codec.GroupLength()) == Fill(8 * |bytes|, codec.GroupLength())
       else
         && written == LettersOf(codec, Stream(bytes))
         && startBit == Fill(8 * |bytes|, codec.GroupLength())
  }

  lemma StartToWrite(codec: Codec, bytes: seq<Byte>)
    ensures ToWrite(codec, bytes, 0, 0, "")
  {
    hide LettersOf, Stream;
    assert bytes[0..] == bytes;
    if bytes == [] {
      NoBits(codec, bytes);
    } else {
      assert From(bytes, 0, 0) == Stream(bytes);
      assert "" + LettersOf(codec, Stream(bytes)) == LettersOf(codec, Stream(bytes));
    }
  }

  lemma NoBits(codec: Codec, bytes: seq<Byte>)
    requires bytes == []
    ensures LettersOf(codec, Stream(bytes)) == ""
  {
  }

  lemma WritePartial(codec: Codec, bytes: seq<Byte>, i: nat, startBit: nat, written: string)
    requires ToWrite(codec, bytes, i, startBit, written) && i < |bytes| && startBit + codec.GroupLength() < 8
    ensures var v := ExtractPartial(bytes[i], startBit, codec.GroupLength());
            && v < codec.Size()
            && ToWrite(codec, bytes, i, startBit + codec.GroupLength(), written + [codec.Letter(v)])
  {
    hide LettersOf, ExtractPartial, Codec.Letter, Codec.Size, Codec.GroupLength, From, Fill, Reachable;
    PartialStep(codec, bytes, i, startBit);
    ReachableStep(codec, startBit);
    FillStep(|From(bytes, i, startBit)|, codec.GroupLength());
  }

  lemma WriteOverlap(codec: Codec, bytes: seq<Byte>, i: nat, startBit: nat, written: string)
    requires ToWrite(codec, bytes, i, startBit, written) && i < |bytes| && startBit + codec.GroupLength() >= 8
    requires startBit < 8
    ensures var v := ExtractOverlapping(bytes[i], if i + 1 < |bytes| then bytes[i + 1] else 0, startBit, codec.GroupLength());
            && v < codec.Size()
            && ToWrite(codec, bytes, i + 1, (startBit + codec.GroupLength()) % 8, written + [codec.Letter(v)])
  {
    hide *;
    if i + 1 < |bytes| {
      WriteInner(codec, bytes, i, startBit, written);
    } else {
      WriteFinal(codec, bytes, i, startBit, written);
    }
  }

  lemma WriteInner(codec: Codec, bytes: seq<Byte>, i: nat, startBit: nat, written: string)
    requires ToWrite(codec, bytes, i, startBit, written) && i + 1 < |bytes|
    requires startBit < 8 <= startBit + codec.GroupLength()
    ensures var v := ExtractOverlapping(bytes[i], bytes[i + 1], startBit, codec.GroupLength());
            && v < codec.Size()
            && ToWrite(codec, bytes, i + 1, (startBit + codec.GroupLength()) % 8, written + [codec.Letter(v)])
  {
    hide LettersOf, ExtractOverlapping, Codec.Letter, Codec.Size, Codec.GroupLength, From, Fill, Reachable, Stream;
    ReachableStep(codec, startBit);
    FillStep(|From(bytes, i, startBit)|, codec.GroupLength());
    OverlapStep(codec, bytes, i, startBit);
  }

  lemma WriteFinal(codec: Codec, bytes: seq<Byte>, i: nat, startBit: nat, written: string)
    requires ToWrite(codec, bytes, i, startBit, written) && i + 1 == |bytes|
    requires startBit < 8 <= startBit + codec.GroupLength()
    ensures var v := ExtractOverlapping(bytes[i], 0, startBit, codec.GroupLength());
            && v < codec.Size()
            && ToWrite(codec, bytes, i + 1, (startBit + codec.GroupLength()) % 8, written + [codec.Letter(v)])
  {
    hide LettersOf, ExtractOverlapping, Codec.Letter, Codec.Size, Codec.GroupLength, From, Fill, Reachable, Stream;
    ReachableStep(codec, startBit);
    FillStep(|From(bytes, i, startBit)|, codec.GroupLength());
    FinalStep(codec, bytes, i, startBit);
  }

  method Encode(codec: Codec, bytes: seq<Byte>) returns (out: string)
    ensures out == Text(codec, bytes)
  {
    hide LettersOf, ExtractPartial, ExtractOverlapping, Codec.Letter, Codec.GroupLength, From, Pads, ToWrite, Reachable, Equals;
    var n := codec.GroupLength();
    var i, startBit, hasBacklog, backlog: Byte := 0, 0, false, 0;
    out := "";
    StartToWrite(codec, bytes);
    while hasBacklog || i < |bytes|
      invariant 0 <= i <= |bytes| && startBit < 8
      invariant hasBacklog ==> i > 0 && backlog == bytes[i - 1] && startBit + n >= 8
      invariant ToWrite(codec, bytes, if hasBacklog then i - 1 else i, startBit, out)
      decreases |bytes| - i + (if hasBacklog then 1 else 0), 8 - startBit, !hasBacklog
    {
      if !hasBacklog {
        if startBit + n < 8 {
          var v := ExtractPartial(bytes[i], startBit, n);
          WritePartial(codec, bytes, i, startBit, out);
          out := out + [codec.Letter(v)];
          startBit := startBit + n;
        } else {
          backlog := bytes[i];
          i := i + 1;
          hasBacklog := true;
        }
      } else {
        var v := ExtractOverlapping(backlog, if i < |bytes| then bytes[i] else 0, startBit, n);
        WriteOverlap(codec, bytes, i - 1, startBit, out);
        out := out + [codec.Letter(v)];
        hasBacklog := false;
        startBit := (startBit + n) % 8;
      }
    }
    AllWritten(codec, bytes, startBit, out);
    out := PadOut(codec, startBit, out);
  }

  method PadOut(codec: Codec, position: nat, letters: string) returns (out: string)
    requires Reachable(codec, position)
    ensures out == letters + Equals(Pads(codec, position))
  {
    hide Pads, Reachable, Equals, Codec.GroupLength;
    var startBit: nat := position;
    out := letters;
    PadsStart(codec, startBit, out);
    while startBit != 0
      invariant Reachable(codec, startBit) && Pads(codec, startBit) <= Pads(codec, position)
      invariant out == letters + Equals(Pads(codec, position) - Pads(codec, startBit))
      decreases Pads(codec, startBit)
    {
      PadStep(codec, startBit);
      OneMore(letters, Pads(codec, position) - Pads(codec, startBit));
      out := out + "=";
      startBit := (startBit + codec.GroupLength()) % 8;
    }
    PadStep(codec, 0);
  }

  lemma AllWritten(codec: Codec, bytes: seq<Byte>, startBit: nat, written: string)
    requires ToWrite(codec, bytes, |bytes|, startBit, written)
    ensures Reachable(codec, startBit)
    ensures Text(codec, bytes) == written + Equals(Pads(codec, startBit))
  {
  }

  lemma PadsStart(codec: Codec, startBit: nat, out: string)
    ensures out == out + Equals(Pads(codec, startBit) - Pads(codec, startBit))
  {
  }

  lemma OneMore(s: string, k: nat)
    ensures s + Equals(k) + "=" == s + Equals(k + 1)
  {
    assert Equals(k) + "=" == Equals(k + 1);
  }

  // --- decoding ---------------------------------------------------------------------

  lemma {:induction false} NumberJoin(a: seq<bool>, b: seq<bool>)
    ensures Number(a + b) == Number(a) * Pow2(|b|) + Number(b)
    decreases |b|
  {
    if b == [] {
      assert a + b == a;
    } else {
      var b' := b[..|b| - 1];
      NumberJoin(a, b');
      assert (a + b)[..|a + b| - 1] == a + b';
      assert Number(a) * (2 * Pow2(|b'|)) == 2 * (Number(a) * Pow2(|b'|));
    }
  }

  lemma {:induction false} NumberOfZeros(k: nat)
    ensures Number(Zeros(k)) == 0
  {
    if k > 0 {
      assert Zeros(k)[..k - 1] == Zeros(k - 1);
      NumberOfZeros(k - 1);
    }
  }

  /** The bits read so far, at the top of the buffer. */
  function Buffered(pending: seq<bool>): (b: nat)
    requires |pending| <= 8
  {
    Number(pending) * Pow2(8 - |pending|)
  }

  lemma BufferedByte(pending: seq<bool>)
    requires |pending| <= 8
    ensures Buffered(pending) == ByteAt(pending + Zeros(8 - |pending|))
  {
    hide Number, Zeros, Pow2;
    NumberJoin(pending, Zeros(8 - |pending|));
    NumberOfZeros(8 - |pending|);
  }

  lemma BufferedFull(pending: seq<bool>)
    requires |pending| == 8
    ensures Buffered(pending) == ByteAt(pending)
  {
    assert Number(pending) * 1 == Number(pending);
  }

  /** A value that fits into the buffer is or-ed in behind the bits already there. */
  lemma FitsInBuffer(pending: seq<bool>, v: nat, n: nat)
    requires |pending| + n <= 8 && v < Pow2(n)
    ensures Or(Buffered(pending), v * Pow2(8 - |pending| - n) % 256) == Buffered(pending + BitsOf(v, n))
  {
    hide BitsOf, Number, Pow2, Or;
    var rest := 8 - |pending| - n;
    ShiftInside(v, n, rest);
    OrDisjoint(Number(pending), v * Pow2(rest), n + rest);
    NumberJoin(pending, BitsOf(v, n));
    NumberOfBits(v, n);
    Pow2Add(n, rest);
    Regroup(Number(pending), Pow2(n), v, Pow2(rest));
  }

  lemma Regroup(a: int, p: int, v: int, q: int)
    ensures a * (p * q) + v * q == (a * p + v) * q
  {
  }

  lemma ShiftInside(v: nat, n: nat, rest: nat)
    requires n + rest <= 8 && v < Pow2(n)
    ensures 0 <= v * Pow2(rest) < Pow2(n + rest) && v * Pow2(rest) % 256 == v * Pow2(rest)
  {
    hide Pow2;
    Pow2Add(n, rest);
    MulMono(v, Pow2(n) - 1, Pow2(rest));
    assert (Pow2(n) - 1) * Pow2(rest) == Pow2(n) * Pow2(rest) - Pow2(rest);
    Pow2Monotone(n + rest, 8);
    ByteRange();
    QuotientUnique(v * Pow2(rest), 256, 0, v * Pow2(rest));
  }

  /** The high bits of a value fill the buffer; k low bits are left over. */
  lemma FillsBuffer(pending: seq<bool>, v: nat, n: nat, k: nat)
    requires |pending| <= 8 && |pending| + n == 8 + k && k <= n && v < Pow2(n)
    ensures v / Pow2(k) >= 0
    ensures Or(Buffered(pending), v / Pow2(k)) == Buffered(pending + BitsOf(v, n)[..n - k])
  {
    hide BitsOf, Buffered, Pow2, Or;
    HighBits(v, n, k);
    HighInRange(v, n, k);
    CompletesBuffer(pending, v / Pow2(k), n - k);
  }

  lemma HighInRange(v: nat, n: nat, k: nat)
    requires k <= n && v < Pow2(n)
    ensures 0 <= v / Pow2(k) < Pow2(n - k)
  {
    hide Pow2;
    Pow2Add(n - k, k);
    QuotientBelow(v, Pow2(k), Pow2(n - k));
  }

  lemma CompletesBuffer(pending: seq<bool>, high: nat, m: nat)
    requires |pending| + m == 8 && high < Pow2(m)
    ensures Or(Buffered(pending), high) == Buffered(pending + BitsOf(high, m))
  {
    hide BitsOf, Number, Pow2, Or;
    OrDisjoint(Number(pending), high, m);
    NumberJoin(pending, BitsOf(high, m));
    NumberOfBits(high, m);
    Pow2Nothing();
  }

  lemma LeftOver(v: nat, n: nat, k: nat)
    requires k <= n && k <= 8
    ensures v * Pow2(8 - k) % 256 == Buffered(BitsOf(v, n)[n - k..])
  {
    hide BitsOf, Number, Pow2;
    HighBits(v, n, k);
    NumberOfBits(v % Pow2(k), k);
    Pow2Add(k, 8 - k);
    ByteRange();
    ShiftOut(v, Pow2(k), Pow2(8 - k));
  }

  /** What is still to be read: the output so far, then the bytes of these bits. */
  ghost predicate ToRead(codec: Codec, pending: seq<bool>, s: string, out: seq<Byte>, bits: seq<bool>) {
    var more := pending + GroupBits(Values(codec, s), codec.GroupLength());
    && |pending| < 8
    && out + Whole(more) == Whole(bits)
    && Left(more) == Left(bits)
  }

  predicate IsSpace(c: char) {
    c == ' ' || '\t' <= c <= '\r'
  }

  lemma SpaceIsNoDigit(codec: Codec, c: char)
    requires IsSpace(c) || c == '='
    ensures codec.Digit(c) == -1
  {
  }

  lemma Skip(codec: Codec, s: string, i: nat)
    requires i < |s| && codec.Digit(s[i]) == -1
    ensures Values(codec, s[i..]) == Values(codec, s[i + 1..])
  {
    assert s[i..][1..] == s[i + 1..];
  }

  lemma CountStep(s: string, i: nat)
    requires i < |s|
    ensures CountEquals(s[i..]) == (if s[i] == '=' then 1 else 0) + CountEquals(s[i + 1..])
  {
    assert s[i..][1..] == s[i + 1..];
  }

  lemma TakeValue(codec: Codec, s: string, i: nat, pending: seq<bool>)
    requires i < |s| && codec.Digit(s[i]) != -1
    ensures var n := codec.GroupLength();
            pending + GroupBits(Values(codec, s[i..]), n)
            == pending + BitsOf(codec.Digit(s[i]), n) + GroupBits(Values(codec, s[i + 1..]), n)
  {
    hide BitsOf, GroupBits, Codec.Digit, Codec.GroupLength;
    assert s[i..][1..] == s[i + 1..];
    MoreGroups(codec.Digit(s[i]), Values(codec, s[i + 1..]), codec.GroupLength());
    var a, b, c := pending, BitsOf(codec.Digit(s[i]), codec.GroupLength()),
      GroupBits(Values(codec, s[i + 1..]), codec.GroupLength());
    assert a + (b + c) == a + b + c;
  }

  lemma FlushByte(byte: seq<bool>, rest: seq<bool>)
    requires |byte| == 8
    ensures Whole(byte + rest) == [ByteAt(byte)] + Whole(rest) && Left(byte + rest) == Left(rest)
  {
    hide ByteAt;
    assert (byte + rest)[..8] == byte && (byte + rest)[8..] == rest;
  }

  /** The value fits into the current byte. */
  lemma ReadInside(codec: Codec, s: string, i: nat, pending: seq<bool>, out: seq<Byte>, bits: seq<bool>)
    requires i < |s| && codec.Digit(s[i]) != -1 && ToRead(codec, pending, s[i..], out, bits)
    requires |pending| + codec.GroupLength() <= 8
    ensures var next := pending + BitsOf(codec.Digit(s[i]), codec.GroupLength());
            if |next| == 8 then ToRead(codec, [], s[i + 1..], out + [ByteAt(next)], bits)
            else ToRead(codec, next, s[i + 1..], out, bits)
  {
    hide BitsOf, GroupBits, Codec.Digit, Codec.GroupLength, Whole, Left, ByteAt, Values;
    var next := pending + BitsOf(codec.Digit(s[i]), codec.GroupLength());
    var rest := GroupBits(Values(codec, s[i + 1..]), codec.GroupLength());
    TakeValue(codec, s, i, pending);
    if |next| == 8 {
      FlushByte(next, rest);
      assert [] + rest == rest;
      assert out + ([ByteAt(next)] + Whole(rest)) == out + [ByteAt(next)] + Whole(rest);
    }
  }

  /** The value spans the current byte and the next one. */
  lemma ReadAcross(codec: Codec, s: string, i: nat, pending: seq<bool>, out: seq<Byte>, bits: seq<bool>, k: nat)
    requires i < |s| && codec.Digit(s[i]) != -1 && ToRead(codec, pending, s[i..], out, bits)
    requires |pending| + codec.GroupLength() == 8 + k && k < codec.GroupLength()
    ensures var n := codec.GroupLength();
            var value := BitsOf(codec.Digit(s[i]), n);
            ToRead(codec, value[n - k..], s[i + 1..], out + [ByteAt(pending + value[..n - k])], bits)
  {
    hide BitsOf, GroupBits, Codec.Digit, Whole, Left, ByteAt, Values;
    var n := codec.GroupLength();
    var value := BitsOf(codec.Digit(s[i]), n);
    var byte, left := pending + value[..n - k], value[n - k..];
    var rest := GroupBits(Values(codec, s[i + 1..]), n);
    TakeValue(codec, s, i, pending);
    assert pending + value + rest == byte + (left + rest);
    FlushByte(byte, left + rest);
    assert out + ([ByteAt(byte)] + Whole(left + rest)) == out + [ByteAt(byte)] + Whole(left + rest);
  }

  lemma StartToRead(codec: Codec, s: string)
    ensures ToRead(codec, [], s, [], GroupBits(Values(codec, s), codec.GroupLength()))
  {
    hide Values, GroupBits, Whole, Left;
    var bits := GroupBits(Values(codec, s), codec.GroupLength());
    assert [] + bits == bits;
  }

  lemma AllRead(codec: Codec, pending: seq<bool>, out: seq<Byte>, bits: seq<bool>)
    requires ToRead(codec, pending, "", out, bits)
    ensures Whole(bits) == out && Left(bits) == pending && |pending| < 8
  {
    assert Values(codec, "") == [];
    assert pending + [] == pending;
    assert out + [] == out;
  }

  method Decode(codec: Codec, s: string) returns (out: seq<Byte>)
    ensures out == Bytes(codec, Values(codec, s), CountEquals(s))
  {
    hide Values, GroupBits, Whole, Left, ToRead, CountEquals, Buffered, Or, Pow2, BitsOf, Codec.Digit, ByteAt, IsSpace,
      Codec.GroupLength;
    var n := codec.GroupLength();
    ghost var bits := GroupBits(Values(codec, s), n);
    ghost var pending: seq<bool> := [];
    var outputCurrentBit, buffer, trailingEqual := 0, 0, 0;
    out := [];
    StartToRead(codec, s);
    EmptyBuffer();
    assert s[0..] == s;
    var i := 0;
    while i < |s|
      invariant 0 <= i <= |s|
      invariant |pending| == outputCurrentBit < 8 && buffer == Buffered(pending)
      invariant ToRead(codec, pending, s[i..], out, bits)
      invariant trailingEqual + CountEquals(s[i..]) == CountEquals(s)
    {
      CountStep(s, i);
      if s[i] == '=' {
        SpaceIsNoDigit(codec, s[i]);
        SkipOne(codec, s, i, pending, out, bits);
        trailingEqual := trailingEqual + 1;
        i := i + 1;
        continue;
      }
      if IsSpace(s[i]) {
        SpaceIsNoDigit(codec, s[i]);
        SkipOne(codec, s, i, pending, out, bits);
        i := i + 1;
        continue;
      }
      var value := codec.Digit(s[i]);
      if value == -1 {
        SkipOne(codec, s, i, pending, out, bits);
        i := i + 1;
        continue;
      }
      out, outputCurrentBit, buffer, pending := DecodeValue(codec, s, i, out, outputCurrentBit, buffer, pending, bits);
      i := i + 1;
    }
    assert s[i..] == "";
    AllRead(codec, pending, out, bits);
    LastCount();
    if outputCurrentBit != 0 {
      var trailingBits := trailingEqual * n + outputCurrentBit;
      if trailingBits % 8 != 0 {
        BufferedByte(pending);
        out := out + [buffer];
      }
    }
  }

  lemma EmptyBuffer()
    ensures Buffered([]) == 0
  {
    assert 0 * Pow2(8) == 0;
  }

  lemma LastCount()
    ensures CountEquals("") == 0
  {
  }

  lemma SkipOne(codec: Codec, s: string, i: nat, pending: seq<bool>, out: seq<Byte>, bits: seq<bool>)
    requires i < |s| && codec.Digit(s[i]) == -1 && ToRead(codec, pending, s[i..], out, bits)
    ensures ToRead(codec, pending, s[i + 1..], out, bits)
  {
    hide Values, Codec.Digit, GroupBits, Whole, Left;
    Skip(codec, s, i);
  }

  lemma DigitInRange(codec: Codec, c: char)
    requires codec.Digit(c) != -1
    ensures 0 <= codec.Digit(c) < Pow2(codec.GroupLength())
  {
    codec.SizeIsPower();
  }

  /** The part of the decoding loop that takes one value. */
  method DecodeValue(codec: Codec, s: string, i: nat, out: seq<Byte>, outputCurrentBit: nat, buffer: nat,
                     ghost pending: seq<bool>, ghost bits: seq<bool>)
    returns (out': seq<Byte>, bit': nat, buffer': nat, ghost pending': seq<bool>)
    requires i < |s| && codec.Digit(s[i]) != -1 && ToRead(codec, pending, s[i..], out, bits)
    requires |pending| == outputCurrentBit < 8 && buffer == Buffered(pending)
    ensures |pending'| == bit' < 8 && buffer' == Buffered(pending')
    ensures ToRead(codec, pending', s[i + 1..], out', bits)
  {
    hide Values, GroupBits, Whole, Left, ToRead, Buffered, Or, Pow2, BitsOf, Codec.Digit, ByteAt;
    var n := codec.GroupLength();
    DigitInRange(codec, s[i]);
    var value: nat := codec.Digit(s[i]);
    ghost var valueBits := BitsOf(value, n);
    var bitsInCurrentByte := (if outputCurrentBit + n <= 8 then outputCurrentBit + n else 8) - outputCurrentBit;
    if bitsInCurrentByte == n {
      ReadInside(codec, s, i, pending, out, bits);
      FitsInBuffer(pending, value, n);
      out', bit', buffer', pending' := out, outputCurrentBit + n,
        Or(buffer, value * Pow2(8 - outputCurrentBit - n) % 256), pending + valueBits;
      if bit' == 8 {
        BufferedFull(pending');
        EmptyBuffer();
        out', bit', buffer', pending' := out + [buffer'], 0, 0, [];
      }
    } else {
      var bitsInNextByte := n - bitsInCurrentByte;
      ReadAcross(codec, s, i, pending, out, bits, bitsInNextByte);
      FillsBuffer(pending, value, n, bitsInNextByte);
      BufferedFull(pending + valueBits[..n - bitsInNextByte]);
      out' := out + [Or(buffer, value / Pow2(bitsInNextByte))];
      LeftOver(value, n, bitsInNextByte);
      buffer' := value * Pow2(8 - bitsInNextByte) % 256;
      bit', pending' := bitsInNextByte, valueBits[n - bitsInNextByte..];
    }
  }

  /** Encoding and then decoding gives the bytes back. */
  method EncodeThenDecode(codec: Codec, bytes: seq<Byte>) returns (text: string, back: seq<Byte>)
    ensures back == bytes
    ensures |text| == EncodedSize(codec, |bytes|)
  {
    hide *;
    text := Encode(codec, bytes);
    TextLength(codec, bytes);
    back := Decode(codec, text);
    RoundTrip(codec, bytes);
  }
}
