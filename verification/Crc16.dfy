/**
 CRCs of messages (lib/util/crc16.cpp): which changes they detect.
 */
module Crc16 {
  import opened Crc16Register

  /** The register after a message, from a given state. */
  function From(crc: bv16, message: seq<bv8>): bv16
    decreases |message|
  {
    if message == [] then crc else From(Step(crc, message[0]), message[1..])
  }

  function Crc(message: seq<bv8>): bv16 {
    From(0, message)
  }

  /** crc16. */
  method Compute(buf: seq<bv8>) returns (crc: bv16)
    ensures crc == Crc(buf)
  {
    hide Step;
    crc := 0;
    assert buf[0..] == buf;
    for counter := 0 to |buf|
      invariant From(crc, buf[counter..]) == Crc(buf)
    {
      assert buf[counter..][1..] == buf[counter + 1..];
      crc := Step(crc, buf[counter]);
    }
  }

  lemma {:induction false} FromAppend(crc: bv16, a: seq<bv8>, b: seq<bv8>)
    ensures From(crc, a + b) == From(From(crc, a), b)
    decreases |a|
  {
    hide Step;
    if a == [] {
      assert a + b == b;
    } else {
      assert (a + b)[1..] == a[1..] + b;
      FromAppend(Step(crc, a[0]), a[1..], b);
    }
  }

  /** Different registers stay different under the same bytes. */
  lemma {:induction false} FromInjective(x: bv16, y: bv16, message: seq<bv8>)
    requires From(x, message) == From(y, message)
    ensures x == y
    decreases |message|
  {
    hide Step;
    if message != [] {
      FromInjective(Step(x, message[0]), Step(y, message[0]), message[1..]);
      StepInjective(x, y, message[0]);
    }
  }

  lemma FromTwo(crc: bv16, a: bv8, b: bv8)
    ensures From(crc, [a, b]) == Step(Step(crc, a), b)
  {
    hide Step;
    assert [a, b][1..] == [b] && [b][1..] == [];
    assert From(Step(crc, a), [b]) == From(Step(Step(crc, a), b), []);
  }

  lemma CrcOfParts(before: seq<bv8>, a: bv8, b: bv8, after: seq<bv8>)
    ensures Crc(before + [a, b] + after) == From(Step(Step(Crc(before), a), b), after)
  {
    hide Step, From;
    FromAppend(0, before + [a, b], after);
    FromAppend(0, before, [a, b]);
    FromTwo(Crc(before), a, b);
  }

  /** A change confined to two adjacent bytes always changes the CRC. */
  lemma BurstDetected(before: seq<bv8>, a: bv8, b: bv8, c: bv8, d: bv8, after: seq<bv8>)
    requires a != c || b != d
    ensures Crc(before + [a, b] + after) != Crc(before + [c, d] + after)
  {
    hide Step, From, Crc;
    CrcOfParts(before, a, b, after);
    CrcOfParts(before, c, d, after);
    var x, y := Step(Step(Crc(before), a), b), Step(Step(Crc(before), c), d);
    if From(x, after) == From(y, after) {
      FromInjective(x, y, after);
      TwoStepsInjective(Crc(before), a, b, c, d);
    }
  }

  /** Two bytes bring the CRC to zero exactly when they are the message's own CRC, high byte first. */
  lemma OwnCrcGivesZero(message: seq<bv8>, a: bv8, b: bv8)
    ensures Crc(message + [a, b]) == 0 <==> a == HighByte(Crc(message)) && b == LowByte(Crc(message))
  {
    hide Step, HighByte, LowByte, Crc;
    var crc := Crc(message);
    CrcOfParts(message, a, b, []);
    assert message + [a, b] + [] == message + [a, b];
    OwnBytes(crc);
    if Crc(message + [a, b]) == 0 {
      TwoStepsInjective(crc, a, b, HighByte(crc), LowByte(crc));
    }
  }
}
