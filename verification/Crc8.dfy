/**
 The checksum of the R2EC controller's messages and the check on a received
 one, 6.1 r2ec.c.
 */
module Crc8 {
  type Byte = bv8

  // --------------------------------------------------------------------
  // calc_crc8
  // --------------------------------------------------------------------

  predicate Top(x: Byte) {
    x & 0x80 != 0
  }

  function Double(x: Byte): Byte {
    x << 1
  }

  function Xor(a: Byte, b: Byte): Byte {
    a ^ b
  }

  function Shift(crc: Byte): Byte {
    if Top(crc) then Double(Xor(crc, 0xD5)) else Double(crc)
  }

  function Shifts(crc: Byte, n: nat): Byte {
    if n == 0 then crc else Shift(Shifts(crc, n - 1))
  }

  function Crc(crc: Byte, data: seq<Byte>): Byte {
    if data == [] then crc else Shifts(Crc(crc, data[..|data| - 1]) ^ data[|data| - 1], 8)
  }

  method CalcCrc8(data: seq<Byte>) returns (crc: Byte)
    ensures crc == Crc(0xFF, data)
  {
    hide Shift, Shifts;
    crc := 0xFF;
    for j := 0 to |data|
      invariant crc == Crc(0xFF, data[..j])
    {
      assert data[..j + 1][..j] == data[..j];
      crc := crc ^ data[j];
      ghost var start := crc;
      ShiftsNext(start, 0);
      for i := 0 to 8
        invariant crc == Shifts(start, i)
      {
        ShiftsNext(start, i);
        crc := if crc & 0x80 != 0 then (crc ^ 0xD5) << 1 else crc << 1;
      }
    }
    assert data[..|data|] == data;
  }

  lemma ShiftsNext(x: Byte, n: nat)
    ensures Shifts(x, 0) == x
    ensures Shifts(x, n + 1) == (if Shifts(x, n) & 0x80 != 0 then (Shifts(x, n) ^ 0xD5) << 1 else Shifts(x, n) << 1)
  {
  }

  // --------------------------------------------------------------------
  // One shift
  // --------------------------------------------------------------------

  predicate Even(x: Byte) {
    x & 1 == 0
  }

  lemma DoubleXor(a: Byte, b: Byte)
    ensures Double(Xor(a, b)) == Xor(Double(a), Double(b))
  {
  }

  lemma TopXor(a: Byte, b: Byte)
    ensures Top(Xor(a, b)) <==> Top(a) != Top(b)
  {
  }

  lemma Commute(a: Byte, b: Byte)
    ensures Xor(a, b) == Xor(b, a)
  {
  }

  lemma Associate(a: Byte, b: Byte, c: Byte)
    ensures Xor(Xor(a, b), c) == Xor(a, Xor(b, c))
  {
  }

  lemma XorZero(x: Byte, y: Byte)
    ensures Xor(x, 0) == x && Xor(0, x) == x
    ensures Xor(x, y) == 0 <==> x == y
  {
  }

  lemma XorDifference(c: Byte, d: Byte, x: Byte, y: Byte)
    ensures Xor(Xor(c, x), Xor(d, y)) == Xor(Xor(c, d), Xor(x, y))
  {
    hide Xor;
    Associate(c, x, Xor(d, y));
    Associate(x, d, y);
    Commute(x, d);
    Associate(d, x, y);
    Associate(c, d, Xor(x, y));
  }

  lemma ShiftLinear(a: Byte, b: Byte)
    ensures Shift(Xor(a, b)) == Xor(Shift(a), Shift(b))
  {
    hide Top, Double, Xor;
    TopXor(a, b);
    DoubleXor(a, b);
    DoubleXor(a, 0xD5);
    DoubleXor(b, 0xD5);
    DoubleXor(Xor(a, b), 0xD5);
    var p := Double(0xD5);
    XorDifference(Double(a), Double(b), p, 0);
    XorDifference(Double(a), Double(b), 0, p);
    XorDifference(Double(a), Double(b), p, p);
    XorZero(p, p);
    XorZero(Double(a), 0);
    XorZero(Double(b), 0);
    XorZero(Xor(Double(a), Double(b)), 0);
  }

  /** Only 0 and 0xD5 are shifted to nothing, and what is shifted is even. */
  lemma ShiftKernel(x: Byte)
    ensures Shift(x) == 0 <==> x == 0 || x == 0xD5
    ensures Even(Shift(x))
  {
  }

  lemma {:induction false} ShiftsLinear(a: Byte, b: Byte, n: nat)
    ensures Shifts(Xor(a, b), n) == Xor(Shifts(a, n), Shifts(b, n))
  {
    hide Shift, Xor;
    if n > 0 {
      ShiftsLinear(a, b, n - 1);
      ShiftLinear(Shifts(a, n - 1), Shifts(b, n - 1));
    }
  }

  lemma {:induction false} ShiftsKernel(x: Byte, n: nat)
    requires n > 0
    ensures Shifts(x, n) == 0 <==> x == 0 || x == 0xD5
    ensures Even(Shifts(x, n))
  {
    hide Shift, Even;
    ShiftKernel(Shifts(x, n - 1));
    if n > 1 {
      ShiftsKernel(x, n - 1);
      EvenIsNot(Shifts(x, n - 1));
    }
  }

  lemma EvenIsNot(x: Byte)
    requires Even(x)
    ensures x != 0xD5
  {
  }

  // --------------------------------------------------------------------
  // Whole messages
  // --------------------------------------------------------------------

  lemma CrcLast(crc: Byte, data: seq<Byte>)
    requires data != []
    ensures Crc(crc, data) == Shifts(Xor(Crc(crc, data[..|data| - 1]), data[|data| - 1]), 8)
  {
  }

  /** Every non-empty message has an even checksum. */
  lemma EvenChecksum(crc: Byte, data: seq<Byte>)
    requires data != []
    ensures Even(Crc(crc, data))
  {
    hide Shifts, Even, Xor, Crc;
    CrcLast(crc, data);
    ShiftsKernel(Xor(Crc(crc, data[..|data| - 1]), data[|data| - 1]), 8);
  }

  predicate DifferAt(a: seq<Byte>, b: seq<Byte>, k: nat) {
    |a| == |b| && k < |a| && a[k] != b[k] && forall j :: 0 <= j < |a| && j != k ==> a[j] == b[j]
  }

  lemma EvenDifference(c: Byte, d: Byte)
    requires Even(c) && Even(d)
    ensures Even(Xor(c, d))
  {
  }

  /** One more byte: when two states and two bytes lead to the same state. */
  lemma SameNext(c: Byte, d: Byte, x: Byte, y: Byte)
    ensures Shifts(Xor(c, x), 8) == Shifts(Xor(d, y), 8)
      <==> Xor(Xor(c, d), Xor(x, y)) == 0 || Xor(Xor(c, d), Xor(x, y)) == 0xD5
  {
    hide Shifts, Xor;
    ShiftsLinear(Xor(c, x), Xor(d, y), 8);
    XorDifference(c, d, x, y);
    XorZero(Shifts(Xor(c, x), 8), Shifts(Xor(d, y), 8));
    ShiftsKernel(Xor(Xor(c, d), Xor(x, y)), 8);
  }

  /** Two messages that differ in one byte have the same checksum exactly if the bytes differ by xor 0xD5. */
  lemma {:induction false} OneByteIff(crc: Byte, a: seq<Byte>, b: seq<Byte>, k: nat)
    requires DifferAt(a, b, k)
    ensures Crc(crc, a) == Crc(crc, b) <==> Xor(a[k], b[k]) == 0xD5
  {
    hide Shifts, Xor, Crc, Even;
    var n := |a| - 1;
    var c, d := Crc(crc, a[..n]), Crc(crc, b[..n]);
    CrcLast(crc, a);
    CrcLast(crc, b);
    SameNext(c, d, a[n], b[n]);
    XorZero(c, d);
    XorZero(a[n], b[n]);
    XorZero(Xor(a[n], b[n]), 0);
    XorZero(Xor(c, d), 0);
    if k == n {
      assert a[..n] == b[..n];
    } else {
      OneByteIff(crc, a[..n], b[..n], k);
      EvenChecksum(crc, a[..n]);
      EvenChecksum(crc, b[..n]);
      EvenDifference(c, d);
      EvenIsNot(Xor(c, d));
    }
  }

  /** Bytes that differ in a single bit. */
  predicate OneBit(x: Byte) {
    x != 0 && x & (x - 1) == 0
  }

  lemma SingleBitCaught(crc: Byte, a: seq<Byte>, b: seq<Byte>, k: nat)
    requires DifferAt(a, b, k) && OneBit(Xor(a[k], b[k]))
    ensures Crc(crc, a) != Crc(crc, b)
  {
    hide Crc, Xor;
    OneByteIff(crc, a, b, k);
  }

  // --------------------------------------------------------------------
  // The check on a received message
  // --------------------------------------------------------------------

  /** The length of a whole response. */
  const RESPONSE_LEN := 11

  const RESPONSE_BODY := RESPONSE_LEN - 1

  datatype Received = Message(data: seq<Byte>) | NoData | BadChecksum

  /** What stm32_read does with the bytes that arrived; the driver reads 1, 10 or 11 of them. */
  method CheckReceived(data: seq<Byte>) returns (r: Received)
    requires |data| == 1 || |data| >= 4
    ensures r == Check(data)
  {
    hide Crc;
    var len := |data|;
    if len == 1 || len == RESPONSE_LEN - 1 {
      return Message(data);
    }
    if data[3] == 0xFF {
      return NoData;
    }
    var checksum := CalcCrc8(data[..len - 1]);
    if checksum != data[len - 1] {
      if data[len - 1] == 0 {
        // The checksum slipped to the front: drop it and leave the last byte.
        return Message(data[1..] + [data[len - 1]]);
      }
      return BadChecksum;
    }
    return Message(data);
  }

  function Check(data: seq<Byte>): Received
    requires |data| == 1 || |data| >= 4
  {
    var n := |data| - 1;
    if n == 0 || n == RESPONSE_LEN - 2 then Message(data)
    else if data[3] == 0xFF then NoData
    else if Sealed(data) then Message(data)
    else if data[n] == 0 then Message(data[1..] + [data[n]])
    else BadChecksum
  }

  /** The last byte is the checksum of the others. */
  predicate Sealed(data: seq<Byte>)
    requires data != []
  {
    Crc(0xFF, data[..|data| - 1]) == data[|data| - 1]
  }

  /** A damaged byte keeps a message sealed exactly if it is a payload byte changed by xor 0xD5. */
  lemma DamageIff(sent: seq<Byte>, got: seq<Byte>, k: nat)
    requires DifferAt(sent, got, k) && Sealed(sent)
    ensures Sealed(got) <==> k < |sent| - 1 && Xor(sent[k], got[k]) == 0xD5
  {
    hide Crc, Xor;
    var n := |sent| - 1;
    if k < n {
      OneByteIff(0xFF, sent[..n], got[..n], k);
    } else {
      assert sent[..n] == got[..n];
    }
  }

  /** One damaged byte in a whole response is refused, unless it changed by xor 0xD5 or the last byte reads zero. */
  lemma DamageRefused(sent: seq<Byte>, got: seq<Byte>, k: nat)
    requires |sent| == RESPONSE_LEN && DifferAt(sent, got, k) && Sealed(sent)
    ensures Check(got).Message? <==>
      got[3] != 0xFF && (got[RESPONSE_LEN - 1] == 0 || (k < RESPONSE_LEN - 1 && Xor(sent[k], got[k]) == 0xD5))
  {
    hide Crc, Sealed, Xor;
    DamageIff(sent, got, k);
  }

  /** A sealed message is handed on as it is, and so is one of a length that is not checked. */
  lemma SealedPasses(data: seq<Byte>)
    requires |data| == 1 || |data| >= 4
    ensures |data| == 1 || |data| == 10 || (Sealed(data) && data[3] != 0xFF) ==> Check(data) == Message(data)
    ensures |data| != 1 && |data| != 10 ==> (Check(data) == NoData <==> data[3] == 0xFF)
  {
    hide Sealed;
  }

  /** The checksum starts from all ones: it is zero for the single bytes 0xFF and 0xFF xor 0xD5 only. */
  lemma ZeroSeals(b: Byte)
    ensures Sealed([b, 0]) <==> b == 0xFF || b == 0x2A
  {
    hide Shifts, Crc;
    assert [b, 0][..1] == [b] && [b][..0] == [];
    CrcLast(0xFF, [b]);
    CrcNothing(0xFF);
    ShiftsKernel(Xor(0xFF, b), 8);
  }

  lemma CrcNothing(crc: Byte)
    ensures Crc(crc, []) == crc
  {
  }

  /** When the checksum slipped to the front and the last byte is zero, the body is handed on without it. */
  lemma SlippedChecksum(c: Byte, body: seq<Byte>)
    requires |body| == RESPONSE_BODY && body[RESPONSE_BODY - 1] == 0 && body[2] != 0xFF && !Sealed([c] + body)
    ensures Check([c] + body) == Message(body + [0])
  {
    hide Sealed;
    var data := [c] + body;
    assert data[1..] == body && data[3] == body[2] && data[RESPONSE_BODY] == 0;
  }
}
