/**
  The CRC-16 of the serial framing layer (crc and crcByte in
  tinyos3/packet/SerialProtocol.py): CCITT polynomial 0x1021, initial value 0,
  most significant bit first, no final XOR (the XMODEM variant, not the
  reflected FCS-16 of RFC 1662).
*/
module SerialCrc {

  /**
    One round of crcByte's inner loop, on the unmasked accumulator: if bit 15
    is set, shift left and XOR in the polynomial 0x1021, else shift left.
  */
  function Shift(c: bv32): bv32 {
    if c & 0x8000 == 0x8000 then (c << 1) ^ 0x1021 else c << 1
  }

  /** crcByte's `for i in range(0, 8)` loop: n rounds. */
  function Rounds(c: bv32, n: nat): bv32
    decreases n
  {
    if n == 0 then c else Rounds(Shift(c), n - 1)
  }

  /**
    crcByte: XOR the byte into the high half, run eight rounds, keep 16 bits.
    The source works on an unbounded integer; starting below 2^16 it never
    exceeds 24 bits, so 32-bit arithmetic computes the same value before the
    final mask. The 0..0xFFFF range of the result is its type.
  */
  function CrcByte(crc: bv16, b: bv8): (c: bv16) {
    (Rounds((crc as bv32) ^ ((b as bv32) << 8), 8) & 0xFFFF) as bv16
  }

  /** crc's loop as a fold from the left, started from an arbitrary accumulator. */
  function CrcFrom(acc: bv16, data: seq<bv8>): (c: bv16)
    decreases |data|
  {
    if data == [] then acc else CrcFrom(CrcByte(acc, data[0]), data[1..])
  }

  /** crc(data): the fold started from 0. */
  function Crc(data: seq<bv8>): (c: bv16) {
    CrcFrom(0, data)
  }

  // ---------------------------------------------------------------------------
  // Properties of the byte update.

  /** A round keeps the low 16 bits zero or non-zero: the polynomial has a constant term. */
  lemma ShiftNonzero(s: bv32)
    ensures (s & 0xFFFF == 0) == (Shift(s) & 0xFFFF == 0)
  {
  }

  lemma {:induction false} RoundsNonzero(s: bv32, n: nat)
    ensures (s & 0xFFFF == 0) == (Rounds(s, n) & 0xFFFF == 0)
    decreases n
  {
    if n > 0 {
      var d := Shift(s);
      ShiftNonzero(s);
      assert Rounds(s, n) == Rounds(d, n - 1);
      RoundsNonzero(d, n - 1);
    }
  }

  /** Feeding a zero byte keeps a zero register zero and a non-zero register non-zero. */
  lemma CrcByteZero(c: bv16)
    ensures (c == 0) == (CrcByte(c, 0) == 0)
  {
    var s := (c as bv32) ^ ((0 as bv32) << 8);
    assert (s & 0xFFFF == 0) == (c == 0);
    RoundsNonzero(s, 8);
  }

  /** From a clear register, a byte leaves it clear exactly when the byte is zero. */
  lemma CrcByteFromZero(b: bv8)
    ensures (b == 0) == (CrcByte(0, b) == 0)
  {
    var s := (0 as bv32) ^ ((b as bv32) << 8);
    assert (s & 0xFFFF == 0) == (b == 0);
    RoundsNonzero(s, 8);
  }

  /** The fold over a concatenation continues from the first part's value. */
  lemma {:induction false} CrcAppend(acc: bv16, d1: seq<bv8>, d2: seq<bv8>)
    ensures CrcFrom(acc, d1 + d2) == CrcFrom(CrcFrom(acc, d1), d2)
    decreases |d1|
  {
    if d1 == [] {
      assert d1 + d2 == d2;
    } else {
      assert (d1 + d2)[1..] == d1[1..] + d2;
      CrcAppend(CrcByte(acc, d1[0]), d1[1..], d2);
    }
  }

  /**
    Zero bytes in front of the data leave crc unchanged, so the check cannot
    notice them; a single byte has crc 0 only if it is 0.
  */
  lemma ZeroPrefix(zeros: seq<bv8>, data: seq<bv8>)
    requires forall i :: 0 <= i < |zeros| ==> zeros[i] == 0
    ensures Crc(zeros + data) == Crc(data)
    ensures forall b: bv8 :: Crc([b]) == 0 <==> b == 0
  {
    CrcAppend(0, zeros, data);
    ZerosKeepClear(zeros);
    forall b: bv8 ensures Crc([b]) == 0 <==> b == 0 {
      CrcByteFromZero(b);
      assert [b][1..] == [];
      assert Crc([b]) == CrcFrom(CrcByte(0, b), []);
    }
  }

  lemma {:induction false} ZerosKeepClear(zeros: seq<bv8>)
    requires forall i :: 0 <= i < |zeros| ==> zeros[i] == 0
    ensures CrcFrom(0, zeros) == 0
    decreases |zeros|
  {
    if zeros != [] {
      CrcByteZero(0);
      ZerosKeepClear(zeros[1..]);
    }
  }

  /** crc(d + [b]) == crcByte(crc(d), b): crc is a left fold of crcByte. */
  lemma CrcSnoc(acc: bv16, data: seq<bv8>, b: bv8)
    ensures CrcFrom(acc, data + [b]) == CrcByte(CrcFrom(acc, data), b)
  {
    CrcAppend(acc, data, [b]);
  }

  lemma CrcEmpty()
    ensures Crc([]) == 0
  {
  }

  /** The published check value of CRC-16/XMODEM: crc("123456789") == 0x31C3. */
  lemma CrcCheckValue()
    ensures Crc([0x31, 0x32, 0x33, 0x34, 0x35, 0x36, 0x37, 0x38, 0x39]) == 0x31C3
  {
    assert CrcByte(0x0000, 0x31) == 0x2672;
    assert CrcByte(0x2672, 0x32) == 0x20B5;
    assert CrcByte(0x20B5, 0x33) == 0x9752;
    assert CrcByte(0x9752, 0x34) == 0xD789;
    assert CrcByte(0xD789, 0x35) == 0x546C;
    assert CrcByte(0x546C, 0x36) == 0x20E4;
    assert CrcByte(0x20E4, 0x37) == 0x86D6;
    assert CrcByte(0x86D6, 0x38) == 0x9015;
    assert CrcByte(0x9015, 0x39) == 0x31C3;
  }

  lemma RoundsStep(c: bv32, n: nat)
    requires n > 0
    ensures Rounds(c, n) == Rounds(Shift(c), n - 1)
  {
  }

  /** crcByte's `for i in range(0, 8)` loop on the accumulator. */
  method ShiftRounds(start: bv32) returns (c: bv32)
    ensures c == Rounds(start, 8)
  {
    c := start;
    var i := 0;
    while i < 8
      invariant 0 <= i <= 8
      invariant Rounds(c, 8 - i) == Rounds(start, 8)
    {
      RoundsStep(c, 8 - i);
      c := Shift(c);
      i := i + 1;
    }
  }

  /** crcByte: XOR the byte into the high half, run the rounds, mask to 16 bits. */
  method UpdateCrc(crc: bv16, b: bv8) returns (r: bv16)
    ensures r == CrcByte(crc, b)
  {
    var c := ShiftRounds((crc as bv32) ^ ((b as bv32) << 8));
    r := (c & 0xFFFF) as bv16;
  }

  /** crc's loop: accumulate crcByte over the data. */
  method ComputeCrc(data: seq<bv8>) returns (crc: bv16)
    ensures crc == Crc(data)
  {
    crc := 0;
    var i := 0;
    while i < |data|
      invariant 0 <= i <= |data|
      invariant crc == Crc(data[..i])
    {
      CrcSnoc(0, data[..i], data[i]);
      assert data[..i + 1] == data[..i] + [data[i]];
      crc := UpdateCrc(crc, data[i]);
      i := i + 1;
    }
    assert data[..i] == data;
  }
}
