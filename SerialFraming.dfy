/**
  The HDLC-like framing of tinyos3/packet/SerialProtocol.py: byte stuffing
  (escape), the frame encoder of writeFramedPacket, and readFramedPacket's
  byte-at-a-time receiver as a function of the reader state and the input
  stream.
*/
module SerialFraming {
  import Wrappers
  import opened SerialCrc

  /** HDLC_FLAG_BYTE, the frame delimiter. */
  const FLAG: bv8 := 0x7E
  /** HDLC_CTLESC_BYTE, the escape byte. */
  const ESC: bv8 := 0x7D
  /** The largest count of unescaped bytes the receiver accepts. */
  const MTU: nat := 256

  // ---------------------------------------------------------------------------
  // Byte stuffing (section 4.2 of RFC 1662)

  /** escape: a flag or escape byte becomes ESC followed by the byte XOR 0x20. */
  function Escape(b: bv8): (e: seq<bv8>)
    ensures FLAG !in e
    ensures b != FLAG && b != ESC ==> e == [b]
    ensures b == FLAG || b == ESC ==> e == [ESC, b ^ 0x20]
  {
    if b == FLAG || b == ESC then [ESC, b ^ 0x20] else [b]
  }

  /** The escapes of a byte sequence, concatenated. */
  function Stuff(s: seq<bv8>): (t: seq<bv8>)
    decreases |s|
  {
    if s == [] then [] else Escape(s[0]) + Stuff(s[1..])
  }

  /** The receiver's view of a stuffed sequence: drop each ESC and XOR the byte after it with 0x20. */
  function Unstuff(s: seq<bv8>): (r: Wrappers.Option<seq<bv8>>)
    decreases |s|
  {
    if s == [] then Wrappers.Some([])
    else if s[0] == ESC then
      if |s| < 2 then Wrappers.None
      else match Unstuff(s[2..]) {
        case None => Wrappers.None
        case Some(t) => Wrappers.Some([s[1] ^ 0x20] + t)
      }
    else match Unstuff(s[1..]) {
      case None => Wrappers.None
      case Some(t) => Wrappers.Some([s[0]] + t)
    }
  }

  lemma {:induction false} StuffAppend(s: seq<bv8>, t: seq<bv8>)
    ensures Stuff(s + t) == Stuff(s) + Stuff(t)
    decreases |s|
  {
    if s == [] {
      assert s + t == t;
    } else {
      assert (s + t)[1..] == s[1..] + t;
      StuffAppend(s[1..], t);
    }
  }

  /** A stuffed sequence contains no flag and is between one and two times as long. */
  lemma {:induction false} StuffShape(s: seq<bv8>)
    ensures FLAG !in Stuff(s)
    ensures |s| <= |Stuff(s)| <= 2 * |s|
    decreases |s|
  {
    if s != [] {
      StuffShape(s[1..]);
    }
  }

  /** Unstuffing undoes stuffing. */
  lemma {:induction false} UnstuffStuff(s: seq<bv8>)
    ensures Unstuff(Stuff(s)) == Wrappers.Some(s)
    decreases |s|
  {
    if s != [] {
      var e, rest := Escape(s[0]), Stuff(s[1..]);
      UnstuffStuff(s[1..]);
      if s[0] == FLAG || s[0] == ESC {
        assert (e + rest)[2..] == rest;
        assert s[0] ^ 0x20 ^ 0x20 == s[0];
      } else {
        assert (e + rest)[1..] == rest;
      }
      assert [s[0]] + s[1..] == s;
    }
  }

  /** Stuffing is injective: distinct byte sequences are sent differently. */
  lemma StuffInjective(s: seq<bv8>, t: seq<bv8>)
    requires Stuff(s) == Stuff(t)
    ensures s == t
  {
    UnstuffStuff(s);
    UnstuffStuff(t);
  }

  // ---------------------------------------------------------------------------
  // The frame encoder of writeFramedPacket

  lemma AppendAssoc<T>(a: seq<T>, b: seq<T>, c: seq<T>)
    ensures a + (b + c) == (a + b) + c
  {
  }

  /** crc & 0xFF, the CRC byte sent first. */
  function Lo(c: bv16): bv8 { (c & 0xFF) as bv8 }

  /** crc >> 8, the CRC byte sent second. */
  function Hi(c: bv16): bv8 { (c >> 8) as bv8 }

  /** The receiver's readCrc: the low byte ORed with the high byte shifted left by eight. */
  function Join(lo: bv8, hi: bv8): bv16 { (lo as bv16) | ((hi as bv16) << 8) }

  lemma JoinLoHi(c: bv16)
    ensures Join(Lo(c), Hi(c)) == c
  {
  }

  /** The unescaped contents of a frame: type, sequence number, data, then the CRC low byte first. */
  function Body(frameType: bv8, sn: bv8, data: seq<bv8>): (b: seq<bv8>) {
    var c := Crc([frameType, sn] + data);
    [frameType, sn] + data + [Lo(c), Hi(c)]
  }

  /** The last two bytes of a body hold the CRC of the bytes before them. */
  lemma BodyShape(frameType: bv8, sn: bv8, data: seq<bv8>)
    ensures var b := Body(frameType, sn, data);
      |b| == |data| + 4 && b[..|data| + 2] == [frameType, sn] + data &&
      Join(b[|data| + 2], b[|data| + 3]) == Crc([frameType, sn] + data)
  {
    JoinLoHi(Crc([frameType, sn] + data));
  }

  /** The bytes writeFramedPacket hands to the output stream. */
  function Frame(frameType: bv8, sn: bv8, data: seq<bv8>): (f: seq<bv8>) {
    [FLAG] + Stuff(Body(frameType, sn, data)) + [FLAG]
  }

  /** A frame starts and ends with a flag, has no other flag, and unstuffs to its body. */
  lemma FrameShape(frameType: bv8, sn: bv8, data: seq<bv8>)
    ensures var f := Frame(frameType, sn, data);
      |f| >= |data| + 6 && f[0] == FLAG && f[|f| - 1] == FLAG &&
      (forall i :: 0 < i < |f| - 1 ==> f[i] != FLAG) &&
      Unstuff(f[1..|f| - 1]) == Wrappers.Some(Body(frameType, sn, data))
  {
    var body := Body(frameType, sn, data);
    var f := Frame(frameType, sn, data);
    StuffShape(body);
    UnstuffStuff(body);
    assert f[1..|f| - 1] == Stuff(body);
  }

  /** The CRC of a frame covers the header bytes and then the data. */
  lemma FrameCrc(frameType: bv8, sn: bv8, data: seq<bv8>)
    ensures Crc([frameType, sn] + data) == CrcFrom(CrcByte(CrcByte(0, frameType), sn), data)
  {
    CrcAppend(0, [frameType, sn], data);
    CrcSnoc(0, [], frameType);
    CrcSnoc(0, [frameType], sn);
    assert [] + [frameType] == [frameType];
    assert [frameType] + [sn] == [frameType, sn];
  }

  /** The frame is the escaped header, the escaped data and the escaped CRC bytes between flags. */
  lemma FrameParts(frameType: bv8, sn: bv8, data: seq<bv8>)
    ensures var c := Crc([frameType, sn] + data);
      Frame(frameType, sn, data) ==
      [FLAG] + Escape(frameType) + Escape(sn) + Stuff(data) + Escape(Lo(c)) + Escape(Hi(c)) + [FLAG]
  {
    var c := Crc([frameType, sn] + data);
    var pre, sd, e1, e2 := Escape(frameType) + Escape(sn), Stuff(data), Escape(Lo(c)), Escape(Hi(c));
    assert Stuff(Body(frameType, sn, data)) == ((pre + sd) + e1) + e2 by {
      BodyStuffed(frameType, sn, data);
    }
    AppendAssoc([FLAG], (pre + sd) + e1, e2);
    AppendAssoc([FLAG], pre + sd, e1);
    AppendAssoc([FLAG], pre, sd);
    AppendAssoc([FLAG], Escape(frameType), Escape(sn));
  }

  lemma BodyStuffed(frameType: bv8, sn: bv8, data: seq<bv8>)
    ensures var c := Crc([frameType, sn] + data);
      Stuff(Body(frameType, sn, data)) ==
      (((Escape(frameType) + Escape(sn)) + Stuff(data)) + Escape(Lo(c))) + Escape(Hi(c))
  {
    var head := [frameType, sn] + data;
    var c := Crc(head);
    var lo, hi := Lo(c), Hi(c);
    assert Body(frameType, sn, data) == (head + [lo]) + [hi];
    StuffAppend(head + [lo], [hi]);
    StuffAppend(head, [lo]);
    StuffAppend([frameType, sn], data);
    assert [frameType, sn][1..] == [sn];
    assert Stuff([frameType, sn]) == Escape(frameType) + Escape(sn);
    assert Stuff([lo]) == Escape(lo);
    assert Stuff([hi]) == Escape(hi);
  }

  /** writeFramedPacket's encoding loop: accumulate the CRC and the escaped bytes. */
  method BuildFrame(frameType: bv8, sn: bv8, data: seq<bv8>) returns (frame: seq<bv8>)
    ensures frame == Frame(frameType, sn, data)
  {
    var crc: bv16 := 0;
    frame := [FLAG];
    crc := UpdateCrc(crc, frameType);
    frame := frame + Escape(frameType);
    crc := UpdateCrc(crc, sn);
    frame := frame + Escape(sn);
    ghost var start, header := crc, frame;
    var i := 0;
    while i < |data|
      invariant 0 <= i <= |data|
      invariant crc == CrcFrom(start, data[..i])
      invariant frame == header + Stuff(data[..i])
    {
      assert data[..i + 1] == data[..i] + [data[i]];
      CrcSnoc(start, data[..i], data[i]);
      StuffAppend(data[..i], [data[i]]);
      AppendAssoc(header, Stuff(data[..i]), Escape(data[i]));
      crc := UpdateCrc(crc, data[i]);
      frame := frame + Escape(data[i]);
      i := i + 1;
    }
    assert data[..i] == data;
    FrameCrc(frameType, sn, data);
    FrameParts(frameType, sn, data);
    frame := frame + Escape(Lo(crc));
    frame := frame + Escape(Hi(crc));
    frame := frame + [FLAG];
  }

  // ---------------------------------------------------------------------------
  // The receiver of readFramedPacket

  /**
    How a discarded frame treats the accumulated bytes. AsWritten is the code:
    resynchronisation (line 150) and a too-short frame (line 177) reset only
    the count, so old bytes stay at the front of the buffer. ClearOnDiscard also
    empties the buffer there, as the CRC-mismatch branch (line 195) does.
  */
  datatype Mode = AsWritten | ClearOnDiscard

  /**
    The receiver state: the inSync field and the locals count, escaped and
    receiveBuffer. Bytes are appended at the end of the buffer, but the packet
    and its CRC are read at the positions below count, and count can be
    shorter than the buffer.
  */
  datatype Reader = Reader(inSync: bool, count: nat, escaped: bool, buf: seq<bv8>)

  /** The state of a new call of readFramedPacket. */
  function Fresh(inSync: bool): Reader { Reader(inSync, 0, false, []) }

  /** The count never exceeds the number of bytes accumulated. */
  predicate Valid(r: Reader) { r.count <= |r.buf| }

  /** The buffer after a discarded frame. */
  function Discarded(m: Mode, buf: seq<bv8>): seq<bv8> {
    if m == AsWritten then buf else []
  }

  /** The CRC stored in the two bytes before count. */
  function TrailingCrc(r: Reader): bv16
    requires Valid(r) && r.count >= 2
  {
    Join(r.buf[r.count - 2], r.buf[r.count - 1])
  }

  datatype Received = Packet(packet: seq<bv8>) | Exhausted

  /**
    What a call returns (a packet, or the input ran out first), the receiver
    state at that point, the unread input, and the bytes written to the output
    stream while resynchronising, one entry per write call.
  */
  datatype Outcome = Outcome(result: Received, reader: Reader, rest: seq<bv8>, writes: seq<seq<bv8>>)

  /** Two flag writes per byte skipped while out of sync. */
  function Flags(n: nat): (w: seq<seq<bv8>>)
    ensures |w| == n && forall i :: 0 <= i < n ==> w[i] == [FLAG]
  {
    seq(n, _ => [FLAG])
  }

  function PrependWrites(w: seq<seq<bv8>>, o: Outcome): Outcome {
    o.(writes := w + o.writes)
  }

  /** What reading one byte does: the call returns a packet, or goes on from a new state. */
  datatype Step = Return(packet: seq<bv8>) | Next(reader: Reader, writes: seq<seq<bv8>>)

  /**
    Reading byte b. Out of sync, a flag restores sync and anything else is
    answered with two flag writes. In sync, an escaped byte is XORed with 0x20
    (an escaped flag loses sync), an escape byte sets escaped, a flag ends a
    frame, and any other byte is accumulated.
  */
  function Consume(m: Mode, r: Reader, b: bv8): (s: Step)
    requires Valid(r)
    ensures s.Next? ==> Valid(s.reader)
  {
    if !r.inSync then
      if b == FLAG then Next(Reader(true, 0, false, Discarded(m, r.buf)), [])
      else Next(r, [[FLAG], [FLAG]])
    else if r.escaped then
      if b == FLAG then Next(r.(inSync := false), [])
      else Next(Reader(true, r.count + 1, false, r.buf + [b ^ 0x20]), [])
    else if b == ESC then Next(r.(escaped := true), [])
    else if b == FLAG then
      if r.count < 4 then Next(Reader(true, 0, false, Discarded(m, r.buf)), [])
      else if TrailingCrc(r) == Crc(r.buf[..r.count - 2]) then Return(r.buf[..r.count - 2])
      else Next(Reader(true, 0, false, []), [])
    else Next(Reader(true, r.count + 1, false, r.buf + [b]), [])
  }

  /**
    readFramedPacket's loop: in sync with count at the MTU, sync is dropped
    before reading; otherwise one byte is read and consumed.
  */
  function Read(m: Mode, r: Reader, input: seq<bv8>): (o: Outcome)
    requires Valid(r)
    decreases |input|, if r.inSync then 1 else 0
  {
    if r.inSync && r.count >= MTU then Read(m, r.(inSync := false), input)
    else if input == [] then Outcome(Exhausted, r, [], [])
    else match Consume(m, r, input[0]) {
      case Return(p) => Outcome(Packet(p), r, input[1..], [])
      case Next(r', w) => PrependWrites(w, Read(m, r', input[1..]))
    }
  }

  // ---------------------------------------------------------------------------
  // Properties of the receiver

  /** In sync, a data byte is appended to the buffer and counted. */
  lemma ReadData(m: Mode, r: Reader, b: bv8, rest: seq<bv8>)
    requires Valid(r) && r.inSync && !r.escaped && r.count < MTU && b != FLAG && b != ESC
    ensures Read(m, r, [b] + rest) == Read(m, Reader(true, r.count + 1, false, r.buf + [b]), rest)
  {
    assert ([b] + rest)[1..] == rest;
  }

  /** In sync, an escape pair is appended to the buffer as the byte it stands for. */
  lemma ReadEscapePair(m: Mode, r: Reader, b: bv8, rest: seq<bv8>)
    requires Valid(r) && r.inSync && !r.escaped && r.count < MTU && (b == FLAG || b == ESC)
    ensures Read(m, r, [ESC, b ^ 0x20] + rest) == Read(m, Reader(true, r.count + 1, false, r.buf + [b]), rest)
  {
    var x := b ^ 0x20;
    var input := [ESC, x] + rest;
    assert input[0] == ESC && input[1..] == [x] + rest;
    assert ([x] + rest)[1..] == rest;
    assert x != FLAG && x ^ 0x20 == b;
    assert Read(m, r, input) == Read(m, r.(escaped := true), [x] + rest);
  }

  /** The sequence facts behind one step of ReadStuffed. */
  lemma StuffedStep(k: nat, buf: seq<bv8>, u: seq<bv8>, rest: seq<bv8>)
    requires u != []
    ensures Stuff(u) + rest == Escape(u[0]) + (Stuff(u[1..]) + rest)
    ensures Reader(true, (k + 1) + |u[1..]|, false, (buf + [u[0]]) + u[1..]) == Reader(true, k + |u|, false, buf + u)
  {
    assert (buf + [u[0]]) + u[1..] == buf + u;
  }

  /** Reading the stuffed form of u while in sync appends u to the buffer and counts it. */
  lemma {:induction false} ReadStuffed(m: Mode, k: nat, buf: seq<bv8>, u: seq<bv8>, rest: seq<bv8>)
    requires k <= |buf| && k + |u| <= MTU
    ensures Read(m, Reader(true, k, false, buf), Stuff(u) + rest) ==
            Read(m, Reader(true, k + |u|, false, buf + u), rest)
    decreases |u|
  {
    if u == [] {
      assert Stuff(u) + rest == rest;
      assert buf + u == buf;
    } else {
      var b := u[0];
      var tail := Stuff(u[1..]) + rest;
      var r0 := Reader(true, k, false, buf);
      StuffedStep(k, buf, u, rest);
      if b == FLAG || b == ESC {
        ReadEscapePair(m, r0, b, tail);
      } else {
        ReadData(m, r0, b, tail);
      }
      ReadStuffed(m, k + 1, buf + [b], u[1..], rest);
    }
  }

  /** A flag at the start of a call, in or out of sync, leaves a new in-sync state. */
  lemma OpeningFlag(m: Mode, inSync: bool, rest: seq<bv8>)
    ensures Read(m, Fresh(inSync), [FLAG] + rest) == Read(m, Fresh(true), rest)
  {
    assert ([FLAG] + rest)[1..] == rest;
  }

  /** A flag that closes an in-sync frame with a matching CRC returns the packet. */
  lemma ClosingFlag(m: Mode, r: Reader, rest: seq<bv8>)
    requires Valid(r) && r.inSync && !r.escaped && 4 <= r.count < MTU
    requires TrailingCrc(r) == Crc(r.buf[..r.count - 2])
    ensures Read(m, r, [FLAG] + rest) == Outcome(Packet(r.buf[..r.count - 2]), r, rest, [])
  {
    assert ([FLAG] + rest)[1..] == rest;
  }

  /** A frame followed by more input, split at its flags. */
  lemma FrameInput(frameType: bv8, sn: bv8, data: seq<bv8>, rest: seq<bv8>)
    ensures Frame(frameType, sn, data) + rest ==
            [FLAG] + (Stuff(Body(frameType, sn, data)) + ([FLAG] + rest))
  {
  }

  /** The state after the stuffed body of a frame holds a matching CRC. */
  lemma BodyReader(frameType: bv8, sn: bv8, data: seq<bv8>)
    requires |data| + 4 < MTU
    ensures var r := Reader(true, |data| + 4, false, Body(frameType, sn, data));
      Valid(r) && r.buf[..r.count - 2] == [frameType, sn] + data &&
      TrailingCrc(r) == Crc(r.buf[..r.count - 2])
  {
    BodyShape(frameType, sn, data);
  }

  /**
    Round trip: a frame read by a new call yields its type, sequence number and
    data, whatever the sync state, provided the unescaped frame stays below the
    MTU (at most 251 data bytes).
  */
  lemma RoundTrip(m: Mode, inSync: bool, frameType: bv8, sn: bv8, data: seq<bv8>, rest: seq<bv8>)
    requires |data| + 4 < MTU
    ensures Read(m, Fresh(inSync), Frame(frameType, sn, data) + rest) ==
            Outcome(Packet([frameType, sn] + data), Reader(true, |data| + 4, false, Body(frameType, sn, data)), rest, [])
  {
    var body := Body(frameType, sn, data);
    FrameInput(frameType, sn, data, rest);
    OpeningFlag(m, inSync, Stuff(body) + ([FLAG] + rest));
    ReadBody(m, frameType, sn, data, rest);
  }

  /** After the opening flag: the stuffed body and the closing flag return the packet. */
  lemma ReadBody(m: Mode, frameType: bv8, sn: bv8, data: seq<bv8>, rest: seq<bv8>)
    requires |data| + 4 < MTU
    ensures Read(m, Fresh(true), Stuff(Body(frameType, sn, data)) + ([FLAG] + rest)) ==
            Outcome(Packet([frameType, sn] + data), Reader(true, |data| + 4, false, Body(frameType, sn, data)), rest, [])
  {
    var body := Body(frameType, sn, data);
    BodyShape(frameType, sn, data);
    ReadStuffed(m, 0, [], body, [FLAG] + rest);
    assert [] + body == body;
    BodyReader(frameType, sn, data);
    ClosingFlag(m, Reader(true, |data| + 4, false, body), rest);
  }

  /** The MTU bound is tight: 252 data bytes reach count 256 before the closing flag, and the frame is lost. */
  lemma MtuBoundary(m: Mode, inSync: bool, frameType: bv8, sn: bv8, data: seq<bv8>, rest: seq<bv8>)
    requires |data| + 4 == MTU
    ensures Read(m, Fresh(inSync), Frame(frameType, sn, data) + rest) ==
            Read(m, Reader(true, 0, false, Discarded(m, Body(frameType, sn, data))), rest)
  {
    var body := Body(frameType, sn, data);
    BodyShape(frameType, sn, data);
    FrameInput(frameType, sn, data, rest);
    OpeningFlag(m, inSync, Stuff(body) + ([FLAG] + rest));
    ReadStuffed(m, 0, [], body, [FLAG] + rest);
    assert [] + body == body;
    var r := Reader(true, MTU, false, body);
    assert Read(m, r, [FLAG] + rest) == Read(m, r.(inSync := false), [FLAG] + rest);
    assert ([FLAG] + rest)[1..] == rest;
  }

  /** A byte that makes the call return ends an in-sync frame of 4 to 255 bytes whose trailing CRC matches. */
  lemma ConsumeReturn(m: Mode, r: Reader, b: bv8)
    requires Valid(r) && Consume(m, r, b).Return? && (r.inSync ==> r.count < MTU)
    ensures r.inSync && 4 <= r.count < MTU && b == FLAG
    ensures Consume(m, r, b).packet == r.buf[..r.count - 2]
    ensures TrailingCrc(r) == Crc(Consume(m, r, b).packet)
  {
  }

  /** Every packet the receiver returns came from an in-sync frame of 4 to 255 bytes whose trailing CRC matches. */
  lemma {:induction false} PacketMatchesCrc(m: Mode, r: Reader, input: seq<bv8>)
    requires Valid(r)
    ensures var o := Read(m, r, input);
      Valid(o.reader) && |o.rest| <= |input| && o.rest == input[|input| - |o.rest|..] &&
      (o.result.Packet? ==>
        o.reader.inSync && 4 <= o.reader.count < MTU &&
        o.result.packet == o.reader.buf[..o.reader.count - 2] &&
        TrailingCrc(o.reader) == Crc(o.result.packet))
    decreases |input|, if r.inSync then 1 else 0
  {
    if r.inSync && r.count >= MTU {
      PacketMatchesCrc(m, r.(inSync := false), input);
    } else if input != [] {
      match Consume(m, r, input[0]) {
        case Return(p) =>
          ConsumeReturn(m, r, input[0]);
        case Next(r', w) =>
          PacketMatchesCrc(m, r', input[1..]);
      }
    }
  }

  /** A flag that ends a frame shorter than four bytes yields nothing and keeps sync. */
  lemma ShortFrameKeepsSync(m: Mode, r: Reader, rest: seq<bv8>)
    requires Valid(r) && r.inSync && !r.escaped && r.count < 4
    ensures Read(m, r, [FLAG] + rest) == Read(m, Reader(true, 0, false, Discarded(m, r.buf)), rest)
  {
    assert ([FLAG] + rest)[1..] == rest;
  }

  /** A flag that ends a frame whose CRC does not match yields nothing, keeps sync and empties the buffer. */
  lemma CrcMismatchKeepsSync(m: Mode, r: Reader, rest: seq<bv8>)
    requires Valid(r) && r.inSync && !r.escaped && 4 <= r.count < MTU
    requires TrailingCrc(r) != Crc(r.buf[..r.count - 2])
    ensures Read(m, r, [FLAG] + rest) == Read(m, Fresh(true), rest)
  {
    assert ([FLAG] + rest)[1..] == rest;
  }

  /** A flag right after an escape byte is a framing error: sync is lost. */
  lemma EscapedFlagLosesSync(m: Mode, r: Reader, rest: seq<bv8>)
    requires Valid(r) && r.inSync && r.escaped && r.count < MTU
    ensures Read(m, r, [FLAG] + rest) == Read(m, r.(inSync := false), rest)
  {
    assert ([FLAG] + rest)[1..] == rest;
  }

  /** Reaching MTU bytes loses sync before anything more is read. */
  lemma MtuLosesSync(m: Mode, r: Reader, input: seq<bv8>)
    requires Valid(r) && r.inSync && r.count >= MTU
    ensures Read(m, r, input) == Read(m, r.(inSync := false), input)
  {
  }

  /**
    Out of sync, every byte before the next flag is answered with two flag
    writes; the flag restores sync with count 0 and no pending escape.
  */
  lemma {:induction false} ResyncWrites(m: Mode, r: Reader, junk: seq<bv8>, rest: seq<bv8>)
    requires Valid(r) && !r.inSync && FLAG !in junk
    ensures Read(m, r, junk + [FLAG] + rest) ==
            PrependWrites(Flags(2 * |junk|), Read(m, Reader(true, 0, false, Discarded(m, r.buf)), rest))
    decreases |junk|
  {
    if junk == [] {
      assert junk + [FLAG] + rest == [FLAG] + rest;
      assert ([FLAG] + rest)[1..] == rest;
      assert Flags(0) == [];
    } else {
      var input := junk + [FLAG] + rest;
      assert input[1..] == junk[1..] + [FLAG] + rest;
      ResyncWrites(m, r, junk[1..], rest);
      assert Flags(2 * |junk|) == [[FLAG], [FLAG]] + Flags(2 * |junk[1..]|);
    }
  }

  /** Bytes other than flag and escape are sent as they are. */
  lemma {:induction false} StuffPlain(s: seq<bv8>)
    requires FLAG !in s && ESC !in s
    ensures Stuff(s) == s
    decreases |s|
  {
    if s != [] {
      StuffPlain(s[1..]);
      assert [s[0]] + s[1..] == s;
    }
  }

  // ---------------------------------------------------------------------------
  // The stale buffer

  /** The CRC values of the example below. */
  lemma ExampleCrcs()
    ensures Crc([0x45, 0x01]) == 0xE218
    ensures Crc([0x00, 0x45]) == 0x1861
  {
    assert CrcByte(0, 0x45) == 0x1861;
    assert CrcByte(0x1861, 0x01) == 0xE218;
    assert CrcByte(0, 0x00) == 0;
    assert Crc([0x45, 0x01]) == CrcByte(CrcByte(0, 0x45), 0x01);
    assert Crc([0x00, 0x45]) == CrcByte(CrcByte(0, 0x00), 0x45);
  }

  /** The body of the example frame: type 0x45, sequence number 1, no data. */
  lemma ExampleBody()
    ensures Body(0x45, 0x01, []) == [0x45, 0x01, 0x18, 0xE2]
  {
    var h: seq<bv8> := [0x45, 0x01];
    assert h + [] == h;
    ExampleCrcs();
    LoHiExample();
    assert Body(0x45, 0x01, []) == h + [] + [Lo(0xE218), Hi(0xE218)];
  }

  lemma LoHiExample()
    ensures Lo(0xE218) == 0x18 && Hi(0xE218) == 0xE2
  {
  }

  /** With one stale byte in front, the packet and its CRC are read one position too early, and the check fails. */
  lemma StaleMismatch()
    ensures var r := Reader(true, 4, false, [0x00] + Body(0x45, 0x01, []));
      TrailingCrc(r) != Crc(r.buf[..r.count - 2])
  {
    ExampleCrcs();
    ExampleBody();
    var r := Reader(true, 4, false, [0x00] + Body(0x45, 0x01, []));
    assert r.buf == [0x00, 0x45, 0x01, 0x18, 0xE2];
    assert r.buf[..r.count - 2] == [0x00, 0x45];
    assert TrailingCrc(r) == 0x1801;
  }

  /**
    Noise of up to three bytes in front of a frame is ended by the frame's
    opening flag as a short frame; as written its bytes stay in the buffer.
  */
  lemma NoiseDiscarded(m: Mode, noise: seq<bv8>, frameType: bv8, sn: bv8, data: seq<bv8>, rest: seq<bv8>)
    requires |noise| < 4 && FLAG !in noise && ESC !in noise
    ensures Read(m, Fresh(true), noise + Frame(frameType, sn, data) + rest) ==
            Read(m, Reader(true, 0, false, Discarded(m, noise)), Stuff(Body(frameType, sn, data)) + ([FLAG] + rest))
  {
    var tail := Stuff(Body(frameType, sn, data)) + ([FLAG] + rest);
    FrameInput(frameType, sn, data, rest);
    StuffPlain(noise);
    assert noise + Frame(frameType, sn, data) + rest == Stuff(noise) + ([FLAG] + tail);
    ReadStuffed(m, 0, [], noise, [FLAG] + tail);
    assert [] + noise == noise;
    ShortFrameKeepsSync(m, Reader(true, |noise|, false, noise), tail);
  }

  /** As written, the frame after the noise is accumulated behind the stale bytes. */
  lemma StalePrefix(noise: seq<bv8>, frameType: bv8, sn: bv8, data: seq<bv8>, rest: seq<bv8>)
    requires |noise| < 4 && FLAG !in noise && ESC !in noise
    requires |data| + 4 < MTU
    ensures Read(AsWritten, Fresh(true), noise + Frame(frameType, sn, data) + rest) ==
            Read(AsWritten, Reader(true, |data| + 4, false, noise + Body(frameType, sn, data)), [FLAG] + rest)
  {
    BodyShape(frameType, sn, data);
    NoiseDiscarded(AsWritten, noise, frameType, sn, data, rest);
    ReadStuffed(AsWritten, 0, noise, Body(frameType, sn, data), [FLAG] + rest);
  }

  /**
    As written, one noise byte in front of a frame loses the frame: the
    opening flag discards the one-byte frame but keeps its byte at the front of
    the buffer, and the CRC check of the frame then fails.
  */
  lemma StaleBufferLosesFrame()
    ensures Read(AsWritten, Fresh(true), [0x00] + Frame(0x45, 0x01, [])).result == Exhausted
  {
    StalePrefix([0x00], 0x45, 0x01, [], []);
    assert [0x00] + Frame(0x45, 0x01, []) + [] == [0x00] + Frame(0x45, 0x01, []);
    StaleMismatch();
    BodyShape(0x45, 0x01, []);
    CrcMismatchKeepsSync(AsWritten, Reader(true, 4, false, [0x00] + Body(0x45, 0x01, [])), []);
  }

  /**
    With the buffer cleared on a discarded frame, noise of up to three bytes
    in front of a frame is dropped at the frame's opening flag and the frame
    is read as if the noise had not been there.
  */
  lemma NoiseBeforeFrame(noise: seq<bv8>, frameType: bv8, sn: bv8, data: seq<bv8>, rest: seq<bv8>)
    requires |noise| < 4 && FLAG !in noise && ESC !in noise
    requires |data| + 4 < MTU
    ensures Read(ClearOnDiscard, Fresh(true), noise + Frame(frameType, sn, data) + rest) ==
            Read(ClearOnDiscard, Fresh(true), Frame(frameType, sn, data) + rest)
    ensures Read(ClearOnDiscard, Fresh(true), noise + Frame(frameType, sn, data) + rest) ==
            Outcome(Packet([frameType, sn] + data), Reader(true, |data| + 4, false, Body(frameType, sn, data)), rest, [])
  {
    NoiseDiscarded(ClearOnDiscard, noise, frameType, sn, data, rest);
    ReadBody(ClearOnDiscard, frameType, sn, data, rest);
    RoundTrip(ClearOnDiscard, true, frameType, sn, data, rest);
  }
}
