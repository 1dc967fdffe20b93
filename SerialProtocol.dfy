/**
  The SerialProtocol object of tinyos3/packet/SerialProtocol.py: the receive
  loop readFramedPacket over an input stream, the send path writePacket and
  writeFramedPacket with its acknowledgement check, and the classification of
  received frames that RXThread.run performs.

  The input stream is the sequence of bytes still to be read and the output
  stream is the log of write calls. The protocol identifiers of the Serial
  module are parameters; only their distinctness is used.
*/
module SerialProtocol {
  import opened Wrappers
  import opened SerialCrc
  import opened SerialFraming

  /** TX_ATTEMPT_LIMIT: how many times writePacket tries to send a packet. */
  const TX_ATTEMPT_LIMIT: nat := 1

  /** SERIAL_PROTO_ACK, SERIAL_PROTO_PACKET_ACK, SERIAL_PROTO_PACKET_NOACK and SERIAL_PROTO_PACKET_UNKNOWN. */
  datatype ProtoIds = ProtoIds(ack: bv8, packetAck: bv8, packetNoAck: bv8, unknown: bv8)

  predicate Distinct(ids: ProtoIds) {
    ids.ack != ids.packetAck && ids.ack != ids.packetNoAck && ids.ack != ids.unknown &&
    ids.packetAck != ids.packetNoAck && ids.packetAck != ids.unknown && ids.packetNoAck != ids.unknown
  }

  /** The acknowledgement check: the ack slot holds a non-empty packet whose first byte is the sequence number. */
  predicate AckMatches(lastAck: Option<seq<bv8>>, sn: bv8) {
    lastAck.Some? && |lastAck.value| > 0 && lastAck.value[0] == sn
  }

  /** Where the receiving thread stores a frame's payload. */
  datatype Slot = AckSlot(packet: seq<bv8>) | DataSlot(packet: seq<bv8>)

  /** What one received frame causes: an optional acknowledgement frame to write, and a slot update. */
  datatype RxAction = RxAction(reply: Option<seq<bv8>>, slot: Slot)

  /**
    RXThread.run's classification of a frame, as the code evidently intends:
    the type is the first byte; a frame that asks for an acknowledgement is
    answered with an ack frame carrying its sequence number, and its payload
    starts after the sequence number; an ack frame's payload (the
    acknowledged sequence number onwards) goes to the ack slot, everything
    else to the data slot.
  */
  function Classify(ids: ProtoIds, frame: seq<bv8>): (a: RxAction)
    requires |frame| >= 2
    ensures a.reply.Some? <==> frame[0] == ids.packetAck
    ensures a.reply.Some? ==> a.reply.value == Frame(ids.ack, frame[1], [])
    ensures Distinct(ids) ==> (a.slot.AckSlot? <==> frame[0] == ids.ack)
    ensures Distinct(ids) ==>
      a.slot.packet == (if frame[0] == ids.packetAck then frame[2..] else frame[1..])
  {
    var offset := if frame[0] == ids.packetAck then 2 else 1;
    var reply := if frame[0] == ids.packetAck then Some(Frame(ids.ack, frame[1], [])) else None;
    var packet := frame[offset..];
    RxAction(reply, if frame[0] == ids.ack then AckSlot(packet) else DataSlot(packet))
  }

  /**
    The acknowledgement Classify writes for a frame that asks for one is read
    by the other side as the ack type followed by the frame's sequence
    number, and classifying that stores exactly the sequence number in the
    ack slot, which then passes the acknowledgement check for it.
  */
  lemma ReplyAcknowledges(m: Mode, ids: ProtoIds, frame: seq<bv8>, inSync: bool, rest: seq<bv8>)
    requires |frame| >= 2 && Distinct(ids) && frame[0] == ids.packetAck
    ensures var reply := Classify(ids, frame).reply.value;
      Read(m, Fresh(inSync), reply + rest).result == Packet([ids.ack, frame[1]])
    ensures Classify(ids, [ids.ack, frame[1]]).slot == AckSlot([frame[1]])
    ensures AckMatches(Some([frame[1]]), frame[1])
  {
    RoundTrip(m, inSync, ids.ack, frame[1], [], rest);
    assert [ids.ack, frame[1]] + [] == [ids.ack, frame[1]];
    assert [ids.ack, frame[1]][1..] == [frame[1]];
  }

  /** The acknowledgement frame a classified frame asks to be written, if any. */
  function Replies(a: RxAction): (w: seq<seq<bv8>>)
    ensures |w| <= 1 && (w != [] <==> a.reply.Some?)
  {
    if a.reply.Some? then [a.reply.value] else []
  }

  /** What the receiving thread leaves behind: its writes to the output stream and the final value of inSync. */
  datatype RxOutcome = RxOutcome(writes: seq<seq<bv8>>, inSync: bool)

  /**
    RXThread.run (lines 69-101) with the classification as intended, over
    the whole input: frame after frame, what readFramedPacket writes while
    it resynchronises, then the acknowledgement the frame asks for, until
    the input runs out (IODone).
  */
  function RxLoop(m: Mode, ids: ProtoIds, inSync: bool, input: seq<bv8>): (o: RxOutcome)
    decreases |input|
  {
    var r := Read(m, Fresh(inSync), input);
    if r.result.Exhausted? then RxOutcome(r.writes, r.reader.inSync)
    else
      PacketConsumes(m, Fresh(inSync), input);
      var tail := RxLoop(m, ids, r.reader.inSync, r.rest);
      RxOutcome(r.writes + Replies(Classify(ids, r.result.packet)) + tail.writes, tail.inSync)
  }

  /**
    The receiving thread answers a well-formed frame with exactly the
    acknowledgement it asks for, writes nothing else for it, and is in sync
    afterwards, whatever its state before.
  */
  lemma RxFrame(m: Mode, ids: ProtoIds, inSync: bool, frameType: bv8, sn: bv8, data: seq<bv8>, rest: seq<bv8>)
    requires |data| + 4 < MTU
    ensures RxLoop(m, ids, inSync, Frame(frameType, sn, data) + rest) ==
      RxOutcome((if frameType == ids.packetAck then [Frame(ids.ack, sn, [])] else []) + RxLoop(m, ids, true, rest).writes,
                RxLoop(m, ids, true, rest).inSync)
  {
    RoundTrip(m, inSync, frameType, sn, data, rest);
    var packet := [frameType, sn] + data;
    assert packet[0] == frameType && packet[1] == sn;
    assert [] + Replies(Classify(ids, packet)) == Replies(Classify(ids, packet));
  }

  /** Received in sync, a run of well-formed frames is answered with one acknowledgement per frame that asks for one, in order. */
  lemma {:induction false} RxFrames(m: Mode, ids: ProtoIds, frames: seq<(bv8, bv8, seq<bv8>)>)
    requires forall i :: 0 <= i < |frames| ==> |frames[i].2| + 4 < MTU
    ensures RxLoop(m, ids, true, Concat(frames)) == RxOutcome(AcksFor(ids, frames), true)
    decreases |frames|
  {
    if frames == [] {
      assert RxLoop(m, ids, true, []) == RxOutcome([], true);
    } else {
      var (t, sn, data) := frames[0];
      RxFrame(m, ids, true, t, sn, data, Concat(frames[1..]));
      RxFrames(m, ids, frames[1..]);
    }
  }

  /** The bytes of a run of frames sent one after the other. */
  function Concat(frames: seq<(bv8, bv8, seq<bv8>)>): seq<bv8> {
    if frames == [] then [] else Frame(frames[0].0, frames[0].1, frames[0].2) + Concat(frames[1..])
  }

  /** The acknowledgements a run of frames asks for: one per frame of type packetAck, carrying its sequence number. */
  function AcksFor(ids: ProtoIds, frames: seq<(bv8, bv8, seq<bv8>)>): seq<seq<bv8>> {
    if frames == [] then []
    else (if frames[0].0 == ids.packetAck then [Frame(ids.ack, frames[0].1, [])] else []) + AcksFor(ids, frames[1..])
  }

  // ---------------------------------------------------------------------------
  // RXThread.run as written

  /**
    Python values seen by RXThread.run: frame[0] of a bytes object is an
    int; ord also takes a str or a bytes object.
  */
  datatype PyValue = PyInt(i: int) | PyStr(s: string) | PyBytes(b: seq<bv8>)

  /**
    The exceptions that end the receiving thread as written: the TypeErrors
    of ord and of a call with the wrong number of arguments, and the
    NoAckException of writeFramedPacket; only IODone is caught (line 94).
  */
  datatype RxFailure = OrdOfInt | WrongArgumentCount | NoAck

  /** ord accepts a str or a bytes object of length one, and raises TypeError on anything else. */
  function Ord(v: PyValue): (r: Result<int, RxFailure>)
    ensures v.PyInt? ==> r == Err(OrdOfInt)
    ensures r.Ok? ==> (v.PyStr? && |v.s| == 1 && r.value == v.s[0] as int) || (v.PyBytes? && |v.b| == 1 && r.value == v.b[0] as int)
  {
    if v.PyStr? && |v.s| == 1 then Ok(v.s[0] as int)
    else if v.PyBytes? && |v.b| == 1 then Ok(v.b[0] as int)
    else Err(OrdOfInt)
  }

  /**
    What a call of writeFramedPacket does when the receiving thread makes it:
    the frames it writes, what the ack slot holds afterwards, and the
    exception it raises, if any. The thread is itself the one that would
    fill the ack slot, so during the wait at line 237 nothing arrives.
  */
  datatype CallEffect = CallEffect(written: seq<seq<bv8>>, lastAck: Option<seq<bv8>>, failure: Option<RxFailure>)

  /**
    writeFramedPacket(frameType, sn, data) (lines 214-240) takes three
    arguments besides self: any other count raises TypeError before the
    body runs. With three, the encoded frame is written and then the ack
    slot `slot` is checked.
  */
  function CallWriteFramedPacket(argCount: nat, frameType: bv8, sn: bv8, data: seq<bv8>, slot: Option<seq<bv8>>): (e: CallEffect)
    ensures argCount != 3 ==> e.written == [] && e.lastAck == slot
    ensures argCount == 3 ==> e.written == [Frame(frameType, sn, data)]
    ensures e.failure.None? <==> argCount == 3 && AckMatches(slot, sn)
    ensures e.failure.None? ==> e.lastAck == None
  {
    if argCount != 3 then CallEffect([], slot, Some(WrongArgumentCount))
    else if AckMatches(slot, sn) then CallEffect([Frame(frameType, sn, data)], None, None)
    else CallEffect([Frame(frameType, sn, data)], slot, Some(NoAck))
  }

  /**
    Lines 73-90 once the frame type is known: the acknowledgement is sent
    with four arguments (the type, the sequence number, an empty payload and
    a stray 0).
  */
  function ClassifyTyped(ids: ProtoIds, frameType: int, frame: seq<bv8>, lastAck: Option<seq<bv8>>): (r: Result<RxAction, RxFailure>)
    requires |frame| >= 2
    ensures r.Err? <==> frameType == ids.packetAck as int
  {
    if frameType == ids.packetAck as int then
      var packet, ack := frame[2..], Frame(ids.ack, frame[1], []);
      var e := CallWriteFramedPacket(4, ids.ack, frame[1], [], lastAck);
      if e.failure.Some? then Err(e.failure.value)
      else Ok(RxAction(Some(ack), DataSlot(packet)))
    else Ok(RxAction(None, if frameType == ids.ack as int then AckSlot(frame[1..]) else DataSlot(frame[1..])))
  }

  /** RXThread.run's body as written: ord is applied to frame[0], an int. */
  function RxStepAsWritten(ids: ProtoIds, frame: seq<bv8>, lastAck: Option<seq<bv8>>): (r: Result<RxAction, RxFailure>)
    requires |frame| >= 2
  {
    match Ord(PyInt(frame[0] as int)) {
      case Ok(t) => ClassifyTyped(ids, t, frame, lastAck)
      case Err(e) => Err(e)
    }
  }

  /** As written, every received frame raises a TypeError at the ord call; none reaches a slot. */
  lemma RxAsWrittenAlwaysFails(ids: ProtoIds, frame: seq<bv8>, lastAck: Option<seq<bv8>>)
    requires |frame| >= 2
    ensures RxStepAsWritten(ids, frame, lastAck) == Err(OrdOfInt)
  {
  }

  /**
    With ord removed, a frame that asks for an acknowledgement still raises a
    TypeError at the four-argument call, so no acknowledgement is ever sent;
    the other frames are classified as intended.
  */
  lemma AckReplyAsWrittenFails(ids: ProtoIds, frame: seq<bv8>, lastAck: Option<seq<bv8>>)
    requires |frame| >= 2 && Distinct(ids)
    ensures ClassifyTyped(ids, frame[0] as int, frame, lastAck) == Err(WrongArgumentCount) <==> frame[0] == ids.packetAck
    ensures frame[0] != ids.packetAck ==> ClassifyTyped(ids, frame[0] as int, frame, lastAck) == Ok(Classify(ids, frame))
  {
    ToIntInjective(frame[0], ids.packetAck);
    ToIntInjective(frame[0], ids.ack);
  }

  /**
    Dropping the stray argument is not enough to answer a frame from the
    receiving thread: the three-argument call writes the ack frame and then
    waits for an acknowledgement of the sequence number it has just
    answered, which only this same thread could store. Unless the ack slot
    already holds one, NoAckException is raised and ends the thread. In
    particular it is raised whenever the slot is empty, as it is before any
    ack frame has arrived and after every acknowledgement writePacket used.
  */
  lemma ThreeArgReplyRaises(ids: ProtoIds, frame: seq<bv8>, lastAck: Option<seq<bv8>>)
    requires |frame| >= 2
    ensures var e := CallWriteFramedPacket(3, ids.ack, frame[1], [], lastAck);
      e.written == [Frame(ids.ack, frame[1], [])] &&
      (e.failure == Some(NoAck) <==> !AckMatches(lastAck, frame[1]))
    ensures CallWriteFramedPacket(3, ids.ack, frame[1], [], None).failure == Some(NoAck)
  {
  }

  lemma ToIntInjective(a: bv8, b: bv8)
    ensures (a as int == b as int) == (a == b)
  {
  }

  /**
    One byte read in sync by readFramedPacket (lines 162-199): the escape
    handling, the end of a frame with its length and CRC checks, and the
    accumulation, returning the packet or the new values of inSync, count,
    escaped and receiveBuffer.
  */
  method ReceiveByte(mode: Mode, count: nat, escaped: bool, buf: seq<bv8>, b: bv8) returns (step: Step)
    requires count <= |buf| && count < MTU
    ensures step == Consume(mode, Reader(true, count, escaped, buf), b)
  {
    var x := b;
    if escaped {
      if x == FLAG {
        return Next(Reader(false, count, escaped, buf), []);
      }
      x := x ^ 0x20;
    } else if x == ESC {
      return Next(Reader(true, count, true, buf), []);
    } else if x == FLAG {
      if count < 4 {
        return Next(Reader(true, 0, false, Discarded(mode, buf)), []);
      }
      var packet, crcOk := CheckFrame(buf, count);
      if crcOk {
        return Return(packet);
      }
      return Next(Reader(true, 0, false, []), []);
    }
    return Next(Reader(true, count + 1, false, buf + [x]), []);
  }

  /**
    Lines 180-187 of readFramedPacket: the packet is the accumulated bytes
    before the last two, which hold the CRC low byte first; the frame is good
    when that CRC equals the CRC computed over the packet.
  */
  method CheckFrame(buf: seq<bv8>, count: nat) returns (packet: seq<bv8>, ok: bool)
    requires 2 <= count <= |buf|
    ensures packet == buf[..count - 2] && |packet| == count - 2
    ensures ok <==> Join(buf[count - 2], buf[count - 1]) == Crc(packet)
  {
    packet := buf[..count - 2];
    var readCrc := Join(buf[count - 2], buf[count - 1]);
    var computedCrc := ComputeCrc(packet);
    ok := readCrc == computedCrc;
  }

  /** The sequence number after (seqNo + 1) % 256. */
  function NextSeqNo(seqNo: bv8): (n: bv8) {
    seqNo + 1
  }

  /** The one-byte sequence number counts modulo 256: 255 is followed by 0. */
  lemma NextSeqNoWraps(seqNo: bv8)
    ensures NextSeqNo(seqNo) as int == (seqNo as int + 1) % 256
  {
  }

  // ---------------------------------------------------------------------------
  // The protocol object

  class Protocol {
    const ids: ProtoIds
    /** AsWritten for the receiver as the code has it, ClearOnDiscard for the corrected one. */
    const mode: Mode
    var inSync: bool
    var seqNo: bv8
    /** The bytes the input stream has still to deliver. */
    var input: seq<bv8>
    /** Every write call to the output stream, in order. */
    var writes: seq<seq<bv8>>
    var lastAck: Option<seq<bv8>>
    var lastData: Option<seq<bv8>>

    /** __init__: out of sync, sequence number 0, both slots empty. */
    constructor (ids: ProtoIds, mode: Mode, input: seq<bv8>)
      ensures this.ids == ids && this.mode == mode && this.input == input
      ensures !inSync && seqNo == 0 && writes == [] && lastAck == None && lastData == None
    {
      this.ids := ids;
      this.mode := mode;
      this.input := input;
      inSync := false;
      seqNo := 0;
      writes := [];
      lastAck := None;
      lastData := None;
    }

    /**
      readFramedPacket: read bytes until a frame with a matching CRC ends, and
      return its type, sequence number and payload. Running out of input
      stands for the IODone the stream raises when it is closed.
    */
    method ReadFramedPacket() returns (result: Received)
      modifies this`inSync, this`input, this`writes
      ensures var o := Read(mode, Fresh(old(inSync)), old(input));
        result == o.result && inSync == o.reader.inSync && input == o.rest &&
        writes == old(writes) + o.writes
    {
      var count: nat := 0;
      var escaped := false;
      var buf: seq<bv8> := [];
      ghost var goal := Read(mode, Fresh(inSync), input);
      ghost var emitted: seq<seq<bv8>> := [];
      while true
        invariant count <= |buf|
        invariant writes == old(writes) + emitted
        invariant goal == PrependWrites(emitted, Read(mode, Reader(inSync, count, escaped, buf), input))
        decreases |input|, if inSync then 1 else 0
      {
        ghost var r := Reader(inSync, count, escaped, buf);
        if !inSync {
          var synced, w := Resynchronize(r);
          PrependTwice(emitted, w, Read(mode, Reader(true, 0, false, Discarded(mode, buf)), input));
          AppendAssoc(old(writes), emitted, w);
          emitted := emitted + w;
          if !synced {
            return Exhausted;
          }
          inSync := true;
          count := 0;
          escaped := false;
          buf := Discarded(mode, buf);
          continue;
        }
        if count >= MTU {
          inSync := false;
          continue;
        }
        if input == [] {
          ExhaustedStep(mode, r, emitted);
          return Exhausted;
        }
        var b := input[0];
        ConsumeStep(mode, r, input, emitted);
        input := input[1..];
        var step := ReceiveByte(mode, count, escaped, buf, b);
        match step {
          case Return(packet) =>
            return Packet(packet);
          case Next(next, _) =>
            inSync := next.inSync;
            count := next.count;
            escaped := next.escaped;
            buf := next.buf;
        }
      }
    }

    /**
      The resynchronisation loop of readFramedPacket (lines 141-153): every
      byte read before the next flag is answered with two flag writes. r is
      the state of the enclosing call; synced is false when the input runs
      out first.
    */
    method Resynchronize(ghost r: Reader) returns (synced: bool, ghost w: seq<seq<bv8>>)
      requires Valid(r) && !r.inSync
      modifies this`input, this`writes
      ensures writes == old(writes) + w
      ensures synced ==> |input| < |old(input)|
      ensures synced ==>
        Read(mode, r, old(input)) == PrependWrites(w, Read(mode, Reader(true, 0, false, Discarded(mode, r.buf)), input))
      ensures !synced ==> input == [] && Read(mode, r, old(input)) == Outcome(Exhausted, r, [], w)
    {
      w := [];
      while input != [] && input[0] != FLAG
        invariant writes == old(writes) + w
        invariant |input| <= |old(input)|
        invariant Read(mode, r, old(input)) == PrependWrites(w, Read(mode, r, input))
        decreases |input|
      {
        SkipStep(mode, r, input, w);
        writes := writes + [[FLAG]];
        writes := writes + [[FLAG]];
        w := w + [[FLAG], [FLAG]];
        input := input[1..];
      }
      if input == [] {
        ExhaustedStep(mode, r, w);
        return false, w;
      }
      ResyncStep(mode, r, input, w);
      input := input[1..];
      return true, w;
    }

    /**
      The acknowledgement check of writeFramedPacket (lines 236-240). arrived
      is what the receiving thread stored in the ack slot during the wait, if
      anything. The check passes only if the slot holds a non-empty packet
      that starts with sn, and then clears the slot; a false result stands for
      NoAckException.
    */
    method AwaitAck(sn: bv8, arrived: Option<seq<bv8>>) returns (acked: bool)
      modifies this`lastAck
      ensures var slot := if arrived.Some? then arrived else old(lastAck);
        acked == AckMatches(slot, sn) && lastAck == (if acked then None else slot)
    {
      if arrived.Some? {
        lastAck := arrived;
      }
      if lastAck.None? || |lastAck.value| == 0 || lastAck.value[0] != sn {
        return false;
      }
      lastAck := None;
      return true;
    }

    /**
      writeFramedPacket: one write of the encoded frame, then the
      acknowledgement check; the effect is that of a three-argument call on
      the ack slot as it stands after the wait.
    */
    method WriteFramedPacket(frameType: bv8, sn: bv8, data: seq<bv8>, arrived: Option<seq<bv8>>) returns (acked: bool)
      modifies this`writes, this`lastAck
      ensures writes == old(writes) + [Frame(frameType, sn, data)]
      ensures var slot := if arrived.Some? then arrived else old(lastAck);
        acked == AckMatches(slot, sn) && lastAck == (if acked then None else slot)
      ensures var e := CallWriteFramedPacket(3, frameType, sn, data, if arrived.Some? then arrived else old(lastAck));
        writes == old(writes) + e.written && lastAck == e.lastAck && (acked <==> e.failure.None?)
    {
      var frame := BuildFrame(frameType, sn, data);
      writes := writes + [frame];
      acked := AwaitAck(sn, arrived);
    }

    /**
      writePacket: advance the sequence number modulo 256 and try to send the
      packet TX_ATTEMPT_LIMIT times, stopping at the first acknowledged
      attempt; a missing acknowledgement is not passed on to the caller.
    */
    method WritePacket(data: seq<bv8>, arrived: Option<seq<bv8>>)
      modifies this`seqNo, this`writes, this`lastAck
      ensures seqNo == NextSeqNo(old(seqNo))
      ensures writes == old(writes) + [Frame(ids.packetAck, seqNo, data)]
      ensures var slot := if arrived.Some? then arrived else old(lastAck);
        lastAck == (if AckMatches(slot, seqNo) then None else slot)
    {
      var attemptsLeft := TX_ATTEMPT_LIMIT;
      seqNo := NextSeqNo(seqNo);
      while attemptsLeft > 0
        invariant attemptsLeft <= TX_ATTEMPT_LIMIT && seqNo == NextSeqNo(old(seqNo))
        invariant attemptsLeft == TX_ATTEMPT_LIMIT ==> writes == old(writes) && lastAck == old(lastAck)
        invariant attemptsLeft < TX_ATTEMPT_LIMIT ==>
          writes == old(writes) + [Frame(ids.packetAck, seqNo, data)] &&
          lastAck == (var slot := if arrived.Some? then arrived else old(lastAck);
                      if AckMatches(slot, seqNo) then None else slot)
        decreases attemptsLeft
      {
        attemptsLeft := attemptsLeft - 1;
        var acked := WriteFramedPacket(ids.packetAck, seqNo, data, arrived);
        if acked {
          break;
        }
      }
    }

    /** One frame handled by the receiving thread: the acknowledgement reply, then the slot update. */
    method Deliver(frame: seq<bv8>)
      requires |frame| >= 2
      modifies this`writes, this`lastAck, this`lastData
      ensures var a := Classify(ids, frame);
        writes == old(writes) + Replies(a) &&
        (a.slot.AckSlot? ==> lastAck == Some(a.slot.packet) && lastData == old(lastData)) &&
        (a.slot.DataSlot? ==> lastData == Some(a.slot.packet) && lastAck == old(lastAck))
    {
      var a := Classify(ids, frame);
      if a.reply.Some? {
        writes := writes + [a.reply.value];
      }
      match a.slot {
        case AckSlot(p) => lastAck := Some(p);
        case DataSlot(p) => lastData := Some(p);
      }
    }

    /** IODone reaches the receiving thread: both slots are emptied. */
    method RxDone()
      modifies this`lastAck, this`lastData
      ensures lastAck == None && lastData == None
    {
      lastAck := None;
      lastData := None;
    }

    /**
      RXThread.run with the classification as intended: read frames and
      deliver them until the input is used up, then empty both slots.
    */
    method RxRun()
      modifies this
      ensures var o := RxLoop(mode, ids, old(inSync), old(input));
        writes == old(writes) + o.writes && inSync == o.inSync
      ensures input == [] && lastAck == None && lastData == None
      ensures seqNo == old(seqNo)
    {
      ghost var emitted: seq<seq<bv8>> := [];
      while true
        invariant seqNo == old(seqNo)
        invariant writes == old(writes) + emitted
        invariant RxLoop(mode, ids, old(inSync), old(input)) ==
          RxOutcome(emitted + RxLoop(mode, ids, inSync, input).writes, RxLoop(mode, ids, inSync, input).inSync)
        decreases |input|
      {
        ghost var before, sync := input, inSync;
        ghost var w := writes;
        var r := ReadFramedPacket();
        ghost var o := Read(mode, Fresh(sync), before);
        if r.Exhausted? {
          ExhaustedUsesInput(mode, Fresh(sync), before);
          RxDone();
          AppendAssoc(old(writes), emitted, o.writes);
          emitted := emitted + o.writes;
          assert emitted + [] == emitted;
          return;
        }
        PacketConsumes(mode, Fresh(sync), before);
        Deliver(r.packet);
        ghost var reply := Replies(Classify(ids, r.packet));
        RxLoopStep(emitted, o.writes, reply, RxLoop(mode, ids, inSync, input).writes);
        AppendAssoc(old(writes), emitted, o.writes);
        AppendAssoc(old(writes), emitted + o.writes, reply);
        emitted := emitted + o.writes + reply;
      }
    }
  }

  // ---------------------------------------------------------------------------
  // Steps of the receive loop

  lemma RxLoopStep(emitted: seq<seq<bv8>>, read: seq<seq<bv8>>, reply: seq<seq<bv8>>, tail: seq<seq<bv8>>)
    ensures emitted + (read + reply + tail) == (emitted + read + reply) + tail
  {
  }

  lemma PrependTwice(a: seq<seq<bv8>>, b: seq<seq<bv8>>, o: SerialFraming.Outcome)
    ensures PrependWrites(a, PrependWrites(b, o)) == PrependWrites(a + b, o)
  {
    assert a + (b + o.writes) == (a + b) + o.writes;
  }

  /** At the end of the input the call stops with what it has written. */
  lemma ExhaustedStep(m: Mode, r: Reader, emitted: seq<seq<bv8>>)
    requires Valid(r) && !(r.inSync && r.count >= MTU)
    ensures PrependWrites(emitted, Read(m, r, [])) == Outcome(Exhausted, r, [], emitted)
  {
    assert emitted + [] == emitted;
  }

  /** Out of sync, a byte other than the flag is answered with two flag writes. */
  lemma SkipStep(m: Mode, r: Reader, input: seq<bv8>, emitted: seq<seq<bv8>>)
    requires Valid(r) && !r.inSync && input != [] && input[0] != FLAG
    ensures PrependWrites(emitted, Read(m, r, input)) ==
            PrependWrites(emitted + [[FLAG], [FLAG]], Read(m, r, input[1..]))
  {
    PrependTwice(emitted, [[FLAG], [FLAG]], Read(m, r, input[1..]));
  }

  /** Out of sync, the flag restores sync with count 0 and no escape pending; as written the buffer stays. */
  lemma ResyncStep(m: Mode, r: Reader, input: seq<bv8>, emitted: seq<seq<bv8>>)
    requires Valid(r) && !r.inSync && input != [] && input[0] == FLAG
    ensures PrependWrites(emitted, Read(m, r, input)) ==
            PrependWrites(emitted, Read(m, Reader(true, 0, false, Discarded(m, r.buf)), input[1..]))
  {
    PrependTwice(emitted, [], Read(m, Reader(true, 0, false, Discarded(m, r.buf)), input[1..]));
    assert emitted + [] == emitted;
  }

  /** In sync below the MTU, the next byte is consumed as Consume says; in sync nothing is written. */
  lemma ConsumeStep(m: Mode, r: Reader, input: seq<bv8>, emitted: seq<seq<bv8>>)
    requires Valid(r) && r.inSync && r.count < MTU && input != []
    ensures var s := Consume(m, r, input[0]);
      (s.Return? ==> PrependWrites(emitted, Read(m, r, input)) == Outcome(Packet(s.packet), r, input[1..], emitted)) &&
      (s.Next? ==> PrependWrites(emitted, Read(m, r, input)) == PrependWrites(emitted, Read(m, s.reader, input[1..])))
  {
    InSyncWritesNothing(m, r, input[0]);
    match Consume(m, r, input[0]) {
      case Return(p) =>
        assert Read(m, r, input) == Outcome(Packet(p), r, input[1..], []);
        assert emitted + [] == emitted;
      case Next(r', w) =>
        assert Read(m, r, input) == PrependWrites(w, Read(m, r', input[1..]));
        assert [] + Read(m, r', input[1..]).writes == Read(m, r', input[1..]).writes;
    }
  }

  /** In sync, reading a byte writes nothing. */
  lemma InSyncWritesNothing(m: Mode, r: Reader, b: bv8)
    requires Valid(r) && r.inSync
    ensures Consume(m, r, b).Next? ==> Consume(m, r, b).writes == []
  {
  }

  /** A call that runs out of input has read all of it. */
  lemma {:induction false} ExhaustedUsesInput(m: Mode, r: Reader, input: seq<bv8>)
    requires Valid(r) && Read(m, r, input).result.Exhausted?
    ensures Read(m, r, input).rest == []
    decreases |input|, if r.inSync then 1 else 0
  {
    if r.inSync && r.count >= MTU {
      ExhaustedUsesInput(m, r.(inSync := false), input);
    } else if input != [] {
      match Consume(m, r, input[0]) {
        case Return(p) =>
        case Next(r', w) => ExhaustedUsesInput(m, r', input[1..]);
      }
    }
  }

  /** A returned packet has at least two bytes, and its closing flag has been consumed. */
  lemma {:induction false} PacketConsumes(m: Mode, r: Reader, input: seq<bv8>)
    requires Valid(r) && Read(m, r, input).result.Packet?
    ensures |Read(m, r, input).rest| < |input|
    ensures |Read(m, r, input).result.packet| >= 2
    decreases |input|, if r.inSync then 1 else 0
  {
    if r.inSync && r.count >= MTU {
      PacketConsumes(m, r.(inSync := false), input);
    } else if input != [] {
      match Consume(m, r, input[0]) {
        case Return(p) =>
          ConsumeReturn(m, r, input[0]);
        case Next(r', w) =>
          PacketConsumes(m, r', input[1..]);
      }
    }
  }
}
