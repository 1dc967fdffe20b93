# tinyos3 serial stack in Dafny

This project models the core of the `tinyos3` Python package, the host side of the TinyOS mote serial protocol, and proves properties of that model:

- **The serial framing protocol** (`tinyos3/packet/SerialProtocol.py`):
  - the CRC-16 (polynomial 0x1021, start value 0);
  - byte escaping of the flag 0x7E and the escape byte 0x7D;
  - the frame encoder `writeFramedPacket` and its acknowledgement check;
  - the byte-at-a-time receiver `readFramedPacket`, with its resynchronisation, MTU, short-frame and CRC rules;
  - the sequence number and attempt loop of `writePacket`;
  - the frame classification done by the receiving thread `RXThread.run`.
- **MoteIF** (`tinyos3/message/MoteIF.py`):
  - the listener registry;
  - dispatching a received packet to every interested listener;
  - building an outgoing packet;
  - parsing a source name `scheme@arguments`.
- **PacketSource** (`tinyos3/packet/PacketSource.py`): the life cycle of a source, as follows.
  - It retries `open`.
  - It releases its readiness semaphore.
  - It reads and dispatches packets until done.
  - It then calls `close` and `finish`.
- **Singleton** (`tinyos3/utils/Singleton.py`):
  - per-class instance slots, seen through the bases;
  - the argument rules of `getInstance`;
  - `_forgetClassInstanceReferenceForTesting`;
  - the metaclass checks.

Files:

- `Wrappers.dfy`: Option, Result and Outcome.
- `SerialCrc.dfy`: `crcByte` and `crc` as functions, and loop methods proved equal to them.
- `SerialFraming.dfy`: the escape function and the frame encoder, plus `Read`, a specification of the receiver.
  - `Read` has a `Mode`. `AsWritten` is the code. `ClearOnDiscard` is the receiver that also clears the buffer when a short frame or resynchronisation discards bytes.
- `SerialProtocol.dfy`: the `Protocol` class.
  - Its fields are `inSync`, `seqNo`, the unread input, the log of output writes, and the `lastAck`/`lastData` slots.
  - `ReadFramedPacket` is a loop proved equal to `Read` in the class's mode.
  - It also holds the frame classification, intended and as written.
- `MoteIF.dfy`: the header layout, the `Registry` class of listeners, outgoing packets and the source name parser.
- `PacketSource.dfy`: the `Source` class with its semaphore count and a log of the calls it makes.
  - What `open`, `isDone` and `readPacket` do is given as scripts, one entry per call.
  - A run that uses up a script stops with the status `OutOfScript`.
- `Singleton.dfy`: the `Runtime` class, which holds the defined classes, their slots and the identity of the next object.
  - Pure functions specify `getInstance` and forgetting; its methods are proved equal to them.

Streams are modelled as follows:

- an input stream is the sequence of bytes it has still to deliver;
- running out of input stands for the `IODone` a closed stream raises;
- an output stream is the list of its write calls.

The ack-wait in `writeFramedPacket` is a parameter, `arrived`: what the receiving thread stored in the ack slot during the 0.25 s wait. `arrived` can only name a packet that arrived; it cannot express the receiving thread clearing `lastAck` to `None` on `IODone` during the wait (lines 95-97).

Where the code and its description differ, the model follows the code:

- **Initial `receiveBuffer`.** `readFramedPacket` starts it as the text `""` (line 138) and appends bytes to it (line 198). Under Python 3 that append would raise a TypeError. The buffer is modelled as a byte sequence, which is what the surrounding code intends.
- **Largest payload.** The check `count >= MTU` comes before the closing flag is read. So a frame round-trips only when its payload has at most 251 bytes, not 252. A 252-byte payload fills the 256-byte MTU, sync is dropped and the frame is lost (`SerialFraming.MtuBoundary`).
- **Acknowledgement failures.** `writePacket` makes one attempt (TX_ATTEMPT_LIMIT = 1) and swallows `NoAckException` (lines 211-212), so a missing acknowledgement never reaches its caller.

## Model

| member | source | states |
|---|---|---|
| SerialCrc.CrcByte | tinyos3/packet/SerialProtocol.py:258-267 | the definition of `crcByte`: the byte is xored into the high half, eight shift-and-xor rounds with 0x1021 follow, and 16 bits are kept; its properties are the rows below and SerialCrc.CrcCheckValue |
| SerialCrc.CrcFrom | tinyos3/packet/SerialProtocol.py:249-255 | the loop of `crc` as a left fold of `crcByte` from a given register value; CrcAppend and CrcSnoc state what it folds |
| SerialCrc.Crc | tinyos3/packet/SerialProtocol.py:249-255 | `crc`: the fold from 0; CrcEmpty, CrcCheckValue and ZeroPrefix state its values |
| SerialCrc.ZeroPrefix | tinyos3/packet/SerialProtocol.py:249-267 | zero bytes in front of the data leave the CRC unchanged, and a single byte has CRC 0 only if it is 0 |
| SerialCrc.CrcEmpty | tinyos3/packet/SerialProtocol.py:249-255 | the CRC of no bytes is 0 |
| SerialCrc.CrcSnoc | tinyos3/packet/SerialProtocol.py:249-255 | the CRC of d + [b] is crcByte of the CRC of d and b, i.e. `crc` is a left fold of `crcByte` |
| SerialCrc.CrcAppend | tinyos3/packet/SerialProtocol.py:249-255 | folding over d1 + d2 equals folding over d2 from the CRC of d1 |
| SerialCrc.CrcCheckValue | tinyos3/packet/SerialProtocol.py:249-267 | the CRC of the ASCII digits 1 to 9 is 0x31C3, the check value of CRC-16/XMODEM |
| SerialCrc.CrcByteZero | tinyos3/packet/SerialProtocol.py:258-267 | feeding a zero byte maps a CRC to 0 exactly when the CRC was 0 |
| SerialCrc.CrcByteFromZero | tinyos3/packet/SerialProtocol.py:258-267 | from CRC 0 a byte gives CRC 0 exactly when the byte is 0 |
| SerialCrc.ShiftNonzero | tinyos3/packet/SerialProtocol.py:262-265 | one shift-and-xor round keeps the low 16 bits zero exactly when they were zero |
| SerialCrc.RoundsNonzero | tinyos3/packet/SerialProtocol.py:261-265 | so does any number of rounds |
| SerialCrc.ShiftRounds | tinyos3/packet/SerialProtocol.py:261-265 | the eight-round loop computes eight rounds |
| SerialCrc.UpdateCrc | tinyos3/packet/SerialProtocol.py:258-267 | the method equals crcByte on the same arguments |
| SerialCrc.ComputeCrc | tinyos3/packet/SerialProtocol.py:249-255 | the loop over the data equals the CRC of the data |
| SerialFraming.Escape | tinyos3/packet/SerialProtocol.py:242-246 | a byte other than 0x7E and 0x7D is itself; those two become 0x7D followed by the byte xor 0x20; the output never holds 0x7E |
| SerialFraming.Stuff | tinyos3/packet/SerialProtocol.py:226-228 | escaping a byte string byte by byte; StuffShape, StuffAppend and UnstuffStuff state its shape and its inverse |
| SerialFraming.Unstuff | tinyos3/packet/SerialProtocol.py:162-173 | the receiver's unescaping of 0x7D x to x xor 0x20; UnstuffStuff proves it inverts escaping |
| SerialFraming.Body | tinyos3/packet/SerialProtocol.py:220-231 | the unescaped frame body; BodyShape states it is type, sequence number, data and their CRC, low byte first |
| SerialFraming.Frame | tinyos3/packet/SerialProtocol.py:214-233 | the encoded frame: flag, escaped body, flag; FrameShape states its shape and RoundTrip that the receiver reads it back |
| SerialFraming.Read | tinyos3/packet/SerialProtocol.py:135-199 | the receiver specification: bytes read one at a time from a reader state until a packet is returned or the input runs out, with the resynchronisation writes; the rows of readFramedPacket below are lemmas about it |
| SerialFraming.StuffAppend | tinyos3/packet/SerialProtocol.py:226-228 | escaping byte by byte distributes over concatenation |
| SerialFraming.StuffShape | tinyos3/packet/SerialProtocol.py:226-231 | escaped bytes contain no flag and are between one and two times as long |
| SerialFraming.UnstuffStuff | tinyos3/packet/SerialProtocol.py:242-246 | unescaping undoes escaping |
| SerialFraming.StuffInjective | tinyos3/packet/SerialProtocol.py:242-246 | different byte strings escape differently |
| SerialFraming.JoinLoHi | tinyos3/packet/SerialProtocol.py:181 | the receiver's `lo \| hi << 8` reassembles the CRC the encoder split into low and high byte (lines 230-231) |
| SerialFraming.BodyShape | tinyos3/packet/SerialProtocol.py:220-231 | the unescaped frame body is type, sequence number, data, then the CRC of those, low byte first |
| SerialFraming.FrameShape | tinyos3/packet/SerialProtocol.py:214-233 | an encoded frame starts and ends with 0x7E, has no other 0x7E, and its inner part unescapes to the body |
| SerialFraming.FrameCrc | tinyos3/packet/SerialProtocol.py:215-227 | the running CRC of the encoder is the CRC of type, sequence number and data |
| SerialFraming.BuildFrame | tinyos3/packet/SerialProtocol.py:214-233 | the encoding loop builds exactly the frame: flag, escaped body, flag |
| SerialFraming.Consume | tinyos3/packet/SerialProtocol.py:141-199 | one byte read never leaves the count beyond the bytes accumulated |
| SerialFraming.ReadData | tinyos3/packet/SerialProtocol.py:198-199 | in sync, a plain byte is appended and counted |
| SerialFraming.ReadEscapePair | tinyos3/packet/SerialProtocol.py:162-173 | in sync, 0x7D followed by x is read as x xor 0x20 |
| SerialFraming.ReadStuffed | tinyos3/packet/SerialProtocol.py:160-199 | reading the escaped form of u below the MTU accumulates exactly u |
| SerialFraming.OpeningFlag | tinyos3/packet/SerialProtocol.py:141-153 | a leading flag puts a new call in sync, whatever its sync state |
| SerialFraming.ClosingFlag | tinyos3/packet/SerialProtocol.py:174-188 | a flag after at least 4 bytes with a matching trailing CRC returns the bytes before the CRC |
| SerialFraming.RoundTrip | tinyos3/packet/SerialProtocol.py:135-199 | reading an encoded frame with at most 251 data bytes returns type, sequence number and data, consumes exactly the frame and writes nothing, in sync or not, in either mode |
| SerialFraming.MtuBoundary | tinyos3/packet/SerialProtocol.py:155-158 | a frame with 252 data bytes reaches the MTU before its closing flag: sync is dropped and that flag only resynchronises |
| SerialFraming.ConsumeReturn | tinyos3/packet/SerialProtocol.py:174-188 | a byte read returns a packet only if it is a flag in sync after at least 4 bytes, and the packet matches its trailing CRC |
| SerialFraming.PacketMatchesCrc | tinyos3/packet/SerialProtocol.py:174-188 | every packet a call returns matches its trailing CRC |
| SerialFraming.ShortFrameKeepsSync | tinyos3/packet/SerialProtocol.py:175-178 | a flag after fewer than 4 bytes returns nothing, keeps sync and resets the count; as written the buffer stays |
| SerialFraming.CrcMismatchKeepsSync | tinyos3/packet/SerialProtocol.py:189-196 | a flag with a CRC mismatch returns nothing, keeps sync and restarts with an empty buffer |
| SerialFraming.EscapedFlagLosesSync | tinyos3/packet/SerialProtocol.py:162-167 | a flag right after an escape drops sync |
| SerialFraming.MtuLosesSync | tinyos3/packet/SerialProtocol.py:155-158 | with count at or above the MTU, sync is dropped before anything is read |
| SerialFraming.ResyncWrites | tinyos3/packet/SerialProtocol.py:141-153 | out of sync, each non-flag byte is answered with two flag writes, and the next flag regains sync |
| SerialFraming.StaleBufferLosesFrame | tinyos3/packet/SerialProtocol.py:175-199 | as written, one noise byte before a valid frame makes the call miss that frame |
| SerialFraming.NoiseBeforeFrame | tinyos3/packet/SerialProtocol.py:175-199 | when discarded bytes are cleared, noise of fewer than 4 bytes before a frame does not change what is read |
| SerialProtocol.Classify | tinyos3/packet/SerialProtocol.py:72-90 | a frame is answered with an ack frame for its sequence number exactly when it asks for one; ack frames go to the ack slot and all others to the data slot; the payload starts after the sequence number for frames that ask for an ack, after the type otherwise |
| SerialProtocol.ReplyAcknowledges | tinyos3/packet/SerialProtocol.py:75-85 | the reply is read back by the peer as the ack type and the sequence number; classifying it fills the ack slot so that the acknowledgement check (lines 236-240) passes for that number |
| SerialProtocol.Replies | tinyos3/packet/SerialProtocol.py:75-77 | the write a classified frame asks for: at most one, and one exactly when the frame is answered |
| SerialProtocol.RxLoop | tinyos3/packet/SerialProtocol.py:69-101 | the receiving thread over the whole input: for each frame, the resynchronisation writes of `readFramedPacket` and then the frame's acknowledgement, until `IODone`; RxFrame and RxFrames state what it writes |
| SerialProtocol.RxFrame | tinyos3/packet/SerialProtocol.py:69-90 | a well-formed frame, in sync or not, makes the thread write exactly the acknowledgement it asks for and leaves it in sync |
| SerialProtocol.RxFrames | tinyos3/packet/SerialProtocol.py:69-101 | a run of well-formed frames read in sync is answered with one acknowledgement per frame of type SERIAL_PROTO_PACKET_ACK, carrying its sequence number, in order, and nothing else |
| SerialProtocol.CallWriteFramedPacket | tinyos3/packet/SerialProtocol.py:77 | a call with other than three arguments raises TypeError before writing anything and leaves the ack slot; with three it writes exactly the encoded frame and succeeds, clearing the slot, only when the slot already holds an acknowledgement of the sequence number, raising NoAckException otherwise (lines 214-240); Protocol.WriteFramedPacket is proved to have this effect |
| SerialProtocol.ClassifyTyped | tinyos3/packet/SerialProtocol.py:73-90 | with the type known, a frame that asks for an ack fails at the four-argument call of line 77, and only such a frame fails |
| SerialProtocol.RxStepAsWritten | tinyos3/packet/SerialProtocol.py:72-90 | the body of the receiving thread as written, `ord(frame[0])` first; RxAsWrittenAlwaysFails states its outcome |
| SerialProtocol.ThreeArgReplyRaises | tinyos3/packet/SerialProtocol.py:77 | even with three arguments, the ack reply from the receiving thread writes the ack frame and then raises NoAckException (lines 236-240) unless the ack slot already holds an acknowledgement of that sequence number, in particular whenever the slot is empty; only IODone is caught (line 94) |
| SerialProtocol.RxAsWrittenAlwaysFails | tinyos3/packet/SerialProtocol.py:72-73 | as written, every received frame raises a TypeError at `ord(frame[0])` |
| SerialProtocol.AckReplyAsWrittenFails | tinyos3/packet/SerialProtocol.py:75-79 | with `ord` removed, frames that ask for an ack still fail, at the call of line 77; all other frames are classified as intended |
| SerialProtocol.PacketConsumes | tinyos3/packet/SerialProtocol.py:174-188 | a returned packet has at least the type and sequence number bytes, and its call has consumed input |
| SerialProtocol.ExhaustedUsesInput | tinyos3/packet/SerialProtocol.py:140-160 | a call that runs out of input has read all of it |
| SerialProtocol.ReceiveByte | tinyos3/packet/SerialProtocol.py:160-199 | one byte read in sync gives the step the receiver specification gives |
| SerialProtocol.CheckFrame | tinyos3/packet/SerialProtocol.py:180-187 | the packet is the accumulated bytes before the last two, and it is accepted exactly when those two hold its CRC, low byte first |
| SerialProtocol.NextSeqNo | tinyos3/packet/SerialProtocol.py:205 | the sequence number after seqNo, a byte; NextSeqNoWraps states it is (seqNo + 1) % 256 |
| SerialProtocol.NextSeqNoWraps | tinyos3/packet/SerialProtocol.py:205 | the next sequence number is (seqNo + 1) % 256 |
| SerialProtocol.Protocol.constructor | tinyos3/packet/SerialProtocol.py:105-121 | a new protocol is out of sync, has sequence number 0, has written nothing and has both slots empty |
| SerialProtocol.Protocol.ReadFramedPacket | tinyos3/packet/SerialProtocol.py:135-199 | the loop returns what the receiver specification returns and leaves inSync, the unread input and the written flags as it says |
| SerialProtocol.Protocol.Resynchronize | tinyos3/packet/SerialProtocol.py:141-153 | bytes before the next flag are answered with two flag writes each; it reports whether a flag was found before the input ran out |
| SerialProtocol.Protocol.AwaitAck | tinyos3/packet/SerialProtocol.py:236-240 | the check passes exactly when the ack slot holds a non-empty packet starting with the sequence number, and only then clears the slot |
| SerialProtocol.Protocol.WriteFramedPacket | tinyos3/packet/SerialProtocol.py:214-240 | exactly one write of the encoded frame, followed by the acknowledgement check; the whole effect is that of a three-argument CallWriteFramedPacket on the ack slot after the wait |
| SerialProtocol.Protocol.WritePacket | tinyos3/packet/SerialProtocol.py:201-212 | the sequence number advances modulo 256; exactly one frame asking for an ack with the new number is written; a missing ack is not raised, and the ack slot is then left holding what arrived |
| SerialProtocol.Protocol.Deliver | tinyos3/packet/SerialProtocol.py:72-90 | the reply, if any, is written, and the payload is stored in the slot Classify names, the other slot untouched |
| SerialProtocol.Protocol.RxDone | tinyos3/packet/SerialProtocol.py:94-101 | on IODone both slots become empty |
| SerialProtocol.Protocol.RxRun | tinyos3/packet/SerialProtocol.py:69-101 | the receive loop writes exactly what RxLoop gives for the input (resynchronisation flags and one reply per frame that asks for one) and ends with RxLoop's inSync, all input read, both slots empty and the sequence number untouched |
| MoteIF.DecodeHeader | tinyos3/message/MoteIF.py:88-93 | reading the 7-byte header after the type byte; DecodeEncode and EncodeDecode prove it inverse to EncodeHeader |
| MoteIF.EncodeHeader | tinyos3/message/MoteIF.py:109-115 | the header is 7 bytes |
| MoteIF.DecodeEncode | tinyos3/message/MoteIF.py:88-115 | decoding an encoded header gives it back |
| MoteIF.EncodeDecode | tinyos3/message/MoteIF.py:88-93 | encoding the decoded header gives back the first 7 bytes |
| MoteIF.MessageFor | tinyos3/message/MoteIF.py:99-104 | the message has the listener's class, the data, its length, and the header's source and group |
| MoteIF.PacketData | tinyos3/message/MoteIF.py:88-92 | the data is the bytes after the type byte and header, cut to the header's length |
| MoteIF.Deliveries | tinyos3/message/MoteIF.py:95-105 | the receive calls of the dispatch loop, in listener order; DeliveriesExactlyOnce and DeliveriesCarry state who is called with what |
| MoteIF.DeliveriesSnoc | tinyos3/message/MoteIF.py:95-105 | one more listener adds its delivery, if any, at the end |
| MoteIF.DeliveriesExactlyOnce | tinyos3/message/MoteIF.py:95-105 | a registered listener is called exactly once when it has a class for the packet's type and never otherwise |
| MoteIF.DeliveriesCarry | tinyos3/message/MoteIF.py:95-105 | every call goes to a listener with a class for the type and carries the source and that class's message |
| MoteIF.Destination.WritePacket | tinyos3/message/MoteIF.py:118 | the destination records the packet written to it |
| MoteIF.Registry.constructor | tinyos3/message/MoteIF.py:60-61 | a new MoteIF has no listeners |
| MoteIF.Registry.AddListener | tinyos3/message/MoteIF.py:69-74 | the class is stored under its type for the listener, keeping its other types; a new listener joins the end of the iteration order |
| MoteIF.Registry.RemoveListener | tinyos3/message/MoteIF.py:76-77 | an unknown listener raises KeyError and changes nothing; otherwise exactly that listener goes |
| MoteIF.Without | tinyos3/message/MoteIF.py:76-77 | the iteration order with one listener removed; WithoutKeeps states what stays |
| MoteIF.WithoutKeeps | tinyos3/message/MoteIF.py:76-77 | removal from the iteration order keeps every other listener, once each |
| MoteIF.Registry.DispatchPacket | tinyos3/message/MoteIF.py:79-105 | a packet shorter than the type byte and header is refused; otherwise the calls are the deliveries in registration order |
| MoteIF.Registry.SendMsg | tinyos3/message/MoteIF.py:107-118 | exactly one packet, the outgoing packet for the arguments, is written to the destination |
| MoteIF.Outgoing | tinyos3/message/MoteIF.py:107-118 | the active-message id, then the header with destination, group, type and payload length (mod 256), then the payload |
| MoteIF.SendThenDispatch | tinyos3/message/MoteIF.py:88-118 | a packet built by sendMsg is decoded by dispatchPacket to the header it was built with and to the payload |
| MoteIF.SendMsgExample | tests/test_moteif.py:17-35 | the packet for destination 1, type 2, group 3 and payload 1 2 3 |
| MoteIF.FirstAt | tinyos3/message/MoteIF.py:124 | the position of the first '@', if any |
| MoteIF.Line | tinyos3/message/MoteIF.py:124 | `.*` matches up to the first line break |
| MoteIF.SplitName | tinyos3/message/MoteIF.py:124-128 | without an '@' the name is a base source; otherwise the scheme is what precedes the first '@' and the arguments are the rest of that line |
| MoteIF.SplitJoined | tinyos3/message/MoteIF.py:124-128 | a scheme without '@' joined to one-line arguments splits back into both |
| MoteIF.SelectSource | tinyos3/message/MoteIF.py:120-135 | addSource's choice of source from the name, MOTECOM or the default; SourceNames and SelectedNames characterise it in both directions |
| MoteIF.SourceNames | tinyos3/message/MoteIF.py:124-135 | "sf@" followed by one line of arguments selects the SF source with those arguments; "serial@" the serial source when its module is available, and "bad source" otherwise |
| MoteIF.SelectedNames | tinyos3/message/MoteIF.py:124-135 | conversely, a source is selected only for a name that starts with its scheme and '@', with the rest of the first line as arguments, and the serial source only when available |
| MoteIF.SchemeSelects | tinyos3/message/MoteIF.py:130-135 | "sf" selects the SF source; "serial" selects the serial source only when its module is available; anything else is a bad source |
| MoteIF.NoAtIsBaseSource | tinyos3/message/MoteIF.py:124-126 | a name without '@' raises "base source" |
| MoteIF.DefaultSource | tinyos3/message/MoteIF.py:121-122 | with no name and no MOTECOM the source is SF at localhost:9002 |
| MoteIF.MissingNameUsesMotecom | tinyos3/message/MoteIF.py:121-122 | with no name, MOTECOM is used as the name |
| PacketSource.OpenLoop | tinyos3/packet/PacketSource.py:65-74 | the open loop never uses more script than it is given |
| PacketSource.ReadLoop | tinyos3/packet/PacketSource.py:78-92 | the read loop ends normally, by an exception other than IODone from readPacket, or by running out of script |
| PacketSource.CallRun | tinyos3/packet/PacketSource.py:63-96 | the calls `__call__` makes: the open loop, the release of the finally clause, then after a successful open the read loop with close and finish; ReleaseCount, RetryCount, CloseAndFinishOnce and ReadRaiseSkipsClose state them |
| PacketSource.ServeRun | tinyos3/packet/PacketSource.py:78-96 | the read loop followed by close and finish when it ended normally; ServeCount states its calls |
| PacketSource.Source.constructor | tinyos3/packet/PacketSource.py:56-61 | a new source holds its semaphore (count 0) and has made no calls |
| PacketSource.Source.OpenWithRetry | tinyos3/packet/PacketSource.py:65-74 | the loop makes the calls the open loop specification makes and ends as it does |
| PacketSource.Source.LastAttempt | tinyos3/packet/PacketSource.py:66-74 | the attempt that ends the open loop: success, another exception, or OSError while done, which finishes |
| PacketSource.Source.ReadUntilDone | tinyos3/packet/PacketSource.py:78-92 | the loop makes the calls the read loop specification makes and ends as it does |
| PacketSource.Source.Serve | tinyos3/packet/PacketSource.py:78-96 | the read loop, then close and finish when it ended normally |
| PacketSource.Source.Call | tinyos3/packet/PacketSource.py:63-96 | a call makes the calls the specification makes, and the semaphore count rises by the number of releases |
| PacketSource.OpenRetries | tinyos3/packet/PacketSource.py:65-74 | k refused opens with isDone false, then success: k + 1 attempts, k sleeps, no release or finish within the loop |
| PacketSource.RetryCount | tinyos3/packet/PacketSource.py:63-96 | in a whole call, k refused opens followed by a success give k + 1 open attempts and k sleeps |
| PacketSource.FlakySourceRun | tests/test_packetsource.py:12-33 | two refused opens, then success and IODone: three attempts, two sleeps, one release, one read, close, finish |
| PacketSource.CancelledRun | tinyos3/packet/PacketSource.py:69-76 | an open refused while the source is done finishes and then releases; nothing is read, dispatched or closed |
| PacketSource.CancelledOpen | tinyos3/packet/PacketSource.py:69-72 | a cancelled open loop ends with finish and reads, dispatches and closes nothing |
| PacketSource.ReleaseCount | tinyos3/packet/PacketSource.py:63-76 | the semaphore is released exactly once, the finally clause covering also cancellation and other exceptions; the only run not counted is one whose open loop ran out of script |
| PacketSource.NoOpenInReadLoop | tinyos3/packet/PacketSource.py:78-92 | the read loop neither opens, sleeps, releases, closes nor finishes |
| PacketSource.ServeCount | tinyos3/packet/PacketSource.py:78-96 | after open, close and finish happen once each if the read loop ended normally and never otherwise, and no open, sleep or release happens |
| PacketSource.ReadRaiseSkipsClose | tinyos3/packet/PacketSource.py:76-96 | an exception other than IODone from readPacket ends the call with status Raised, right after that read, having released the semaphore once and called neither close nor finish |
| PacketSource.ReadRaiseEndsWithRead | tinyos3/packet/PacketSource.py:78-83 | a read loop that raised stopped at the read that raised |
| PacketSource.DispatchesTruthyInOrder | tinyos3/packet/PacketSource.py:78-92 | when no read raises, the read loop dispatches exactly the non-empty packets read, in order, and reads until isDone or IODone |
| PacketSource.CloseAndFinishOnce | tinyos3/packet/PacketSource.py:94-96 | a call that ended normally ends with close then finish, each exactly once |
| PacketSource.BaseSourceRun | tinyos3/packet/PacketSource.py:101-111 | the base source (open succeeds, readPacket returns None) opens once, reads until done, dispatches nothing, then closes and finishes |
| Singleton.Lookup | tinyos3/utils/Singleton.py:120-122 | the slot a class sees is held by the class itself or one of its ancestors through the bases, and is its own whenever it holds one |
| Singleton.LookupAmong | tinyos3/utils/Singleton.py:120-122 | the search through a list of bases, first to last: what it finds is a held slot of an ancestor of one of them |
| Singleton.Instantiated | tinyos3/utils/Singleton.py:120-122 | `hasattr(cls, "cInstance")`: the lookup finds a slot; InstantiatedIffAncestor characterises it |
| Singleton.InstantiatedIffAncestor | tinyos3/utils/Singleton.py:120-122 | a class is instantiated exactly when the class itself or one of its ancestors holds a slot |
| Singleton.AncestorInstantiates | tinyos3/utils/Singleton.py:120-122 | a slot held by any ancestor makes the class instantiated |
| Singleton.LookupAmongNone | tinyos3/utils/Singleton.py:120-122 | the search through a list of bases finds nothing exactly when no base is instantiated |
| Singleton.InstantiatedThroughBases | tinyos3/utils/Singleton.py:120-122 | a class is instantiated exactly when it holds a slot or one of its bases is instantiated |
| Singleton.GetInstance | tinyos3/utils/Singleton.py:98-118 | getInstance as a function of the slots: the result, the new slots and the next identity; the rows below state its cases |
| Singleton.RepeatedGetReturnsSame | tinyos3/utils/Singleton.py:98-118 | after getInstance returned an instance, a call without arguments returns the same instance and changes nothing |
| Singleton.FirstGetConstructs | tinyos3/utils/Singleton.py:110-118 | the first call with the arguments __init__ takes builds a new object of the class from them and stores it in the class's own slot |
| Singleton.MissingArgsRaise | tinyos3/utils/Singleton.py:111-114 | not instantiated, an __init__ that needs arguments and none given raises and stores nothing |
| Singleton.ArgsAfterConstructionRaise | tinyos3/utils/Singleton.py:105-109 | once instantiated, a call with arguments raises and leaves every slot as it was |
| Singleton.GetKeepsOtherSlots | tinyos3/utils/Singleton.py:98-118 | getInstance only ever adds the class's own slot, and does so exactly when it constructs |
| Singleton.Forget | tinyos3/utils/Singleton.py:128-145 | forgetting only removes slots |
| Singleton.ForgetAll | tinyos3/utils/Singleton.py:143-145 | forgetting in each base in turn only removes slots; ForgetAllRemoves states that it removes the slot the search finds |
| Singleton.ForgetNothing | tinyos3/utils/Singleton.py:128-145 | forgetting in a class that is not instantiated changes nothing |
| Singleton.ForgetRemovesVisible | tinyos3/utils/Singleton.py:128-145 | forgetting in a class removes the slot it sees, even one held by a base |
| Singleton.Runtime.constructor | tinyos3/utils/Singleton.py:97 | a program with only Singleton defined and nothing instantiated |
| Singleton.Runtime.DefineClass | tinyos3/utils/Singleton.py:84-89 | a class body that defines __new__ is refused and nothing is defined; otherwise the class is added |
| Singleton.Runtime.Call | tinyos3/utils/Singleton.py:91-94 | calling a Singleton class always raises, with or without arguments and whether or not it is instantiated |
| Singleton.Runtime.IsInstantiated | tinyos3/utils/Singleton.py:120-122 | true exactly when the class itself or one of its ancestors holds an instance |
| Singleton.Runtime.GetInstanceOf | tinyos3/utils/Singleton.py:98-118 | the method returns and stores what the getInstance specification says |
| Singleton.Runtime.ForgetInstance | tinyos3/utils/Singleton.py:128-145 | the recursive method leaves the slots the forget specification gives |
| Singleton.TwoArgScenario | tests/test_singleton.py:20-45 | a two-argument class: a first call without arguments raises; with both arguments it builds the instance, which a later bare call returns |
| Singleton.TwoArgArgsRefused | tinyos3/utils/Singleton.py:105-109 | once that class is instantiated, getInstance with arguments raises and changes nothing |
| Singleton.DirectCallScenario | tests/test_singleton.py:76-84 | after getInstance has built the two-argument class's instance, calling the class itself with the arguments raises, through the metaclass's `__call__` |
| Singleton.ForgetScenario | tests/test_singleton.py:86-109 | after forgetting A, B gets an instance of its own; forgetting on B clears an instance held by A |

## Left out

- SerialProtocol.Classify: the corrected acknowledgement reply is a bare write of the ack frame. Making line 77 a three-argument `writeFramedPacket` call would not do: that call also waits for an acknowledgement and raises NoAckException in the receiving thread (SerialProtocol.ThreeArgReplyRaises), so the fix needs a write of the framed ack without the acknowledgement wait.
- PacketSource: an exception from the dispatcher's `dispatchPacket` (line 92) is not modelled; it would end the call like an exception from `readPacket` (ReadRaises), after the dispatch, without close or finish.
- Threads, locks, condition variables and their timeouts (`ackCV.wait(0.25)`, `dataCV.wait()` in `readPacket`, the semaphore wait in `addSource`) are not modelled. The ack wait is the `arrived` parameter; the start of the threads is not modelled.
- `readPacket` of SerialProtocol and `open` (thread start) are not modelled; they only wait and start threads.
- The Serial module's constants (`SERIAL_PROTO_*`, `TOS_SERIAL_ACTIVE_MESSAGE_ID`) are parameters, of which only distinctness is used; the flag 0x7E, escape 0x7D and MTU 256 are fixed.
- The SerialPacket module is not part of this model; its header is taken to be the 7-byte TinyOS 2 serial header (destination, source, length, group, type; 16-bit fields most significant byte first).
- SerialCrc.CrcByte: the range 0..0xFFFF of `crcByte` holds by its 16-bit result type, not by a lemma. The error-detection properties of the CRC (linearity, detection of single-bit errors) are not proved.
- SerialProtocol.Protocol.ReadFramedPacket: reading past the end of the stream is the `Exhausted` result, standing for `IODone`; the `IndexError` that `self.ins.read(1)[0]` would raise on an empty read is not modelled.
- MoteIF.Outgoing: the header's length byte is the payload length modulo 256; what `SerialPacket.set_header_length` does with longer payloads is not known, and the source address is 0.
- MoteIF.Registry.DispatchPacket: a packet shorter than the type byte and the 7-byte header is refused with an error, whereas the real header parsing of SerialPacket is not part of this model. Listener iteration follows the dictionary's insertion order, and a listener's `receive` is recorded, not run.
- MoteIF addSource: starting the source and waiting on its semaphore are left out; only the choice of source is modelled (`SelectSource`).
- `finishAll`, `set_debug_level`, logging, `hex` and the `time.sleep` duration are left out as plumbing.
- PacketSource: `isDone`, `finish` and the dispatcher belong to ThreadTask and PacketDispatcher, which are not part of this model; `isDone` and the outcomes of `open` and `readPacket` are scripts. Base `writePacket` (line 110) does nothing and is not called by the life cycle; it has no member.
- Singleton.Lookup: the attribute search is a depth-first search through the bases in order. It agrees with Python's C3 method resolution order on whether a slot is found, but in a diamond-shaped hierarchy it may find a different one first; non-Singleton bases are not represented, as they never hold a slot.
- Singleton.GetInstance: `__init__` takes exactly its declared number of arguments (no defaults or `*args`), and a wrong count raises `WrongArgCount` (Python's TypeError); nothing else that `__init__` might do is modelled. Every class is taken to define its own `__init__`: for a class that inherits `object.__init__`, reading `__code__` at line 126 would raise AttributeError, and that is not modelled.

## Findings

| source | as written | input that shows it | evidently intended | confidence | as-written member | corrected member |
|---|---|---|---|---|---|---|
| tinyos3/packet/SerialProtocol.py:175-178 | a frame shorter than 4 bytes (and resynchronisation, line 150) resets `count` but keeps `receiveBuffer`, while the packet and CRC are read from the start of the buffer | one noise byte 0x00, then the frame of type 0x45, sequence number 0x01 and no data: the CRC is taken from the wrong bytes and the valid frame is dropped | the buffer is cleared with the count, as on a CRC mismatch (line 195), so noise before a frame is harmless | not executed | SerialFraming.StaleBufferLosesFrame | SerialFraming.NoiseBeforeFrame |
| tinyos3/packet/SerialProtocol.py:73 | `ord(frame[0])` is applied to an element of a bytes object, which is an int, so it raises TypeError | any frame the receiver returns | the frame type is `frame[0]` itself | not executed | SerialProtocol.RxAsWrittenAlwaysFails | SerialProtocol.Classify |
| tinyos3/packet/SerialProtocol.py:77 | the acknowledgement is sent with four arguments to the three-parameter `writeFramedPacket`, raising TypeError; with three it would still wait for an acknowledgement and raise NoAckException (SerialProtocol.ThreeArgReplyRaises) | any frame of type SERIAL_PROTO_PACKET_ACK | the ack frame (type, sequence number, empty payload) is written without the acknowledgement wait | not executed | SerialProtocol.AckReplyAsWrittenFails | SerialProtocol.ReplyAcknowledges |
