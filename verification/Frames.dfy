// Whole frames: building, parsing a complete slice, and reading one from a
// byte source.
module Frames {
  import opened Bytes
  import opened Errors
  import opened Opcodes
  import opened Checksum
  import opened Utf8Stream
  import Utf8
  import opened Messages

  const FRAME_OVERHEAD: nat := 4

  datatype FrameView = FrameView(opcode: byte, payloadLen: u16, checksum: byte, payload: seq<byte>)

  function FrameBytes(op: byte, payload: seq<byte>): (f: seq<byte>)
  {
    Body(op, payload) + [ChecksumOf(op, payload)]
  }

  function EncodeFrame(m: Message): (f: seq<byte>)
  {
    FrameBytes(OpcodeOf(m), Payload(m))
  }

  function ParseFrame(direction: Direction, frame: seq<byte>): (r: Result<FrameView, FrameError>)
  {
    if |frame| < FRAME_OVERHEAD then Err(Truncated)
    else
      var opcode, length := frame[0], FromU16Be(frame[1..3]);
      var payloadLen := |frame| - FRAME_OVERHEAD;
      if payloadLen != length then Err(LengthMismatch(length, payloadLen))
      else if Sum(frame) != 0 then Err(ChecksumMismatch(Sum(frame)))
      else match Validate(opcode, direction)
        case Err(e) => Err(e)
        case Ok(_) => Ok(FrameView(opcode, length, frame[|frame| - 1], frame[3..|frame| - 1]))
  }

  function MessageDirection(m: Message): (d: Direction)
  {
    if m.Asked? || m.CapsAsked? then ClientToNode else NodeToClient
  }

  // A frame whose declared length is right is header, payload, last byte.
  lemma FrameShape(frame: seq<byte>)
    requires |frame| >= FRAME_OVERHEAD && FromU16Be(frame[1..3]) == |frame| - FRAME_OVERHEAD
    ensures frame == Body(frame[0], frame[3..|frame| - 1]) + [frame[|frame| - 1]]
  {
    U16BeUnique(frame[1..3]);
    var payload := frame[3..|frame| - 1];
    assert frame[..3] == [frame[0]] + U16Be(|payload|);
    assert frame == frame[..3] + payload + [frame[|frame| - 1]];
  }

  // Parsing accepts exactly the built frames of the direction's opcodes.
  lemma ParseAcceptsExactlyBuilt(direction: Direction, frame: seq<byte>)
    ensures ParseFrame(direction, frame).Ok? <==>
      exists op: byte, payload: seq<byte> :: |payload| < 0x1_0000 && Validate(op, direction).Ok? && frame == FrameBytes(op, payload)
    ensures ParseFrame(direction, frame).Ok? ==>
      var v := ParseFrame(direction, frame).value;
      && frame == FrameBytes(v.opcode, v.payload)
      && v.payloadLen == |v.payload|
      && v.checksum == ChecksumOf(v.opcode, v.payload)
  {
    if ParseFrame(direction, frame).Ok? {
      var v := ParseFrame(direction, frame).value;
      FrameShape(frame);
      OnlyChecksumSumsToZero(v.opcode, v.payload, v.checksum);
    }
    forall op: byte, payload: seq<byte> | |payload| < 0x1_0000 && Validate(op, direction).Ok? && frame == FrameBytes(op, payload)
      ensures ParseFrame(direction, frame).Ok?
    {
      ParseOfBuilt(direction, op, payload);
    }
  }

  lemma ParseOfBuilt(direction: Direction, op: byte, payload: seq<byte>)
    requires |payload| < 0x1_0000 && Validate(op, direction).Ok?
    ensures ParseFrame(direction, FrameBytes(op, payload)) ==
      Ok(FrameView(op, |payload|, ChecksumOf(op, payload), payload))
  {
    var frame := FrameBytes(op, payload);
    assert frame[1..3] == U16Be(|payload|);
    assert frame[3..|frame| - 1] == payload;
    OnlyChecksumSumsToZero(op, payload, ChecksumOf(op, payload));
  }

  // The receiving path over a whole slice: parse, then decode.
  datatype Refusal = BadFrame(frame: FrameError) | BadPayload(payload: PayloadError)

  function Receive(direction: Direction, frame: seq<byte>): (r: Result<Message, Refusal>)
  {
    match ParseFrame(direction, frame)
    case Err(e) => Err(BadFrame(e))
    case Ok(v) =>
      match DecodePayload(v.opcode, v.payload)
      case Err(e) => Err(BadPayload(e))
      case Ok(m) => Ok(m)
  }

  lemma DirectionOwnsOpcode(m: Message)
    ensures Validate(OpcodeOf(m), MessageDirection(m)).Ok?
    ensures forall d :: Validate(OpcodeOf(m), d).Ok? ==> d == MessageDirection(m)
  {
  }

  // Every encodable message survives the wire unchanged.
  lemma MessageSurvives(m: Message)
    requires Encodable(m)
    ensures Receive(MessageDirection(m), EncodeFrame(m)) == Ok(m)
  {
    DirectionOwnsOpcode(m);
    ParseOfBuilt(MessageDirection(m), OpcodeOf(m), Payload(m));
    DecodeInvertsEncode(m);
  }

  // Every received frame is the one encoding of its message, checksum included.
  lemma FrameIsCanonical(direction: Direction, frame: seq<byte>)
    requires Receive(direction, frame).Ok?
    ensures var m := Receive(direction, frame).value;
      Encodable(m) && direction == MessageDirection(m) && frame == EncodeFrame(m)
  {
    ParseAcceptsExactlyBuilt(direction, frame);
    var v := ParseFrame(direction, frame).value;
    EncodeInvertsDecode(v.opcode, v.payload);
    DirectionOwnsOpcode(Receive(direction, frame).value);
  }

  // Changing any one byte of an accepted frame gets it rejected.
  lemma OneByteErrorIsCaught(direction: Direction, frame: seq<byte>, at: nat, b: byte)
    requires ParseFrame(direction, frame).Ok? && at < |frame| && frame[at] != b
    ensures ParseFrame(direction, frame[at := b]).Err?
  {
    OneByteChangesSum(frame, at, b);
  }

  method BuildFrame(op: byte, payload: seq<byte>) returns (r: Option<seq<byte>>)
    ensures r.Some? <==> |payload| < 0x1_0000
    ensures r.Some? ==> r.value == FrameBytes(op, payload)
  {
    if |payload| >= 0x1_0000 {
      return None;
    }
    var frame: seq<byte> := [];
    frame := frame + [op];
    frame := frame + U16Be(|payload|);
    frame := frame + payload;
    var c := ComputeChecksum(op, payload);
    frame := frame + [c];
    r := Some(frame);
  }

  // The client's growing payload buffer.
  class PayloadWriter {
    var bytes: seq<byte>

    constructor ()
      ensures bytes == []
    {
      bytes := [];
    }

    method Extend(more: seq<byte>)
      modifies this
      ensures bytes == old(bytes) + more
    {
      bytes := bytes + more;
    }

    // Text is UTF-8 by its type; only NUL bytes and length can be refused.
    method PushStr16(text: seq<byte>) returns (ok: bool)
      modifies this
      ensures ok <==> NulFree(text) && |text| < 0x1_0000
      ensures bytes == if ok then old(bytes) + Str16(text) else old(bytes)
    {
      if 0 in text {
        return false;
      }
      if |text| >= 0x1_0000 {
        return false;
      }
      Extend(U16Be(|text|));
      Extend(text);
      Assoc(old(bytes), U16Be(|text|), text);
      ok := true;
    }

    method PushValue(v: Value) returns (ok: bool)
      modifies this
      ensures ok <==> (v.Str? ==> NulFree(v.text) && |v.text| < 0x1_0000)
      ensures ok ==> bytes == old(bytes) + ValueBytes(v)
    {
      match v
      case Bool(flag) =>
        Extend([BOOL_TAG]);
        Extend([if flag then 1 else 0]);
        ok := true;
      case I64(number) =>
        Extend([I64_TAG]);
        Extend(I64Be(number));
        ok := true;
      case Str(text) =>
        Extend([STR_TAG]);
        ok := PushStr16(text);
        Assoc(old(bytes), [STR_TAG], Str16(text));
    }
  }

  // A WRITE request is sent exactly when it can be encoded, and then as its
  // one encoding.
  method WriteFrame(keyref: u16, value: Value) returns (r: Option<seq<byte>>)
    requires value.Str? ==> Utf8.FromUtf8(value.text).Valid?
    ensures r.Some? <==> Encodable(Asked(Write(keyref, value)))
    ensures r.Some? ==> r.value == EncodeFrame(Asked(Write(keyref, value)))
  {
    var writer := new PayloadWriter();
    writer.Extend(U16Be(keyref));
    var ok := writer.PushValue(value);
    if !ok {
      return None;
    }
    assert [] + U16Be(keyref) == U16Be(keyref);
    r := BuildFrame(WRITE, writer.bytes);
  }

  // A byte source that has received `data` and handed out `pos` bytes of it.
  class ByteSource {
    const data: seq<byte>
    var pos: nat

    ghost predicate Valid()
      reads this
    {
      pos <= |data|
    }

    constructor (data: seq<byte>)
      ensures Valid() && this.data == data && pos == 0
    {
      this.data := data;
      pos := 0;
    }

    // Fills `len` bytes of the buffer, or fails when the transport ends first.
    method ReadExact(buf: array<byte>, len: nat) returns (ok: bool)
      requires Valid() && len <= buf.Length
      modifies this, buf
      ensures Valid()
      ensures ok <==> old(pos) + len <= |data|
      ensures ok ==> pos == old(pos) + len && buf[..len] == data[old(pos)..pos]
      ensures forall i :: len <= i < buf.Length ==> buf[i] == old(buf[i])
    {
      if pos + len > |data| {
        pos := |data|;
        return false;
      }
      forall i | 0 <= i < len {
        buf[i] := data[pos + i];
      }
      pos := pos + len;
      ok := true;
    }
  }

  datatype ReadError =
    | Transport
    | BufferTooSmall(required: nat, available: nat)
    | Framing(frame: FrameError)

  // What reading one frame from a source means.
  function ReadOutcome(direction: Direction, rest: seq<byte>, capacity: nat): (r: Result<FrameView, ReadError>)
  {
    if |rest| < 3 then Err(Transport)
    else
      var length := FromU16Be(rest[1..3]);
      if capacity < length then Err(BufferTooSmall(length, capacity))
      else if |rest| < FRAME_OVERHEAD + length then Err(Transport)
      else match ParseFrame(direction, rest[..FRAME_OVERHEAD + length])
        case Ok(v) => Ok(v)
        case Err(e) => Err(Framing(e))
  }

  // A frame put together from the pieces that were read one after the other.
  lemma PiecesMakeFrame(direction: Direction, header: seq<byte>, payload: seq<byte>, c: byte)
    requires |header| == 3 && FromU16Be(header[1..3]) == |payload|
    ensures var frame := header + payload + [c];
      && frame == Body(header[0], payload) + [c]
      && (Sum(frame) == 0 <==> c == ChecksumOf(header[0], payload))
      && ParseFrame(direction, frame) ==
         if Sum(frame) != 0 then Err(ChecksumMismatch(Sum(frame)))
         else match Validate(header[0], direction)
           case Err(e) => Err(e)
           case Ok(_) => Ok(FrameView(header[0], |payload|, c, payload))
  {
    U16BeUnique(header[1..3]);
    var frame := header + payload + [c];
    assert header == [header[0]] + header[1..3];
    OnlyChecksumSumsToZero(header[0], payload, c);
    assert frame[1..3] == header[1..3];
    assert frame[3..|frame| - 1] == payload;
  }

  // The wrapping sum that a checksum error reports.
  method ReportedSum(header: seq<byte>, payload: seq<byte>, c: byte) returns (sum: byte)
    requires |header| == 3
    ensures sum == Sum(header + payload + [c])
  {
    sum := header[0];
    sum := WrapAdd(sum, header[1]);
    sum := WrapAdd(sum, header[2]);
    SumOfHeader(header[0], header[1], header[2]);
    assert header == [header[0], header[1], header[2]];
    sum := AddSegment(sum, payload);
    SumConcat(header, payload);
    SumAppend(header + payload, c);
    sum := WrapAdd(sum, c);
  }

  // Reading a frame piecewise agrees with parsing the complete slice: same
  // view or same error, the reported sum included.
  method ReadFrame(reader: ByteSource, direction: Direction, payloadBuf: array<byte>) returns (r: Result<FrameView, ReadError>)
    requires reader.Valid()
    modifies reader, payloadBuf
    ensures reader.Valid()
    ensures r == ReadOutcome(direction, reader.data[old(reader.pos)..], payloadBuf.Length)
    ensures r.Ok? ==> reader.pos == old(reader.pos) + FRAME_OVERHEAD + r.value.payloadLen
  {
    ghost var rest := reader.data[reader.pos..];
    var header := new byte[3](_ => 0);
    var ok := reader.ReadExact(header, 3);
    if !ok {
      return Err(Transport);
    }
    var opcode, length := header[0], FromU16Be(header[1..3]);
    ghost var head := header[..];
    assert head == header[..3] == rest[..3];
    assert header[1..3] == rest[1..3] == head[1..3];
    if payloadBuf.Length < length {
      return Err(BufferTooSmall(length, payloadBuf.Length));
    }
    ok := reader.ReadExact(payloadBuf, length);
    if !ok {
      return Err(Transport);
    }
    var payload := payloadBuf[..length];
    var checksum := new byte[1](_ => 0);
    ok := reader.ReadExact(checksum, 1);
    if !ok {
      return Err(Transport);
    }
    assert [checksum[0]] == checksum[..1];
    assert rest[..FRAME_OVERHEAD + length] == head + payload + [checksum[0]];
    var judged := JudgeFrame(direction, header[..], payload, checksum[0]);
    r := if judged.Ok? then Ok(judged.value) else Err(Framing(judged.error));
  }

  // The checks on a frame whose pieces have been read: the checksum first, then
  // the opcode.
  method JudgeFrame(direction: Direction, header: seq<byte>, payload: seq<byte>, checksum: byte)
      returns (r: Result<FrameView, FrameError>)
    requires |header| == 3 && FromU16Be(header[1..3]) == |payload|
    ensures r == ParseFrame(direction, header + payload + [checksum])
    ensures r.Ok? ==> r.value.payloadLen == |payload|
  {
    PiecesMakeFrame(direction, header, payload, checksum);
    var expected := ComputeChecksum(header[0], payload);
    if checksum != expected {
      var sum := ReportedSum(header, payload, checksum);
      return Err(ChecksumMismatch(sum));
    }
    var valid := Validate(header[0], direction);
    if valid.Err? {
      return Err(valid.error);
    }
    r := Ok(FrameView(header[0], |payload|, checksum, payload));
  }
}
