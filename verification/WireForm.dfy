// The wire format written out: which bytes stand for which message, with the
// numbers that go over the wire.
module WireForm {
  import opened Bytes
  import opened Errors
  import opened Opcodes
  import opened Checksum
  import opened Utf8Stream
  import opened Messages
  import opened Frames
  import Caps
  import Utf8

  // The sum of the bytes, as an integer.
  function Total(s: seq<byte>): (n: nat)
  {
    if s == [] then 0 else Total(s[..|s| - 1]) + s[|s| - 1] as int
  }

  lemma {:induction false} SumIsTotalModulo256(s: seq<byte>)
    ensures Sum(s) == Total(s) % 256
  {
    if s != [] {
      SumIsTotalModulo256(s[..|s| - 1]);
    }
  }

  // A two-byte number, most significant byte first.
  function Word(hi: byte, lo: byte): (n: u16)
  {
    256 * hi as int + lo as int
  }

  // An eight-byte two's complement number, most significant byte first.
  function Signed(b: seq<byte>): (n: int)
    requires |b| == 8
  {
    (if b[0] < 128 then b[0] as int else b[0] as int - 256) * 0x100_0000_0000_0000
    + b[1] as int * 0x1_0000_0000_0000 + b[2] as int * 0x100_0000_0000 + b[3] as int * 0x1_0000_0000
    + b[4] as int * 0x100_0000 + b[5] as int * 0x1_0000 + b[6] as int * 0x100 + b[7] as int
  }

  lemma SignedIsI64(b: seq<byte>)
    requires |b| == 8
    ensures FromI64Be(b) == Signed(b)
  {
    BeUnique(b);
    Pow256Of8();
    assert b[..8] == b;
    FirstFour(b);
    Horner(b, 4);
    Horner(b, 5);
    Horner(b, 6);
    Horner(b, 7);
  }

  lemma FirstFour(b: seq<byte>)
    requires |b| >= 4
    ensures FromBe(b[..4]) == ((b[0] as int * 256 + b[1] as int) * 256 + b[2] as int) * 256 + b[3] as int
  {
    assert b[..0] == [];
    Horner(b, 0);
    Horner(b, 1);
    Horner(b, 2);
    Horner(b, 3);
  }

  lemma Horner(b: seq<byte>, k: nat)
    requires k < |b|
    ensures FromBe(b[..k + 1]) == FromBe(b[..k]) * 256 + b[k] as int
  {
    assert b[..k + 1][..k] == b[..k];
  }

  // A string behind its two-byte length.
  ghost predicate StringAs(b: seq<byte>, text: seq<byte>)
  {
    |b| >= 2 && Word(b[0], b[1]) == |text| && b[2..] == text && IsWireString(text)
  }

  ghost predicate ValueAs(b: seq<byte>, v: Value)
  {
    match v
    case Bool(flag) => b == [1, if flag then 1 else 0]
    case I64(number) => |b| == 9 && b[0] == 2 && number == Signed(b[1..])
    case Str(text) => |b| >= 3 && b[0] == 3 && StringAs(b[1..], text)
  }

  predicate KeyrefAs(op: byte, expected: byte, p: seq<byte>, k: u16)
  {
    op == expected && |p| == 2 && k == Word(p[0], p[1])
  }

  ghost predicate RequestAs(op: byte, p: seq<byte>, r: Request)
  {
    match r
    case Ping => op == 0x50 && p == []
    case Identify => op == 0x49 && p == []
    case GetKeytabLen => op == 0x43 && p == []
    case GetKey(k) => KeyrefAs(op, 0x53, p, k)
    case Get(k) => KeyrefAs(op, 0x47, p, k)
    case Write(k, v) => op == 0x57 && |p| >= 2 && k == Word(p[0], p[1]) && ValueAs(p[2..], v)
    case Observe(k) => KeyrefAs(op, 0x4E, p, k)
    case Unobserve(k) => KeyrefAs(op, 0x55, p, k)
  }

  ghost predicate ResponseAs(op: byte, p: seq<byte>, r: Ordinary)
  {
    match r
    case Okay => op == 0x6B && p == []
    case Identified(id) => op == 0x69 && StringAs(p, id)
    case KeytabLen(n) => KeyrefAs(op, 0x63, p, n)
    case Key(flags, name) => op == 0x73 && |p| >= 1 && p[0] == flags <= 7 && StringAs(p[1..], name)
    case Current(v) => op == 0x67 && ValueAs(p, v)
    case Written(v) => op == 0x77 && ValueAs(p, v)
  }

  ghost predicate MessageAs(op: byte, p: seq<byte>, m: Message)
  {
    match m
    case Asked(r) => RequestAs(op, p, r)
    case Ordinarily(r) => ResponseAs(op, p, r)
    case CapsAsked => op == 0x3F && p == []
    case CapsGiven(caps) => op == 0x3A && StringAs(p, caps) && Caps.IsCaps(caps)
    case Failed(code) => op == 0x40 && p == [code]
    case Changed(k) => KeyrefAs(op, 0x21, p, k)
  }

  // ---- The encoding is this format ----

  lemma WordIsU16(p: seq<byte>, k: u16)
    ensures p == U16Be(k) <==> |p| == 2 && k == Word(p[0], p[1])
  {
    if |p| == 2 {
      U16BeUnique(p);
    }
  }

  lemma StringIsStr16(b: seq<byte>, text: seq<byte>)
    requires |b| < 0x1_0002
    ensures StringAs(b, text) <==> b == Str16(text) && IsWireString(text) && |text| < 0x1_0000
  {
    if |b| >= 2 {
      TakeThenDrop(b, 2, 0);
      WordIsU16(b[..2], |text| % 0x1_0000);
    }
  }

  lemma ValueIsValueBytes(b: seq<byte>, v: Value)
    requires |b| < 0x1_0000
    ensures ValueAs(b, v) <==> b == ValueBytes(v) && ValueOk(v)
  {
    if b != [] {
      TakeThenDrop(b, 1, 0);
      assert b[..1] == [b[0]];
      match v
      case Bool(_) =>
      case I64(number) =>
        I64RoundTrip(number);
        if |b| == 9 {
          I64Unique(b[1..]);
          SignedIsI64(b[1..]);
        }
      case Str(text) => StringIsStr16(b[1..], text);
    }
  }

  lemma RequestIsEncoded(op: byte, p: seq<byte>, r: Request)
    requires |p| < 0x1_0000
    ensures RequestAs(op, p, r) <==> Encodable(Asked(r)) && op == OpcodeOf(Asked(r)) && p == Payload(Asked(r))
  {
    match r
    case Write(k, v) =>
      if |p| >= 2 {
        TakeThenDrop(p, 2, 0);
        WordIsU16(p[..2], k);
        ValueIsValueBytes(p[2..], v);
      }
    case GetKey(k) => WordIsU16(p, k);
    case Get(k) => WordIsU16(p, k);
    case Observe(k) => WordIsU16(p, k);
    case Unobserve(k) => WordIsU16(p, k);
    case _ =>
  }

  lemma ResponseIsEncoded(op: byte, p: seq<byte>, r: Ordinary)
    requires |p| < 0x1_0000
    ensures ResponseAs(op, p, r) <==> Encodable(Ordinarily(r)) && op == OpcodeOf(Ordinarily(r)) && p == Payload(Ordinarily(r))
  {
    match r
    case Okay =>
    case Identified(id) => StringIsStr16(p, id);
    case KeytabLen(n) => WordIsU16(p, n);
    case Key(flags, name) =>
      if |p| >= 1 {
        TakeThenDrop(p, 1, 0);
        assert p[..1] == [p[0]];
        StringIsStr16(p[1..], name);
      }
    case Current(v) => ValueIsValueBytes(p, v);
    case Written(v) => ValueIsValueBytes(p, v);
  }

  lemma MessageIsEncoded(op: byte, p: seq<byte>, m: Message)
    requires |p| < 0x1_0000
    ensures MessageAs(op, p, m) <==> Encodable(m) && op == OpcodeOf(m) && p == Payload(m)
  {
    match m
    case Asked(r) => RequestIsEncoded(op, p, r);
    case Ordinarily(r) => ResponseIsEncoded(op, p, r);
    case CapsGiven(caps) =>
      StringIsStr16(p, caps);
      Caps.CapsIsTheGrammar(caps);
    case Changed(k) => WordIsU16(p, k);
    case _ =>
  }

  // ---- Decoding and receiving are this format ----

  lemma DecodesExactlyTheFormat(op: byte, p: seq<byte>, m: Message)
    requires |p| < 0x1_0000
    ensures DecodePayload(op, p) == Ok(m) <==> MessageAs(op, p, m)
  {
    MessageIsEncoded(op, p, m);
    if DecodePayload(op, p) == Ok(m) {
      EncodeInvertsDecode(op, p);
    }
    if Encodable(m) {
      DecodeInvertsEncode(m);
    }
  }

  // A whole frame in raw bytes: opcode, payload length, payload, and a last
  // byte that brings the sum of all bytes to a multiple of 256.
  ghost predicate FrameAs(frame: seq<byte>, m: Message)
  {
    && |frame| >= 4
    && |frame| == 4 + Word(frame[1], frame[2])
    && Total(frame) % 256 == 0
    && MessageAs(frame[0], frame[3..|frame| - 1], m)
  }

  // The client sends requests, the node everything else.
  lemma ReceivesExactlyTheFormat(direction: Direction, frame: seq<byte>, m: Message)
    ensures Receive(direction, frame) == Ok(m) <==>
      FrameAs(frame, m) && direction == (if m.Asked? || m.CapsAsked? then ClientToNode else NodeToClient)
  {
    if Receive(direction, frame) == Ok(m) {
      FormedWhenReceived(direction, frame, m);
    }
    if FrameAs(frame, m) {
      ReceivedWhenFormed(frame, m);
    }
  }

  lemma FormedWhenReceived(direction: Direction, frame: seq<byte>, m: Message)
    requires Receive(direction, frame) == Ok(m)
    ensures FrameAs(frame, m) && direction == MessageDirection(m)
  {
    SumIsTotalModulo256(frame);
    assert frame[1..3] == [frame[1], frame[2]];
    DecodesExactlyTheFormat(frame[0], frame[3..|frame| - 1], m);
    MessageIsEncoded(frame[0], frame[3..|frame| - 1], m);
    DirectionOwnsOpcode(m);
  }

  lemma ReceivedWhenFormed(frame: seq<byte>, m: Message)
    requires FrameAs(frame, m)
    ensures Receive(MessageDirection(m), frame) == Ok(m)
  {
    SumIsTotalModulo256(frame);
    assert frame[1..3] == [frame[1], frame[2]];
    DecodesExactlyTheFormat(frame[0], frame[3..|frame| - 1], m);
    MessageIsEncoded(frame[0], frame[3..|frame| - 1], m);
    DirectionOwnsOpcode(m);
  }

  // What is sent for a message is the frame of this format.
  lemma SendsTheFormat(m: Message)
    requires Encodable(m)
    ensures FrameAs(EncodeFrame(m), m)
  {
    MessageSurvives(m);
    ReceivesExactlyTheFormat(MessageDirection(m), EncodeFrame(m), m);
  }

  // The opcodes each side may send, and how any other byte is refused: letters
  // are reserved for requests and responses, all other bytes are refused as
  // such.
  lemma OpcodeVerdict(op: byte, direction: Direction)
    ensures var client := op in [0x50, 0x49, 0x43, 0x53, 0x47, 0x57, 0x4E, 0x55, 0x3F];
      var node := op in [0x6B, 0x69, 0x63, 0x73, 0x67, 0x77, 0x3A, 0x40, 0x21];
      Validate(op, direction) ==
        if (if direction == ClientToNode then client else node) then Ok(())
        else if client || node then Err(InvalidDirection(op, direction))
        else if 0x41 <= op <= 0x5A || 0x61 <= op <= 0x7A then Err(UnknownOpcode(op))
        else Err(ReservedOpcode(op))
  {
  }

  // How a slice that is no frame is refused, first fault first.
  lemma FrameVerdict(direction: Direction, frame: seq<byte>)
    ensures |frame| < 4 ==> ParseFrame(direction, frame) == Err(Truncated)
    ensures |frame| >= 4 && |frame| != 4 + Word(frame[1], frame[2]) ==>
      ParseFrame(direction, frame) == Err(LengthMismatch(Word(frame[1], frame[2]), |frame| - 4))
    ensures |frame| >= 4 && |frame| == 4 + Word(frame[1], frame[2]) && Total(frame) % 256 != 0 ==>
      ParseFrame(direction, frame) == Err(ChecksumMismatch(Total(frame) % 256))
    ensures |frame| >= 4 && |frame| == 4 + Word(frame[1], frame[2]) && Total(frame) % 256 == 0 ==>
      && (ParseFrame(direction, frame).Ok? <==> Validate(frame[0], direction).Ok?)
      && (ParseFrame(direction, frame).Err? ==> ParseFrame(direction, frame).error == Validate(frame[0], direction).error)
  {
    SumIsTotalModulo256(frame);
    if |frame| >= 4 {
      assert frame[1..3] == [frame[1], frame[2]];
    }
  }

  // The checksum byte in numbers: with opcode, both length bytes and the payload
  // it adds up to a multiple of 256. Of a longer payload only the low 16 bits of
  // the length count.
  lemma ChecksumInNumbers(op: byte, hi: byte, lo: byte, payload: seq<byte>)
    requires Word(hi, lo) == |payload| % 0x1_0000
    ensures Total([op, hi, lo] + payload + [ChecksumOf(op, payload)]) % 256 == 0
  {
    BodyInBytes(op, hi, lo, payload);
    OnlyChecksumSumsToZero(op, payload, ChecksumOf(op, payload));
    SumIsTotalModulo256(Body(op, payload) + [ChecksumOf(op, payload)]);
  }

  lemma BodyInBytes(op: byte, hi: byte, lo: byte, payload: seq<byte>)
    requires Word(hi, lo) == |payload| % 0x1_0000
    ensures Body(op, payload) == [op, hi, lo] + payload
  {
    WordIsU16([hi, lo], |payload| % 0x1_0000);
    assert [op] + [hi, lo] == [op, hi, lo];
  }

  // How reading one frame from a source ends: the transport fails, or the
  // declared length is more than the buffer holds, or the frame is judged.
  lemma ReadVerdict(direction: Direction, rest: seq<byte>, capacity: nat)
    ensures var r := ReadOutcome(direction, rest, capacity);
      && (r == Err(Transport) <==> |rest| < 3 || (Word(rest[1], rest[2]) <= capacity && |rest| < 4 + Word(rest[1], rest[2])))
      && (forall need, room: nat :: r == Err(BufferTooSmall(need, room)) <==>
            |rest| >= 3 && need == Word(rest[1], rest[2]) && room == capacity && capacity < need)
  {
    if |rest| >= 3 {
      assert rest[1..3] == [rest[1], rest[2]];
    }
  }

  // ---- Which fault is reported ----

  // The first fault of a string behind its length, and of what follows it.
  function StringFault(b: seq<byte>): (e: Option<PayloadError>)
  {
    if |b| < 2 || |b| < 2 + Word(b[0], b[1]) then Some(InternalLengthExceedsPayload)
    else
      var n := Word(b[0], b[1]);
      var text := b[2..2 + n];
      if 0 in text then Some(StringContainsNul)
      else if Utf8.FromUtf8(text).Invalid? then
        Some(InvalidUtf8(Utf8.FromUtf8(text).validUpTo, Utf8.FromUtf8(text).errorLen))
      else None
  }

  function EndFault(b: seq<byte>, end: nat): (e: Option<PayloadError>)
  {
    if |b| > end then Some(TrailingBytes(|b| - end)) else None
  }

  function WholeStringFault(b: seq<byte>): (e: Option<PayloadError>)
  {
    if StringFault(b).Some? then StringFault(b) else EndFault(b, 2 + Word(b[0], b[1]))
  }

  function ValueFault(b: seq<byte>): (e: Option<PayloadError>)
  {
    if b == [] then Some(InternalLengthExceedsPayload)
    else if b[0] == 1 then
      if |b| < 2 then Some(InternalLengthExceedsPayload)
      else if b[1] > 1 then Some(InvalidBool(b[1]))
      else EndFault(b, 2)
    else if b[0] == 2 then
      if |b| < 9 then Some(InternalLengthExceedsPayload) else EndFault(b, 9)
    else if b[0] == 3 then WholeStringFault(b[1..])
    else Some(InvalidValueKind(b[0]))
  }

  function LengthFault(op: byte, p: seq<byte>, n: nat): (e: Option<PayloadError>)
  {
    if |p| == n then None else Some(InvalidLength(op, n, |p|))
  }

  function PayloadFault(op: byte, p: seq<byte>): (e: Option<PayloadError>)
  {
    if op in [0x50, 0x49, 0x43, 0x6B, 0x3F] then LengthFault(op, p, 0)
    else if op in [0x53, 0x47, 0x4E, 0x55, 0x63, 0x21] then LengthFault(op, p, 2)
    else if op == 0x40 then LengthFault(op, p, 1)
    else if op == 0x69 then WholeStringFault(p)
    else if op == 0x67 || op == 0x77 then ValueFault(p)
    else if op == 0x57 then
      if |p| < 2 then Some(InternalLengthExceedsPayload) else ValueFault(p[2..])
    else if op == 0x73 then
      if |p| < 1 then Some(InternalLengthExceedsPayload)
      else if p[0] > 7 then Some(InvalidKeyFlags(p[0]))
      else WholeStringFault(p[1..])
    else if op == 0x3A then
      if StringFault(p).Some? then StringFault(p)
      else if !Caps.CapsOk(p[2..2 + Word(p[0], p[1])]) then Some(MalformedCaps)
      else EndFault(p, 2 + Word(p[0], p[1]))
    else Some(UnknownPayloadOpcode(op))
  }

  lemma StringFaultIsReported(b: seq<byte>)
    ensures TakeStr16(b).Err? <==> StringFault(b).Some?
    ensures TakeStr16(b).Err? ==> TakeStr16(b).error == StringFault(b).value
    ensures TakeStr16(b).Ok? ==> TakeStr16(b).value == (b[2..2 + Word(b[0], b[1])], b[2 + Word(b[0], b[1])..])
  {
    if |b| >= 2 {
      assert b[..2] == [b[0], b[1]];
      var n: nat := Word(b[0], b[1]);
      if |b| >= 2 + n {
        assert b[2..][..n] == b[2..2 + n] && b[2..][n..] == b[2 + n..];
      }
    }
  }

  lemma ValueFaultIsReported(b: seq<byte>)
    ensures var r := Exhausted(TakeValue(b));
      (r.Err? <==> ValueFault(b).Some?) && (r.Err? ==> r.error == ValueFault(b).value)
  {
    if b != [] {
      assert b[..1] == [b[0]];
      if b[0] == 1 && |b| >= 2 {
        assert b[1..][..1] == [b[1]] && |b[1..][1..]| == |b| - 2;
      } else if b[0] == 2 && |b| >= 9 {
        assert |b[1..][8..]| == |b| - 9;
      } else if b[0] == 3 {
        StringFaultIsReported(b[1..]);
      }
    }
  }

  // A payload that is no message is refused with the first fault in it.
  lemma RefusesTheFirstFault(op: byte, p: seq<byte>)
    ensures var r := DecodePayload(op, p);
      (r.Err? <==> PayloadFault(op, p).Some?) && (r.Err? ==> r.error == PayloadFault(op, p).value)
  {
    if op == 0x69 || op == 0x3A {
      StringFaultIsReported(p);
    } else if op == 0x67 || op == 0x77 {
      ValueFaultIsReported(p);
    } else if op == 0x57 && |p| >= 2 {
      ValueFaultIsReported(p[2..]);
    } else if op == 0x73 && |p| >= 1 {
      assert p[..1] == [p[0]];
      StringFaultIsReported(p[1..]);
    }
  }
}
