// Requests as the embedded server sees them, and what the next request of a
// byte stream is.
module Requests {
  import opened Bytes
  import opened Errors
  import opened Opcodes
  import opened Checksum
  import opened Messages
  import opened Frames
  import opened Utf8Stream
  import opened Utf8

  // A decoded value. A string too long for the server's buffer keeps only the
  // fact that it was well-formed.
  datatype WireValue =
    | WBool(flag: bool)
    | WI64(number: i64)
    | WStr(text: seq<byte>)
    | WOversized

  datatype Incoming =
    | Ping
    | Identify
    | GetCaps
    | GetKeytabLen
    | GetKey(keyref: u16)
    | Get(keyref: u16)
    | Write(keyref: u16, value: WireValue)
    | Observe(keyref: u16)
    | Unobserve(keyref: u16)

  function Shrink(maxStr: nat, v: Value): (w: WireValue)
  {
    match v
    case Bool(flag) => WBool(flag)
    case I64(number) => WI64(number)
    case Str(text) => if |text| <= maxStr then WStr(text) else WOversized
  }

  function ToIncoming(maxStr: nat, m: Message): (r: Incoming)
    requires FromClient(m)
  {
    match m
    case CapsAsked => GetCaps
    case Asked(request) =>
      match request
      case Ping => Incoming.Ping
      case Identify => Incoming.Identify
      case GetKeytabLen => Incoming.GetKeytabLen
      case GetKey(k) => Incoming.GetKey(k)
      case Get(k) => Incoming.Get(k)
      case Write(k, v) => Incoming.Write(k, Shrink(maxStr, v))
      case Observe(k) => Incoming.Observe(k)
      case Unobserve(k) => Incoming.Unobserve(k)
  }

  // The next request of a stream by the batch parser: `used` bytes belong to
  // it, whether it is accepted or not.
  datatype Next =
    | Ended
    | Got(request: Incoming, used: nat)
    | Bad(used: nat)

  function NextRequest(maxStr: nat, rest: seq<byte>): (r: Next)
    ensures r.Got? || r.Bad? ==> 0 < r.used <= |rest|
  {
    if |rest| < 3 then Ended
    else if Validate(rest[0], ClientToNode).Err? then Bad(3)
    else
      var size := FRAME_OVERHEAD + FromU16Be(rest[1..3]);
      if |rest| < size then Ended
      else match Receive(ClientToNode, rest[..size])
        case Err(_) => Bad(size)
        case Ok(m) =>
          FrameIsCanonical(ClientToNode, rest[..size]);
          Got(ToIncoming(maxStr, m), size)
  }

  // With a valid opcode, acceptance is the checksum and the payload.
  lemma NextOfCompleteFrame(maxStr: nat, rest: seq<byte>)
    requires |rest| >= 3 && Validate(rest[0], ClientToNode).Ok?
    requires |rest| >= FRAME_OVERHEAD + FromU16Be(rest[1..3])
    ensures var n := FromU16Be(rest[1..3]);
      var decoded := DecodePayload(rest[0], rest[3..3 + n]);
      if Sum(rest[..4 + n]) == 0 && decoded.Ok?
      then FromClient(decoded.value)
        && NextRequest(maxStr, rest) == Got(ToIncoming(maxStr, decoded.value), 4 + n)
      else NextRequest(maxStr, rest) == Bad(4 + n)
  {
    var n := FromU16Be(rest[1..3]);
    var frame := rest[..4 + n];
    assert frame[1..3] == rest[1..3];
    assert frame[3..|frame| - 1] == rest[3..3 + n];
    if Receive(ClientToNode, frame).Ok? {
      FrameIsCanonical(ClientToNode, frame);
    }
  }

  // A request that can have come in a frame. A WRITE spends five payload bytes
  // on keyref, tag and length; a string too long for the buffer keeps no text.
  predicate Framed(request: Incoming)
  {
    request.Write? && request.value.WStr? ==> IsWireString(request.value.text) && |request.value.text| <= 65530
  }

  lemma ReadRequestsAreFramed(maxStr: nat, rest: seq<byte>)
    requires NextRequest(maxStr, rest).Got?
    ensures Framed(NextRequest(maxStr, rest).request)
  {
    var frame := rest[..FRAME_OVERHEAD + FromU16Be(rest[1..3])];
    FrameIsCanonical(ClientToNode, frame);
    var m := Receive(ClientToNode, frame).value;
    if m.Asked? && m.request.Write? {
      assert |Payload(m)| == 2 + |ValueBytes(m.request.value)|;
    }
  }

  // ---- Whole streams ----

  // All requests of a stream, up to the first one that is cut off or refused.
  function ReadAll(maxStr: nat, stream: seq<byte>): (requests: seq<Incoming>)
    decreases |stream|
  {
    match NextRequest(maxStr, stream)
    case Got(request, used) => [request] + ReadAll(maxStr, stream[used..])
    case _ => []
  }

  // What is left of a stream behind its requests.
  function Leftover(maxStr: nat, stream: seq<byte>): (rest: seq<byte>)
    ensures !NextRequest(maxStr, rest).Got?
    decreases |stream|
  {
    match NextRequest(maxStr, stream)
    case Got(request, used) => Leftover(maxStr, stream[used..])
    case _ => stream
  }

  predicate FromClient(m: Message)
  {
    m.Asked? || m.CapsAsked?
  }

  predicate IsRequest(m: Message)
  {
    FromClient(m) && Encodable(m)
  }

  predicate AllRequests(ms: seq<Message>)
  {
    forall i {:trigger ms[i]} :: 0 <= i < |ms| ==> IsRequest(ms[i])
  }

  function EncodeAll(ms: seq<Message>): (stream: seq<byte>)
  {
    if ms == [] then [] else EncodeFrame(ms[0]) + EncodeAll(ms[1..])
  }

  function IncomingAll(maxStr: nat, ms: seq<Message>): (requests: seq<Incoming>)
    requires AllRequests(ms)
    ensures |requests| == |ms|
    ensures forall i :: 0 <= i < |ms| ==> requests[i] == ToIncoming(maxStr, ms[i])
  {
    if ms == [] then [] else [ToIncoming(maxStr, ms[0])] + IncomingAll(maxStr, ms[1..])
  }

  lemma NextOfEncoded(maxStr: nat, m: Message, more: seq<byte>)
    requires IsRequest(m)
    ensures NextRequest(maxStr, EncodeFrame(m) + more) == Got(ToIncoming(maxStr, m), |EncodeFrame(m)|)
  {
    var rest := EncodeFrame(m) + more;
    DirectionOwnsOpcode(m);
    MessageSurvives(m);
    FrontOfStream(OpcodeOf(m), Payload(m), more);
  }

  lemma FrontOfStream(op: byte, payload: seq<byte>, more: seq<byte>)
    requires |payload| < 0x1_0000
    ensures var frame := FrameBytes(op, payload);
      && |frame| == FRAME_OVERHEAD + |payload|
      && (frame + more)[0] == op
      && FromU16Be((frame + more)[1..3]) == |payload|
      && (frame + more)[..|frame|] == frame
  {
    var frame := FrameBytes(op, payload);
    assert (frame + more)[1..3] == U16Be(|payload|);
  }

  // Pipelined requests are separated exactly where they were joined.
  lemma {:induction false} PipelineSplits(maxStr: nat, ms: seq<Message>)
    requires AllRequests(ms)
    ensures ReadAll(maxStr, EncodeAll(ms)) == IncomingAll(maxStr, ms)
  {
    if ms != [] {
      var frame, more := EncodeFrame(ms[0]), EncodeAll(ms[1..]);
      NextOfEncoded(maxStr, ms[0], more);
      assert (frame + more)[|frame|..] == more;
      PipelineSplits(maxStr, ms[1..]);
    }
  }

  // A read that is dropped after `lost` bytes and started again reads at the
  // wrong place. Only at a frame boundary is every stream still read right.
  ghost predicate RestartIsHarmless(maxStr: nat, lost: nat)
  {
    forall m: Message :: IsRequest(m) && lost <= |EncodeFrame(m)| ==>
      NextRequest(maxStr, EncodeFrame(m)[lost..]) == NextRequest(maxStr, EncodeFrame(m))
  }

  // The longest frame: a full u16 payload.
  const MAX_FRAME: nat := FRAME_OVERHEAD + 0xFFFF

  lemma RestartHarmlessOnlyAtBoundary(maxStr: nat, lost: nat)
    requires lost <= MAX_FRAME
    ensures RestartIsHarmless(maxStr, lost) <==> lost == 0
  {
    if lost == 0 {
      forall m: Message | IsRequest(m) && lost <= |EncodeFrame(m)|
        ensures NextRequest(maxStr, EncodeFrame(m)[lost..]) == NextRequest(maxStr, EncodeFrame(m))
      {
        assert EncodeFrame(m)[0..] == EncodeFrame(m);
      }
    } else {
      var m := LostRequest(lost);
      NextOfEncoded(maxStr, m, []);
      assert EncodeFrame(m) + [] == EncodeFrame(m);
    }
  }

  // A request whose remainder after `lost` bytes does not start with an opcode
  // a client may send.
  function LostRequest(lost: nat): (m: Message)
    requires 0 < lost <= MAX_FRAME
    ensures IsRequest(m) && lost <= |EncodeFrame(m)|
    ensures forall maxStr: nat :: !NextRequest(maxStr, EncodeFrame(m)[lost..]).Got?
  {
    if lost <= 4 then
      LostCapsAsked(lost);
      CapsAsked
    else if lost > MAX_FRAME - 2 then
      var n := if lost == MAX_FRAME then lost - 9 else lost - 8;
      LongestWrite(n);
      NothingAt(EncodeFrame(Asked(Request.Write(0, Str(Letters(n))))), lost);
      Asked(Request.Write(0, Str(Letters(n))))
    else
      var n := if lost < 8 then 1 else lost - 7;
      LettersAreText(n);
      LostWrite(n, lost);
      NothingAt(EncodeFrame(Asked(Request.Write(0, Str(Letters(n))))), lost);
      Asked(Request.Write(0, Str(Letters(n))))
  }

  // No request starts with too few bytes, or with a byte that is no opcode.
  lemma NothingAt(f: seq<byte>, lost: nat)
    requires lost <= |f| && (lost + 3 <= |f| ==> f[lost] == 0x61 || f[lost] <= 3)
    ensures forall maxStr: nat :: !NextRequest(maxStr, f[lost..]).Got?
  {
    if lost + 3 <= |f| {
      NotARequestOpcode(f[lost]);
    }
  }

  lemma LostCapsAsked(lost: nat)
    requires 0 < lost <= 4
    ensures IsRequest(CapsAsked) && lost <= |EncodeFrame(CapsAsked)|
    ensures forall maxStr: nat :: !NextRequest(maxStr, EncodeFrame(CapsAsked)[lost..]).Got?
  {
    var f := EncodeFrame(CapsAsked);
    assert f[..3] == [GETCAPS, 0, 0];
    assert f[..3][1] == f[1];
    NothingAt(f, lost);
  }

  function Letters(n: nat): (s: seq<byte>)
    ensures |s| == n
  {
    if n == 0 then [] else [0x61] + Letters(n - 1)
  }

  lemma {:induction false} LettersAreText(n: nat)
    ensures IsWireString(Letters(n))
    ensures forall i :: 0 <= i < n ==> Letters(n)[i] == 0x61
  {
    if n > 0 {
      LettersAreText(n - 1);
      ValidThen([0x61], Letters(n - 1));
    }
  }

  lemma NotARequestOpcode(b: byte)
    requires b == 0x61 || b <= 3
    ensures Validate(b, ClientToNode).Err?
  {
  }

  lemma LongestWrite(n: nat)
    requires n == MAX_FRAME - 9
    ensures var m := Asked(Request.Write(0, Str(Letters(n)))); IsRequest(m) && |EncodeFrame(m)| == MAX_FRAME
  {
    LettersAreText(n);
    var payload := U16Be(0) + ([STR_TAG] + (U16Be(n) + Letters(n)));
    assert payload == Payload(Asked(Request.Write(0, Str(Letters(n)))));
  }

  lemma LostWrite(n: nat, lost: nat)
    requires 0 < n && n + 5 < 0x1_0000
    requires if lost < 8 then n == 1 && lost >= 5 else n == lost - 7
    ensures var f := EncodeFrame(Asked(Request.Write(0, Str(Letters(n)))));
      lost < |f| && (f[lost] == 0x61 || f[lost] <= 3)
  {
    var payload := U16Be(0) + ([STR_TAG] + (U16Be(n) + Letters(n)));
    assert payload == Payload(Asked(Request.Write(0, Str(Letters(n)))));
    PayloadByte(WRITE, payload, lost - 3);
    LettersAreText(n);
    if lost >= 8 {
      assert payload[lost - 3] == Letters(n)[lost - 8];
    } else {
      assert payload[2..5] == [STR_TAG, 0, 1];
      assert payload[lost - 3] == payload[2..5][lost - 5];
    }
  }

  lemma PayloadByte(op: byte, payload: seq<byte>, i: nat)
    requires i < |payload|
    ensures i + 3 < |FrameBytes(op, payload)| && FrameBytes(op, payload)[i + 3] == payload[i]
  {
  }
}
