// The embedded server's request reader: one frame in constant memory, with a
// running checksum, discard loops and a chunked string check.
module RequestReader {
  import opened Bytes
  import opened Errors
  import opened Opcodes
  import opened Checksum
  import opened Utf8
  import opened Utf8Stream
  import opened Messages
  import opened Frames
  import opened Requests
  import opened WireForm
  import opened RequestBytes

  datatype ServerError =
    | Read
    | ProtocolFrame(frame: FrameError)
    | ProtocolPayload(payload: PayloadError)

  // The reader has taken data[start..pos] of a frame and summed it.
  ghost predicate Tracking(stream: ByteSource, sum: FrameSum, start: nat)
    reads stream, sum
  {
    && stream.Valid()
    && start + 3 <= stream.pos
    && sum.acc == Sum(stream.data[start..stream.pos])
  }

  // The fault of a text: a NUL byte first, then the first broken character. Of a
  // text that does not fit the buffer only the kind of a fault is known, and not
  // which one, if it has both.
  ghost predicate TextFault(maxStr: nat, text: seq<byte>, e: PayloadError)
  {
    if |text| > maxStr then LongTextFault(text, e)
    else if 0 in text then e == StringContainsNul
    else FromUtf8(text).Invalid? && e == InvalidUtf8(FromUtf8(text).validUpTo, FromUtf8(text).errorLen)
  }

  predicate LongTextFault(text: seq<byte>, e: PayloadError)
  {
    || (e.StringContainsNul? && 0 in text)
    || (e.InvalidUtf8? && FromUtf8(text).Invalid?)
  }

  // Bytes that should be `expected` many.
  predicate LengthFault(actual: nat, expected: nat, e: PayloadError)
  {
    && actual != expected
    && e == if actual < expected then InternalLengthExceedsPayload else TrailingBytes(actual - expected)
  }

  // The fault of a WRITE payload: lengths first, then the value.
  ghost predicate WriteFault(maxStr: nat, p: seq<byte>, e: PayloadError)
  {
    if |p| < 3 then e == InvalidLength(0x57, 3, |p|)
    else if p[2] == 1 then
      LengthFault(|p|, 4, e) || (|p| == 4 && p[3] > 1 && e == InvalidBool(p[3]))
    else if p[2] == 2 then LengthFault(|p|, 11, e)
    else if p[2] == 3 then
      if |p| < 5 then e == InternalLengthExceedsPayload
      else LengthFault(|p|, 5 + Word(p[3], p[4]), e) || (|p| == 5 + Word(p[3], p[4]) && TextFault(maxStr, p[5..], e))
    else e == InvalidValueKind(p[2])
  }

  ghost predicate StreamFault(maxStr: nat, op: byte, p: seq<byte>, e: PayloadError)
  {
    if op == 0x57 then WriteFault(maxStr, p, e)
    else
      var expected := if op in [0x50, 0x49, 0x43, 0x3F] then 0 else 2;
      |p| != expected && e == InvalidLength(op, expected, |p|)
  }

  // What is reported of the bytes taken for a frame that is refused: the opcode
  // first, then the checksum, then the payload.
  ghost predicate Blames(maxStr: nat, f: seq<byte>, e: ServerError)
  {
    && f != []
    && if !ClientByte(f[0]) then e == ProtocolFrame(Validate(f[0], ClientToNode).error)
       else if Sum(f) != 0 then e == ProtocolFrame(ChecksumMismatch(Sum(f)))
       else |f| >= 4 && e.ProtocolPayload? && StreamFault(maxStr, f[0], f[3..|f| - 1], e.payload)
  }

  // The reader's verdict on the frame at `start` is the batch parser's: same
  // acceptance, same request, and the whole frame consumed either way.
  ghost predicate Settled(maxStr: nat, data: seq<byte>, start: nat, r: Result<Incoming, ServerError>, pos: nat)
  {
    && start <= |data|
    && match NextRequest(maxStr, data[start..])
       case Ended => r == Err(Read)
       case Got(request, used) => r == Ok(request) && pos == start + used
       case Bad(used) => pos == start + used <= |data| && r.Err? && Blames(maxStr, data[start..start + used], r.error)
  }

  lemma Longer(data: seq<byte>, from: nat, mid: nat, to: nat)
    requires from <= mid <= to <= |data|
    ensures data[from..to] == data[from..mid] + data[mid..to]
  {
  }

  method ReadExactTracked(stream: ByteSource, buf: array<byte>, len: nat, sum: FrameSum, ghost start: nat)
      returns (ok: bool)
    requires Tracking(stream, sum, start) && len <= buf.Length
    modifies stream, buf, sum
    ensures stream.Valid()
    ensures ok <==> old(stream.pos) + len <= |stream.data|
    ensures ok ==> Tracking(stream, sum, start) && stream.pos == old(stream.pos) + len
    ensures ok ==> buf[..len] == stream.data[old(stream.pos)..stream.pos]
  {
    ghost var before := stream.data[start..stream.pos];
    ok := stream.ReadExact(buf, len);
    if ok {
      sum.AddSlice(buf[..len]);
      SumConcat(before, buf[..len]);
      Longer(stream.data, start, old(stream.pos), stream.pos);
    }
  }

  method DiscardExact(stream: ByteSource, len: nat, sum: FrameSum, ghost start: nat) returns (ok: bool)
    requires Tracking(stream, sum, start)
    modifies stream, sum
    ensures stream.Valid()
    ensures ok <==> old(stream.pos) + len <= |stream.data|
    ensures ok ==> Tracking(stream, sum, start) && stream.pos == old(stream.pos) + len
  {
    var scratch := new byte[DISCARD_CHUNK](_ => 0);
    var remaining := len;
    while remaining != 0
      invariant 0 <= remaining <= len
      invariant Tracking(stream, sum, start)
      invariant stream.pos == old(stream.pos) + len - remaining
    {
      var chunkLen := if remaining < DISCARD_CHUNK then remaining else DISCARD_CHUNK;
      ok := ReadExactTracked(stream, scratch, chunkLen, sum, start);
      if !ok {
        return;
      }
      remaining := remaining - chunkLen;
    }
    ok := true;
  }

  function SumVerdict(total: byte): (r: Result<(), ServerError>)
  {
    if total == 0 then Ok(()) else Err(ProtocolFrame(ChecksumMismatch(total)))
  }

  method FinishChecksum(stream: ByteSource, sum: FrameSum, ghost start: nat) returns (r: Result<(), ServerError>)
    requires Tracking(stream, sum, start)
    modifies stream, sum
    ensures stream.Valid()
    ensures old(stream.pos) == |stream.data| ==> r == Err(Read)
    ensures old(stream.pos) < |stream.data| ==> stream.pos == old(stream.pos) + 1
    ensures old(stream.pos) < |stream.data| ==> r == SumVerdict(Sum(stream.data[start..stream.pos]))
  {
    ghost var before := stream.data[start..stream.pos];
    var checksum := new byte[1](_ => 0);
    var ok := stream.ReadExact(checksum, 1);
    if !ok {
      return Err(Read);
    }
    sum.AddByte(checksum[0]);
    assert checksum[..1] == [checksum[0]];
    Longer(stream.data, start, old(stream.pos), stream.pos);
    SumAppend(before, checksum[0]);
    var verdict := sum.Finish();
    r := if verdict.Ok? then Ok(()) else Err(ProtocolFrame(ChecksumMismatch(verdict.error)));
  }

  // A frame with a valid request opcode starts here and declares `n` bytes.
  ghost predicate Opened(data: seq<byte>, start: nat, op: byte, n: nat)
  {
    && start + 3 <= |data|
    && data[start] == op
    && Validate(op, ClientToNode).Ok?
    && FromU16Be(data[start + 1..start + 3]) == n
  }

  ghost predicate Complete(data: seq<byte>, start: nat, n: nat)
  {
    start + 4 + n <= |data|
  }

  function PayloadAt(data: seq<byte>, start: nat, n: nat): (p: seq<byte>)
    requires start + 4 + n <= |data|
  {
    data[start + 3..start + 3 + n]
  }

  lemma NextWhenOpened(maxStr: nat, data: seq<byte>, start: nat, op: byte, n: nat)
    requires Opened(data, start, op, n)
    ensures !Complete(data, start, n) ==> NextRequest(maxStr, data[start..]) == Ended
    ensures Complete(data, start, n) ==>
      var decoded := DecodePayload(op, PayloadAt(data, start, n));
      if Sum(data[start..start + 4 + n]) == 0 && decoded.Ok?
      then FromClient(decoded.value) && NextRequest(maxStr, data[start..]) == Got(ToIncoming(maxStr, decoded.value), 4 + n)
      else NextRequest(maxStr, data[start..]) == Bad(4 + n)
  {
    var rest := data[start..];
    assert rest[1..3] == data[start + 1..start + 3];
    if Complete(data, start, n) {
      assert rest[3..3 + n] == PayloadAt(data, start, n);
      assert rest[..4 + n] == data[start..start + 4 + n];
      NextOfCompleteFrame(maxStr, rest);
    }
  }

  // Ends a frame whose payload is already known to decode to `decoded`, or not
  // to decode at all.
  method Conclude(stream: ByteSource, sum: FrameSum, decoded: Result<Incoming, PayloadError>,
                  maxStr: nat, ghost start: nat, ghost op: byte, ghost n: nat)
      returns (r: Result<Incoming, ServerError>)
    requires Tracking(stream, sum, start) && stream.pos == start + 3 + n
    requires Opened(stream.data, start, op, n)
    requires Complete(stream.data, start, n) ==>
      var reference := DecodePayload(op, PayloadAt(stream.data, start, n));
      if reference.Ok? then FromClient(reference.value) && decoded == Ok(ToIncoming(maxStr, reference.value))
      else decoded.Err? && StreamFault(maxStr, op, PayloadAt(stream.data, start, n), decoded.error)
    modifies stream, sum
    ensures stream.Valid() && Settled(maxStr, stream.data, start, r, stream.pos)
  {
    var finished := FinishChecksum(stream, sum, start);
    r := if finished.Err? then Err(finished.error) else Outcome(decoded);
    Concluded(maxStr, stream.data, start, op, n, decoded, r);
  }

  function Outcome(decoded: Result<Incoming, PayloadError>): (r: Result<Incoming, ServerError>)
  {
    if decoded.Ok? then Ok(decoded.value) else Err(ProtocolPayload(decoded.error))
  }

  // That outcome agrees with the batch parser when `decoded` does.
  lemma Concluded(maxStr: nat, data: seq<byte>, start: nat, op: byte, n: nat, decoded: Result<Incoming, PayloadError>,
                  r: Result<Incoming, ServerError>)
    requires Opened(data, start, op, n)
    requires Complete(data, start, n) ==>
      var reference := DecodePayload(op, PayloadAt(data, start, n));
      if reference.Ok? then FromClient(reference.value) && decoded == Ok(ToIncoming(maxStr, reference.value))
      else decoded.Err? && StreamFault(maxStr, op, PayloadAt(data, start, n), decoded.error)
    requires
      if !Complete(data, start, n) then r == Err(Read)
      else
        var verdict := SumVerdict(Sum(data[start..start + 4 + n]));
        r == if verdict.Err? then Err(verdict.error) else Outcome(decoded)
    ensures Complete(data, start, n) ==> Settled(maxStr, data, start, r, start + 4 + n)
    ensures !Complete(data, start, n) ==> forall pos :: Settled(maxStr, data, start, r, pos)
  {
    NextWhenOpened(maxStr, data, start, op, n);
    if Complete(data, start, n) && r.Err? {
      BlamedAt(maxStr, data, start, op, n, r.error);
    }
  }

  // What is reported of a complete frame, told from its place in the stream.
  lemma BlamedAt(maxStr: nat, data: seq<byte>, start: nat, op: byte, n: nat, e: ServerError)
    requires Opened(data, start, op, n) && Complete(data, start, n)
    requires var sum := Sum(data[start..start + 4 + n]);
      if sum != 0 then e == ProtocolFrame(ChecksumMismatch(sum))
      else e.ProtocolPayload? && StreamFault(maxStr, op, PayloadAt(data, start, n), e.payload)
    ensures Blames(maxStr, data[start..start + 4 + n], e)
  {
    Within(data, start, 4 + n, 3, 3 + n);
  }

  lemma Within(data: seq<byte>, start: nat, len: nat, from: nat, to: nat)
    requires from <= to <= len && start + len <= |data|
    ensures data[start..start + len][from..to] == data[start + from..start + to]
  {
    var a, b := data[start..start + len][from..to], data[start + from..start + to];
    assert |a| == |b| && forall k :: 0 <= k < |a| ==> a[k] == b[k];
  }

  // Discards what is left of a payload that cannot decode.
  method Reject(stream: ByteSource, remaining: nat, sum: FrameSum, error: PayloadError,
                maxStr: nat, ghost start: nat, ghost op: byte, ghost n: nat)
      returns (r: Result<Incoming, ServerError>)
    requires Tracking(stream, sum, start) && stream.pos + remaining == start + 3 + n
    requires Opened(stream.data, start, op, n)
    requires Complete(stream.data, start, n) ==> DecodePayload(op, PayloadAt(stream.data, start, n)).Err?
    requires Complete(stream.data, start, n) ==> StreamFault(maxStr, op, PayloadAt(stream.data, start, n), error)
    modifies stream, sum
    ensures stream.Valid() && Settled(maxStr, stream.data, start, r, stream.pos)
  {
    NextWhenOpened(maxStr, stream.data, start, op, n);
    var ok := DiscardExact(stream, remaining, sum, start);
    if !ok {
      return Err(Read);
    }
    r := Conclude(stream, sum, Err(error), maxStr, start, op, n);
  }

  method ReadEmptyRequest(stream: ByteSource, op: byte, n: nat, sum: FrameSum, request: Incoming,
                          maxStr: nat, ghost start: nat)
      returns (r: Result<Incoming, ServerError>)
    requires Tracking(stream, sum, start) && stream.pos == start + 3
    requires Opened(stream.data, start, op, n)
    requires match op
      case 0x50 => request == Incoming.Ping
      case 0x49 => request == Incoming.Identify
      case 0x43 => request == Incoming.GetKeytabLen
      case 0x3f => request == GetCaps
      case _ => false
    modifies stream, sum
    ensures stream.Valid() && Settled(maxStr, stream.data, start, r, stream.pos)
  {
    if n != 0 {
      r := Reject(stream, n, sum, InvalidLength(op, 0, n), maxStr, start, op, n);
      return;
    }
    r := Conclude(stream, sum, Ok(request), maxStr, start, op, n);
  }

  method ReadKeyrefRequest(stream: ByteSource, op: byte, n: nat, sum: FrameSum, make: u16 -> Incoming,
                           maxStr: nat, ghost start: nat)
      returns (r: Result<Incoming, ServerError>)
    requires Tracking(stream, sum, start) && stream.pos == start + 3
    requires Opened(stream.data, start, op, n)
    requires op in {GETKEY, GET, OBSERVE, UNOBSERVE}
    requires forall k: u16 :: make(k) == KeyrefRequest(op, k)
    modifies stream, sum
    ensures stream.Valid() && Settled(maxStr, stream.data, start, r, stream.pos)
  {
    if n != 2 {
      r := Reject(stream, n, sum, InvalidLength(op, 2, n), maxStr, start, op, n);
      return;
    }
    NextWhenOpened(maxStr, stream.data, start, op, n);
    var keyref := new byte[2](_ => 0);
    var ok := ReadExactTracked(stream, keyref, 2, sum, start);
    if !ok {
      return Err(Read);
    }
    assert keyref[..2] == stream.data[start + 3..start + 3 + n];
    r := Conclude(stream, sum, Ok(make(FromU16Be(keyref[..2]))), maxStr, start, op, n);
  }

  function KeyrefRequest(op: byte, k: u16): (r: Incoming)
  {
    if op == GETKEY then Incoming.GetKey(k)
    else if op == GET then Incoming.Get(k)
    else if op == OBSERVE then Incoming.Observe(k)
    else Incoming.Unobserve(k)
  }

  // ---- WRITE ----

  // The cases of a WRITE payload after the keyref and the kind byte.
  lemma WriteDecodes(p: seq<byte>)
    ensures DecodePayload(WRITE, p) == WritePayload(p)
    ensures |p| < 3 ==> WritePayload(p).Err?
  {
  }

  lemma WriteCases(p: seq<byte>)
    requires |p| >= 3
    ensures WritePayload(p).Err? ==> Exhausted(TakeValue(p[2..])).Err?
    ensures WritePayload(p).Ok? ==>
      Exhausted(TakeValue(p[2..])).Ok?
      && WritePayload(p) == Ok(Asked(Request.Write(FromU16Be(p[..2]), Exhausted(TakeValue(p[2..])).value)))
  {
  }

  lemma BoolBody(kind: byte, body: seq<byte>)
    requires kind == BOOL_TAG
    ensures Exhausted(TakeValue([kind] + body)).Ok? <==> |body| == 1 && body[0] <= 1
    ensures |body| == 1 && body[0] <= 1 ==> Exhausted(TakeValue([kind] + body)) == Ok(Bool(body[0] == 1))
  {
    assert ([kind] + body)[1..] == body;
  }

  lemma I64Body(kind: byte, body: seq<byte>)
    requires kind == I64_TAG
    ensures Exhausted(TakeValue([kind] + body)).Ok? <==> |body| == 8
    ensures |body| == 8 ==> Exhausted(TakeValue([kind] + body)) == Ok(I64(FromI64Be(body)))
  {
    assert ([kind] + body)[1..] == body;
    assert |body| == 8 ==> body[..8] == body;
  }

  lemma StrBody(kind: byte, body: seq<byte>)
    requires kind == STR_TAG
    ensures Exhausted(TakeValue([kind] + body)).Ok? <==>
      |body| >= 2 && |body| - 2 == FromU16Be(body[..2]) && IsWireString(body[2..])
    ensures Exhausted(TakeValue([kind] + body)).Ok? ==> Exhausted(TakeValue([kind] + body)) == Ok(Str(body[2..]))
  {
    assert ([kind] + body)[1..] == body;
    if |body| >= 2 && FromU16Be(body[..2]) <= |body| - 2 {
      var n := FromU16Be(body[..2]);
      assert n == |body| - 2 ==> body[2..][..n] == body[2..];
    }
  }

  lemma OtherBody(kind: byte, body: seq<byte>)
    requires kind > STR_TAG || kind == 0
    ensures Exhausted(TakeValue([kind] + body)).Err?
  {
  }

  // The part of an opened WRITE frame after its kind byte.
  ghost predicate AtBody(data: seq<byte>, start: nat, n: nat, keyref: u16, kind: byte)
  {
    && Opened(data, start, WRITE, n)
    && 3 <= n
    && start + 6 <= |data|
    && keyref == FromU16Be(data[start + 3..start + 5])
    && kind == data[start + 5]
  }

  function BodyAt(data: seq<byte>, start: nat, n: nat): (b: seq<byte>)
    requires start + 4 + n <= |data| && 3 <= n
  {
    data[start + 6..start + 3 + n]
  }

  lemma WriteAtBody(data: seq<byte>, start: nat, n: nat, keyref: u16, kind: byte)
    requires AtBody(data, start, n, keyref, kind) && Complete(data, start, n)
    ensures var value := Exhausted(TakeValue([kind] + BodyAt(data, start, n)));
      var decoded := DecodePayload(WRITE, PayloadAt(data, start, n));
      if value.Ok? then decoded == Ok(Asked(Request.Write(keyref, value.value))) else decoded.Err?
  {
    var p := PayloadAt(data, start, n);
    WriteDecodes(p);
    WriteCases(p);
    assert p[..2] == data[start + 3..start + 5];
    assert p[2..] == [kind] + BodyAt(data, start, n);
  }

  method ReadBoolWrite(stream: ByteSource, n: nat, sum: FrameSum, keyref: u16, ghost kind: byte,
                       maxStr: nat, ghost start: nat)
      returns (r: Result<Incoming, ServerError>)
    requires Tracking(stream, sum, start) && stream.pos == start + 6
    requires AtBody(stream.data, start, n, keyref, kind) && kind == BOOL_TAG
    modifies stream, sum
    ensures stream.Valid() && Settled(maxStr, stream.data, start, r, stream.pos)
  {
    NextWhenOpened(maxStr, stream.data, start, WRITE, n);
    if Complete(stream.data, start, n) {
      WriteAtBody(stream.data, start, n, keyref, kind);
      BoolBody(kind, BodyAt(stream.data, start, n));
    }
    var remaining := n - 3;
    if remaining != 1 {
      var error := if remaining < 1 then InternalLengthExceedsPayload else TrailingBytes(remaining - 1);
      r := Reject(stream, remaining, sum, error, maxStr, start, WRITE, n);
      return;
    }
    var value := new byte[1](_ => 0);
    var ok := ReadExactTracked(stream, value, 1, sum, start);
    if !ok {
      return Err(Read);
    }
    assert value[0] == value[..1][0] == stream.data[start + 6];
    var decoded :=
      if value[0] == 0 then Ok(Incoming.Write(keyref, WBool(false)))
      else if value[0] == 1 then Ok(Incoming.Write(keyref, WBool(true)))
      else Err(InvalidBool(value[0]));
    r := Conclude(stream, sum, decoded, maxStr, start, WRITE, n);
  }

  method ReadI64Write(stream: ByteSource, n: nat, sum: FrameSum, keyref: u16, ghost kind: byte,
                      maxStr: nat, ghost start: nat)
      returns (r: Result<Incoming, ServerError>)
    requires Tracking(stream, sum, start) && stream.pos == start + 6
    requires AtBody(stream.data, start, n, keyref, kind) && kind == I64_TAG
    modifies stream, sum
    ensures stream.Valid() && Settled(maxStr, stream.data, start, r, stream.pos)
  {
    NextWhenOpened(maxStr, stream.data, start, WRITE, n);
    if Complete(stream.data, start, n) {
      WriteAtBody(stream.data, start, n, keyref, kind);
      I64Body(kind, BodyAt(stream.data, start, n));
    }
    var remaining := n - 3;
    if remaining != 8 {
      var error := if remaining < 8 then InternalLengthExceedsPayload else TrailingBytes(remaining - 8);
      r := Reject(stream, remaining, sum, error, maxStr, start, WRITE, n);
      return;
    }
    var value := new byte[8](_ => 0);
    var ok := ReadExactTracked(stream, value, 8, sum, start);
    if !ok {
      return Err(Read);
    }
    assert value[..8] == stream.data[start + 6..start + 14];
    r := Conclude(stream, sum, Ok(Incoming.Write(keyref, WI64(FromI64Be(value[..8])))), maxStr, start, WRITE, n);
  }

  // A string WRITE whose lengths agree decodes exactly when its text is valid.
  lemma StrAtBody(data: seq<byte>, start: nat, n: nat, keyref: u16, kind: byte, len: nat)
    requires AtBody(data, start, n, keyref, kind) && kind == STR_TAG && start + 8 + len <= |data|
    requires n == 5 + len && FromU16Be(data[start + 6..start + 8]) == len
    ensures Complete(data, start, n) ==>
      var text, decoded := data[start + 8..start + 8 + len], DecodePayload(WRITE, PayloadAt(data, start, n));
      if IsWireString(text) then decoded == Ok(Asked(Request.Write(keyref, Str(text)))) else decoded.Err?
    ensures Complete(data, start, n) ==>
      forall maxStr: nat, e :: TextFault(maxStr, data[start + 8..start + 8 + len], e) ==>
        StreamFault(maxStr, WRITE, PayloadAt(data, start, n), e)
  {
    if Complete(data, start, n) {
      var p := PayloadAt(data, start, n);
      assert p[2] == kind && p[5..] == data[start + 8..start + 8 + len];
      assert data[start + 6..start + 8] == [p[3], p[4]];
      var body := BodyAt(data, start, n);
      WriteAtBody(data, start, n, keyref, kind);
      StrBody(kind, body);
      assert body[..2] == data[start + 6..start + 8];
      assert body[2..] == data[start + 8..start + 8 + len];
    }
  }

  // A string that fits the scratch buffer.
  method ReadShortString(stream: ByteSource, n: nat, sum: FrameSum, keyref: u16, ghost kind: byte,
                         len: nat, scratch: array<byte>, ghost start: nat)
      returns (r: Result<Incoming, ServerError>)
    requires Tracking(stream, sum, start) && stream.pos == start + 8
    requires AtBody(stream.data, start, n, keyref, kind) && kind == STR_TAG
    requires n == 5 + len && FromU16Be(stream.data[start + 6..start + 8]) == len <= scratch.Length
    modifies stream, sum, scratch
    ensures stream.Valid() && Settled(scratch.Length, stream.data, start, r, stream.pos)
  {
    NextWhenOpened(scratch.Length, stream.data, start, WRITE, n);
    var ok := ReadExactTracked(stream, scratch, len, sum, start);
    if !ok {
      return Err(Read);
    }
    ghost var text := stream.data[start + 8..start + 8 + len];
    assert scratch[..len] == text;
    StrAtBody(stream.data, start, n, keyref, kind, len);
    var value := DecodeWireString(scratch[..len]);
    var decoded := if value.Ok? then Ok(Incoming.Write(keyref, WStr(value.value))) else Err(value.error);
    r := Conclude(stream, sum, decoded, scratch.Length, start, WRITE, n);
  }

  // Reads a string in chunks and keeps only the verdict on it.
  method ScanLongString(stream: ByteSource, len: nat, sum: FrameSum, ghost start: nat)
      returns (ok: bool, verdict: Result<(), PayloadError>)
    requires Tracking(stream, sum, start)
    modifies stream, sum
    ensures stream.Valid()
    ensures ok <==> old(stream.pos) + len <= |stream.data|
    ensures ok ==> Tracking(stream, sum, start) && stream.pos == old(stream.pos) + len
    ensures ok ==> (verdict.Ok? <==> IsWireString(stream.data[old(stream.pos)..stream.pos]))
    ensures ok && verdict.Err? ==> LongTextFault(stream.data[old(stream.pos)..stream.pos], verdict.error)
  {
    ghost var from := stream.pos;
    var validator := new Utf8StreamValidator();
    var discard := new byte[DISCARD_CHUNK](_ => 0);
    var remaining := len;
    verdict := Ok(());
    while remaining != 0
      invariant 0 <= remaining <= len
      invariant Tracking(stream, sum, start) && stream.pos == from + len - remaining
      invariant fresh(validator) && fresh(validator.tail) && validator.tail != discard
      invariant Scanned(validator, verdict, stream.data[from..stream.pos])
    {
      var chunkLen := if remaining < DISCARD_CHUNK then remaining else DISCARD_CHUNK;
      ok, verdict := ScanChunk(stream, chunkLen, discard, validator, verdict, sum, start, from);
      if !ok {
        return;
      }
      remaining := remaining - chunkLen;
    }
    ok := true;
    if verdict.Ok? {
      verdict := validator.Finish();
    } else {
      NotExtendableIsRefused(stream.data[from..stream.pos]);
    }
  }

  // What the validator and the verdict say about the text scanned so far.
  ghost predicate Scanned(validator: Utf8StreamValidator, verdict: Result<(), PayloadError>, text: seq<byte>)
    reads validator, validator.tail
  {
    && (verdict.Ok? ==> validator.Valid() && validator.fed == text)
    && (verdict.Err? ==> !Extendable(text) && FitsBroken(text, verdict.error))
  }

  // After an error the remaining chunks are read and summed, not checked.
  method ScanChunk(stream: ByteSource, chunkLen: nat, discard: array<byte>, validator: Utf8StreamValidator,
                   before: Result<(), PayloadError>, sum: FrameSum, ghost start: nat, ghost from: nat)
      returns (ok: bool, verdict: Result<(), PayloadError>)
    requires Tracking(stream, sum, start) && from <= stream.pos
    requires chunkLen <= DISCARD_CHUNK <= discard.Length && validator.tail != discard
    requires Scanned(validator, before, stream.data[from..stream.pos])
    modifies stream, sum, discard, validator, validator.tail
    ensures stream.Valid()
    ensures ok <==> old(stream.pos) + chunkLen <= |stream.data|
    ensures ok ==> Tracking(stream, sum, start) && stream.pos == old(stream.pos) + chunkLen
    ensures ok ==> Scanned(validator, verdict, stream.data[from..stream.pos])
  {
    ghost var soFar := stream.data[from..stream.pos];
    verdict := before;
    ok := ReadExactTracked(stream, discard, chunkLen, sum, start);
    if !ok {
      return;
    }
    Longer(stream.data, from, old(stream.pos), stream.pos);
    if verdict.Ok? {
      verdict := validator.Feed(discard[..chunkLen]);
    } else {
      FitsLonger(soFar, discard[..chunkLen], verdict.error);
    }
  }

  method ReadLongString(stream: ByteSource, n: nat, sum: FrameSum, keyref: u16, ghost kind: byte,
                        len: nat, maxStr: nat, ghost start: nat)
      returns (r: Result<Incoming, ServerError>)
    requires Tracking(stream, sum, start) && stream.pos == start + 8
    requires AtBody(stream.data, start, n, keyref, kind) && kind == STR_TAG
    requires n == 5 + len && FromU16Be(stream.data[start + 6..start + 8]) == len > maxStr
    modifies stream, sum
    ensures stream.Valid() && Settled(maxStr, stream.data, start, r, stream.pos)
  {
    NextWhenOpened(maxStr, stream.data, start, WRITE, n);
    var ok, verdict := ScanLongString(stream, len, sum, start);
    if !ok {
      return Err(Read);
    }
    StrAtBody(stream.data, start, n, keyref, kind, len);
    assert verdict.Err? ==> TextFault(maxStr, stream.data[start + 8..start + 8 + len], verdict.error);
    var decoded := if verdict.Ok? then Ok(Incoming.Write(keyref, WOversized)) else Err(verdict.error);
    r := Conclude(stream, sum, decoded, maxStr, start, WRITE, n);
  }

  // A string WRITE whose lengths do not agree.
  lemma StrRejected(maxStr: nat, data: seq<byte>, start: nat, n: nat, keyref: u16, kind: byte)
    requires AtBody(data, start, n, keyref, kind) && kind == STR_TAG && Complete(data, start, n)
    ensures n < 5 ==>
      DecodePayload(WRITE, PayloadAt(data, start, n)).Err?
      && StreamFault(maxStr, WRITE, PayloadAt(data, start, n), InternalLengthExceedsPayload)
    ensures n >= 5 && n - 5 != FromU16Be(data[start + 6..start + 8]) ==>
      var len := FromU16Be(data[start + 6..start + 8]);
      DecodePayload(WRITE, PayloadAt(data, start, n)).Err?
      && StreamFault(maxStr, WRITE, PayloadAt(data, start, n),
                     if n - 5 < len then InternalLengthExceedsPayload else TrailingBytes(n - 5 - len))
  {
    var body := BodyAt(data, start, n);
    WriteAtBody(data, start, n, keyref, kind);
    StrBody(kind, body);
    if n >= 5 {
      Within(data, start + 6, n - 3, 0, 2);
      assert body[..2] == [data[start + 6], data[start + 7]];
    }
  }

  method ReadStrWrite(stream: ByteSource, n: nat, sum: FrameSum, keyref: u16, ghost kind: byte,
                      scratch: array<byte>, ghost start: nat)
      returns (r: Result<Incoming, ServerError>)
    requires Tracking(stream, sum, start) && stream.pos == start + 6
    requires AtBody(stream.data, start, n, keyref, kind) && kind == STR_TAG
    modifies stream, sum, scratch
    ensures stream.Valid() && Settled(scratch.Length, stream.data, start, r, stream.pos)
  {
    NextWhenOpened(scratch.Length, stream.data, start, WRITE, n);
    if Complete(stream.data, start, n) {
      StrRejected(scratch.Length, stream.data, start, n, keyref, kind);
    }
    var remaining := n - 3;
    if remaining < 2 {
      r := Reject(stream, remaining, sum, InternalLengthExceedsPayload, scratch.Length, start, WRITE, n);
      return;
    }
    var lenBytes := new byte[2](_ => 0);
    var ok := ReadExactTracked(stream, lenBytes, 2, sum, start);
    if !ok {
      return Err(Read);
    }
    var len := FromU16Be(lenBytes[..2]);
    assert lenBytes[..2] == stream.data[start + 6..start + 8];
    var rest := remaining - 2;
    if rest != len {
      var error := if rest < len then InternalLengthExceedsPayload else TrailingBytes(rest - len);
      r := Reject(stream, rest, sum, error, scratch.Length, start, WRITE, n);
    } else if len <= scratch.Length {
      r := ReadShortString(stream, n, sum, keyref, kind, len, scratch, start);
    } else {
      r := ReadLongString(stream, n, sum, keyref, kind, len, scratch.Length, start);
    }
  }

  method ReadWriteRequest(stream: ByteSource, n: nat, sum: FrameSum, scratch: array<byte>, ghost start: nat)
      returns (r: Result<Incoming, ServerError>)
    requires Tracking(stream, sum, start) && stream.pos == start + 3
    requires Opened(stream.data, start, WRITE, n)
    modifies stream, sum, scratch
    ensures stream.Valid() && Settled(scratch.Length, stream.data, start, r, stream.pos)
  {
    if n < 3 {
      if Complete(stream.data, start, n) {
        WriteDecodes(PayloadAt(stream.data, start, n));
      }
      r := Reject(stream, n, sum, InvalidLength(WRITE, 3, n), scratch.Length, start, WRITE, n);
      return;
    }
    NextWhenOpened(scratch.Length, stream.data, start, WRITE, n);
    var keyrefBytes := new byte[2](_ => 0);
    var ok := ReadExactTracked(stream, keyrefBytes, 2, sum, start);
    if !ok {
      return Err(Read);
    }
    var keyref := FromU16Be(keyrefBytes[..2]);
    var kindByte := new byte[1](_ => 0);
    ok := ReadExactTracked(stream, kindByte, 1, sum, start);
    if !ok {
      return Err(Read);
    }
    var kind := kindByte[0];
    assert kind == kindByte[..1][0] == stream.data[start + 5];
    assert AtBody(stream.data, start, n, keyref, kind);
    if kind == BOOL_TAG {
      r := ReadBoolWrite(stream, n, sum, keyref, kind, scratch.Length, start);
    } else if kind == I64_TAG {
      r := ReadI64Write(stream, n, sum, keyref, kind, scratch.Length, start);
    } else if kind == STR_TAG {
      r := ReadStrWrite(stream, n, sum, keyref, kind, scratch, start);
    } else {
      if Complete(stream.data, start, n) {
        WriteAtBody(stream.data, start, n, keyref, kind);
        OtherBody(kind, BodyAt(stream.data, start, n));
      }
      r := Reject(stream, n - 3, sum, InvalidValueKind(kind), scratch.Length, start, WRITE, n);
    }
  }

  // Decodes the next request exactly as the batch parser would.
  method ReadRequest(stream: ByteSource, scratch: array<byte>) returns (r: Result<Incoming, ServerError>)
    requires stream.Valid()
    modifies stream, scratch
    ensures stream.Valid() && Settled(scratch.Length, stream.data, old(stream.pos), r, stream.pos)
  {
    ghost var start, rest := stream.pos, stream.data[stream.pos..];
    var header := new byte[3](_ => 0);
    var ok := stream.ReadExact(header, 3);
    if !ok {
      return Err(Read);
    }
    var op := header[0];
    assert header[..3] == rest[..3] == stream.data[start..start + 3];
    assert op == header[..3][0] == rest[0];
    var valid := Validate(op, ClientToNode);
    if valid.Err? {
      return Err(ProtocolFrame(valid.error));
    }
    var n := FromU16Be(header[1..3]);
    assert header[1..3] == stream.data[start + 1..start + 3];
    var sum := new FrameSum(op, n);
    U16BeUnique(header[1..3]);
    assert [op] + U16Be(n) == stream.data[start..start + 3];
    if op == WRITE {
      r := ReadWriteRequest(stream, n, sum, scratch, start);
    } else if op == PING || op == IDENTIFY || op == GETKEYTABLEN || op == GETCAPS {
      var request :=
        if op == PING then Incoming.Ping
        else if op == IDENTIFY then Incoming.Identify
        else if op == GETKEYTABLEN then Incoming.GetKeytabLen
        else GetCaps;
      r := ReadEmptyRequest(stream, op, n, sum, request, scratch.Length, start);
    } else {
      r := ReadKeyrefRequest(stream, op, n, sum, (k: u16) => KeyrefRequest(op, k), scratch.Length, start);
    }
  }
}
