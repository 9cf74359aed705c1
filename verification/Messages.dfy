// QUP messages and their one encoding as opcode and payload.
module Messages {
  import opened Bytes
  import opened Errors
  import opened Opcodes
  import opened Utf8Stream
  import Caps

  // A protocol value. Strings are their UTF-8 bytes.
  datatype Value =
    | Bool(flag: bool)
    | I64(number: i64)
    | Str(text: seq<byte>)

  datatype Request =
    | Ping
    | Identify
    | GetKeytabLen
    | GetKey(keyref: u16)
    | Get(keyref: u16)
    | Write(keyref: u16, value: Value)
    | Observe(keyref: u16)
    | Unobserve(keyref: u16)

  datatype Ordinary =
    | Okay
    | Identified(nodeId: seq<byte>)
    | KeytabLen(count: u16)
    | Key(flags: byte, name: seq<byte>)
    | Current(value: Value)
    | Written(value: Value)

  datatype Message =
    | Asked(request: Request)
    | Ordinarily(response: Ordinary)
    | CapsAsked
    | CapsGiven(caps: seq<byte>)
    | Failed(code: byte)
    | Changed(keyref: u16)

  const BOOL_TAG: byte := 0x01
  const I64_TAG: byte := 0x02
  const STR_TAG: byte := 0x03

  // The defined keyflag bits are the low three.
  predicate FlagsOk(flags: byte) { flags < 8 }

  predicate ValueOk(v: Value)
  {
    v.Str? ==> IsWireString(v.text) && |v.text| < 0x1_0000
  }

  // Can the message be put on the wire at all?
  predicate Encodable(m: Message)
  {
    && (match m
        case Asked(Write(_, v)) => ValueOk(v)
        case Asked(_) => true
        case Ordinarily(Identified(id)) => IsWireString(id) && |id| < 0x1_0000
        case Ordinarily(Key(flags, name)) => FlagsOk(flags) && IsWireString(name) && |name| < 0x1_0000
        case Ordinarily(Current(v)) => ValueOk(v)
        case Ordinarily(Written(v)) => ValueOk(v)
        case CapsGiven(caps) => IsWireString(caps) && |caps| < 0x1_0000 && Caps.CapsOk(caps)
        case _ => true)
    && |Payload(m)| < 0x1_0000
  }

  function OpcodeOf(m: Message): (op: byte)
  {
    match m
    case Asked(Ping) => PING
    case Asked(Identify) => IDENTIFY
    case Asked(GetKeytabLen) => GETKEYTABLEN
    case Asked(GetKey(_)) => GETKEY
    case Asked(Get(_)) => GET
    case Asked(Write(_, _)) => WRITE
    case Asked(Observe(_)) => OBSERVE
    case Asked(Unobserve(_)) => UNOBSERVE
    case Ordinarily(Okay) => OK
    case Ordinarily(Identified(_)) => IDENTIFIED
    case Ordinarily(KeytabLen(_)) => KEYTABLEN
    case Ordinarily(Key(_, _)) => KEY
    case Ordinarily(Current(_)) => VALUE
    case Ordinarily(Written(_)) => WRITTEN
    case CapsAsked => GETCAPS
    case CapsGiven(_) => CAPS
    case Failed(_) => ERROR
    case Changed(_) => CHANGED
  }

  function Str16(s: seq<byte>): (b: seq<byte>)
  {
    U16Be(|s| % 0x1_0000) + s
  }

  function ValueBytes(v: Value): (b: seq<byte>)
  {
    match v
    case Bool(flag) => [BOOL_TAG, if flag then 1 else 0]
    case I64(number) => [I64_TAG] + I64Be(number)
    case Str(text) => [STR_TAG] + Str16(text)
  }

  function Payload(m: Message): (b: seq<byte>)
  {
    match m
    case Asked(GetKey(k)) => U16Be(k)
    case Asked(Get(k)) => U16Be(k)
    case Asked(Write(k, v)) => U16Be(k) + ValueBytes(v)
    case Asked(Observe(k)) => U16Be(k)
    case Asked(Unobserve(k)) => U16Be(k)
    case Ordinarily(Identified(id)) => Str16(id)
    case Ordinarily(KeytabLen(count)) => U16Be(count)
    case Ordinarily(Key(flags, name)) => [flags] + Str16(name)
    case Ordinarily(Current(v)) => ValueBytes(v)
    case Ordinarily(Written(v)) => ValueBytes(v)
    case CapsGiven(caps) => Str16(caps)
    case Failed(code) => [code]
    case Changed(k) => U16Be(k)
    case _ => []
  }

  // The reference decoder: what remains of the payload is passed along.
  type Taken<T> = Result<(T, seq<byte>), PayloadError>

  function TakeBytes(rest: seq<byte>, n: nat): (r: Taken<seq<byte>>)
  {
    if |rest| < n then Err(InternalLengthExceedsPayload) else Ok((rest[..n], rest[n..]))
  }

  function TakeU16(rest: seq<byte>): (r: Taken<u16>)
  {
    var (b, tail) :- TakeBytes(rest, 2);
    Ok((FromU16Be(b), tail))
  }

  function TakeStr16(rest: seq<byte>): (r: Taken<seq<byte>>)
  {
    var (len, tail) :- TakeU16(rest);
    var (b, end) :- TakeBytes(tail, len);
    var s :- DecodeWireString(b);
    Ok((s, end))
  }

  function TakeValue(rest: seq<byte>): (r: Taken<Value>)
  {
    var (kind, tail) :- TakeBytes(rest, 1);
    if kind[0] == BOOL_TAG then
      var (b, end) :- TakeBytes(tail, 1);
      var flag :- DecodeBool(b[0]);
      Ok((Bool(flag), end))
    else if kind[0] == I64_TAG then
      var (b, end) :- TakeBytes(tail, 8);
      Ok((I64(FromI64Be(b)), end))
    else if kind[0] == STR_TAG then
      var (s, end) :- TakeStr16(tail);
      Ok((Str(s), end))
    else Err(InvalidValueKind(kind[0]))
  }

  function DecodeBool(b: byte): (r: Result<bool, PayloadError>)
  {
    if b == 0 then Ok(false) else if b == 1 then Ok(true) else Err(InvalidBool(b))
  }

  function KeyFlagsNew(bits: byte): (r: Result<byte, PayloadError>)
  {
    if FlagsOk(bits) then Ok(bits) else Err(InvalidKeyFlags(bits))
  }

  function Exhausted<T>(r: Taken<T>): (done: Result<T, PayloadError>)
  {
    var (v, rest) :- r;
    if rest == [] then Ok(v) else Err(TrailingBytes(|rest|))
  }

  function Sized(op: byte, payload: seq<byte>, expected: nat, m: Message): (r: Result<Message, PayloadError>)
  {
    if |payload| == expected then Ok(m) else Err(InvalidLength(op, expected, |payload|))
  }

  function KeyrefMessage(op: byte, payload: seq<byte>, make: u16 -> Message): (r: Result<Message, PayloadError>)
  {
    if |payload| == 2 then Ok(make(FromU16Be(payload))) else Err(InvalidLength(op, 2, |payload|))
  }

  function WritePayload(payload: seq<byte>): (r: Result<Message, PayloadError>)
  {
    var (keyref, tail) :- TakeU16(payload);
    var value :- Exhausted(TakeValue(tail));
    Ok(Asked(Write(keyref, value)))
  }

  function IdentifiedPayload(payload: seq<byte>): (r: Result<Message, PayloadError>)
  {
    var id :- Exhausted(TakeStr16(payload));
    Ok(Ordinarily(Identified(id)))
  }

  function ValuePayload(payload: seq<byte>, written: bool): (r: Result<Message, PayloadError>)
  {
    var v :- Exhausted(TakeValue(payload));
    Ok(Ordinarily(if written then Written(v) else Current(v)))
  }

  function KeyPayload(payload: seq<byte>): (r: Result<Message, PayloadError>)
  {
    var (bits, tail) :- TakeBytes(payload, 1);
    var flags :- KeyFlagsNew(bits[0]);
    var name :- Exhausted(TakeStr16(tail));
    Ok(Ordinarily(Key(flags, name)))
  }

  function CapsPayload(payload: seq<byte>): (r: Result<Message, PayloadError>)
  {
    var (raw, rest) :- TakeStr16(payload);
    if !Caps.CapsOk(raw) then Err(MalformedCaps)
    else if rest == [] then Ok(CapsGiven(raw))
    else Err(TrailingBytes(|rest|))
  }

  function RequestPayload(op: byte, payload: seq<byte>): (r: Result<Message, PayloadError>)
  {
    if op == PING then Sized(op, payload, 0, Asked(Ping))
    else if op == IDENTIFY then Sized(op, payload, 0, Asked(Identify))
    else if op == GETKEYTABLEN then Sized(op, payload, 0, Asked(GetKeytabLen))
    else if op == GETKEY then KeyrefMessage(op, payload, (k: u16) => Asked(GetKey(k)))
    else if op == GET then KeyrefMessage(op, payload, (k: u16) => Asked(Get(k)))
    else if op == OBSERVE then KeyrefMessage(op, payload, (k: u16) => Asked(Observe(k)))
    else if op == UNOBSERVE then KeyrefMessage(op, payload, (k: u16) => Asked(Unobserve(k)))
    else if op == WRITE then WritePayload(payload)
    else Err(UnknownPayloadOpcode(op))
  }

  function OrdinaryPayload(op: byte, payload: seq<byte>): (r: Result<Message, PayloadError>)
  {
    if op == OK then Sized(op, payload, 0, Ordinarily(Okay))
    else if op == IDENTIFIED then IdentifiedPayload(payload)
    else if op == KEYTABLEN then KeyrefMessage(op, payload, (n: u16) => Ordinarily(KeytabLen(n)))
    else if op == KEY then KeyPayload(payload)
    else if op == VALUE then ValuePayload(payload, false)
    else if op == WRITTEN then ValuePayload(payload, true)
    else Err(UnknownPayloadOpcode(op))
  }

  function DecodePayload(op: byte, payload: seq<byte>): (r: Result<Message, PayloadError>)
  {
    match Class(op)
    case RequestClass => RequestPayload(op, payload)
    case OrdinaryResponseClass => OrdinaryPayload(op, payload)
    case CompatibilityRequestClass => Sized(op, payload, 0, CapsAsked)
    case CompatibilityResponseClass => CapsPayload(payload)
    case ErrorResponseClass =>
      if |payload| == 1 then Ok(Failed(payload[0])) else Err(InvalidLength(op, 1, |payload|))
    case ChangedNotificationClass => KeyrefMessage(op, payload, (k: u16) => Changed(k))
    case Reserved => Err(UnknownPayloadOpcode(op))
  }

  // ---- The two directions of the inverse law ----

  lemma TakeAppended(b: seq<byte>, rest: seq<byte>)
    ensures TakeBytes(b + rest, |b|) == Ok((b, rest))
  {
  }

  lemma Str16Taken(s: seq<byte>, rest: seq<byte>)
    requires IsWireString(s) && |s| < 0x1_0000
    ensures TakeStr16(Str16(s) + rest) == Ok((s, rest))
  {
    Assoc(U16Be(|s|), s, rest);
    TakeAppended(U16Be(|s|), s + rest);
    TakeAppended(s, rest);
  }

  lemma Str16Given(rest: seq<byte>)
    requires TakeStr16(rest).Ok?
    ensures var (s, end) := TakeStr16(rest).value;
      IsWireString(s) && |s| < 0x1_0000 && rest == Str16(s) + end
  {
    U16BeUnique(rest[..2]);
    var tail := rest[2..];
    TakeThenDrop(rest, 2, 0);
    TakeThenDrop(tail, FromU16Be(rest[..2]), 0);
    Assoc(rest[..2], tail[..FromU16Be(rest[..2])], tail[FromU16Be(rest[..2])..]);
  }

  lemma ValueTaken(v: Value, rest: seq<byte>)
    requires ValueOk(v)
    ensures TakeValue(ValueBytes(v) + rest) == Ok((v, rest))
  {
    match v
    case Bool(flag) =>
      var b := if flag then 1 else 0;
      assert ValueBytes(v) + rest == [BOOL_TAG] + ([b] + rest);
      TakeAppended([BOOL_TAG], [b] + rest);
      TakeAppended([b], rest);
    case I64(number) =>
      Assoc([I64_TAG], I64Be(number), rest);
      TakeAppended([I64_TAG], I64Be(number) + rest);
      TakeAppended(I64Be(number), rest);
      I64RoundTrip(number);
    case Str(text) =>
      Assoc([STR_TAG], Str16(text), rest);
      TakeAppended([STR_TAG], Str16(text) + rest);
      Str16Taken(text, rest);
  }

  lemma ValueGiven(rest: seq<byte>)
    requires TakeValue(rest).Ok?
    ensures var (v, end) := TakeValue(rest).value;
      ValueOk(v) && rest == ValueBytes(v) + end
  {
    var kind, tail := rest[0], rest[1..];
    TakeThenDrop(rest, 1, 0);
    assert rest == [kind] + tail;
    if kind == BOOL_TAG {
      assert tail == [tail[0]] + tail[1..];
    } else if kind == I64_TAG {
      I64Unique(tail[..8]);
      TakeThenDrop(tail, 8, 0);
      Assoc([kind], tail[..8], tail[8..]);
    } else {
      Str16Given(tail);
      var (s, end) := TakeStr16(tail).value;
      Assoc([kind], Str16(s), end);
    }
  }

  lemma Exactly(b: seq<byte>)
    ensures b + [] == b
  {
  }

  // Decoding an encoded message gives the message back.
  lemma DecodeInvertsEncode(m: Message)
    requires Encodable(m)
    ensures DecodePayload(OpcodeOf(m), Payload(m)) == Ok(m)
  {
    match m
    case Asked(_) => RequestInverse(m);
    case Ordinarily(_) => OrdinaryInverse(m);
    case CapsGiven(caps) =>
      Exactly(Str16(caps));
      Str16Taken(caps, []);
    case _ =>
  }

  lemma RequestInverse(m: Message)
    requires m.Asked? && Encodable(m)
    ensures DecodePayload(OpcodeOf(m), Payload(m)) == Ok(m)
  {
    if m.request.Write? {
      var k, v := m.request.keyref, m.request.value;
      TakeAppended(U16Be(k), ValueBytes(v));
      ValueWhole(v);
      assert WritePayload(Payload(m)) == Ok(m);
    }
  }

  lemma OrdinaryInverse(m: Message)
    requires m.Ordinarily? && Encodable(m)
    ensures DecodePayload(OpcodeOf(m), Payload(m)) == Ok(m)
  {
    match m.response
    case Identified(id) =>
      Str16Whole(id);
      assert IdentifiedPayload(Payload(m)) == Ok(m);
    case Key(flags, name) => KeyInverse(flags, name);
    case Current(v) => ValueInverse(v, false);
    case Written(v) => ValueInverse(v, true);
    case _ =>
  }

  lemma ValueInverse(v: Value, written: bool)
    requires ValueOk(v)
    ensures ValuePayload(ValueBytes(v), written) == Ok(Ordinarily(if written then Written(v) else Current(v)))
  {
    ValueWhole(v);
  }

  lemma Str16Whole(s: seq<byte>)
    requires IsWireString(s) && |s| < 0x1_0000
    ensures Exhausted(TakeStr16(Str16(s))) == Ok(s)
  {
    Exactly(Str16(s));
    Str16Taken(s, []);
  }

  lemma ValueWhole(v: Value)
    requires ValueOk(v)
    ensures Exhausted(TakeValue(ValueBytes(v))) == Ok(v)
  {
    Exactly(ValueBytes(v));
    ValueTaken(v, []);
  }

  lemma KeyInverse(flags: byte, name: seq<byte>)
    requires FlagsOk(flags) && IsWireString(name) && |name| < 0x1_0000
    ensures KeyPayload([flags] + Str16(name)) == Ok(Ordinarily(Key(flags, name)))
  {
    TakeAppended([flags], Str16(name));
    Str16Whole(name);
  }

  lemma WriteGiven(payload: seq<byte>)
    requires |payload| < 0x1_0000 && WritePayload(payload).Ok?
    ensures var m := WritePayload(payload).value;
      Encodable(m) && OpcodeOf(m) == WRITE && Payload(m) == payload
  {
    var m := WritePayload(payload).value;
    U16BeUnique(payload[..2]);
    TakeThenDrop(payload, 2, 0);
    ValueGiven(payload[2..]);
    Exactly(ValueBytes(m.request.value));
  }

  lemma KeyGiven(payload: seq<byte>)
    requires |payload| < 0x1_0000 && KeyPayload(payload).Ok?
    ensures var m := KeyPayload(payload).value;
      Encodable(m) && OpcodeOf(m) == KEY && Payload(m) == payload
  {
    var m := KeyPayload(payload).value;
    TakeThenDrop(payload, 1, 0);
    assert payload[..1] == [payload[0]];
    Str16Given(payload[1..]);
    Exactly(Str16(m.response.name));
  }

  // A decoded payload is the encoding of its message, byte for byte.
  lemma EncodeInvertsDecode(op: byte, payload: seq<byte>)
    requires |payload| < 0x1_0000
    requires DecodePayload(op, payload).Ok?
    ensures var m := DecodePayload(op, payload).value;
      Encodable(m) && OpcodeOf(m) == op && Payload(m) == payload
  {
    var m := DecodePayload(op, payload).value;
    if op == WRITE {
      WriteGiven(payload);
    } else if op == IDENTIFIED {
      Str16Given(payload);
      Exactly(Str16(m.response.nodeId));
    } else if op == KEY {
      KeyGiven(payload);
    } else if op == VALUE || op == WRITTEN {
      ValueGiven(payload);
      Exactly(ValueBytes(m.response.value));
    } else if op == CAPS {
      Str16Given(payload);
      Exactly(Str16(m.caps));
    } else if |payload| == 2 {
      U16BeUnique(payload);
    }
  }
}
