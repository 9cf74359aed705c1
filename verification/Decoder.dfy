// The payload decoder over a cursor that shrinks as it reads.
module Decoder {
  import opened Bytes
  import opened Errors
  import opened Opcodes
  import opened Utf8Stream
  import opened Messages
  import Caps

  // A cursor operation agrees with a reference step when it gives the same
  // result, and on success leaves the same bytes unread.
  ghost predicate Agrees<T(!new)>(step: Taken<T>, r: Result<T, PayloadError>, rest: seq<byte>)
  {
    if step.Ok? then r == Ok(step.value.0) && rest == step.value.1 else r == Err(step.error)
  }

  class PayloadCursor {
    var remaining: seq<byte>

    constructor (payload: seq<byte>)
      ensures remaining == payload
    {
      remaining := payload;
    }

    method Take(len: nat) returns (r: Result<seq<byte>, PayloadError>)
      modifies this
      ensures Agrees(TakeBytes(old(remaining), len), r, remaining)
      ensures r.Err? ==> remaining == old(remaining)
    {
      if |remaining| < len {
        return Err(InternalLengthExceedsPayload);
      }
      var head := remaining[..len];
      remaining := remaining[len..];
      r := Ok(head);
    }

    method ReadU8() returns (r: Result<byte, PayloadError>)
      modifies this
      ensures r.Ok? <==> old(remaining) != []
      ensures r.Ok? ==> old(remaining) == [r.value] + remaining
      ensures r.Err? ==> r.error == InternalLengthExceedsPayload
    {
      var b :- Take(1);
      r := Ok(b[0]);
    }

    method ReadU16() returns (r: Result<u16, PayloadError>)
      modifies this
      ensures Agrees(TakeU16(old(remaining)), r, remaining)
    {
      var b :- Take(2);
      r := Ok(FromU16Be(b));
    }

    method ReadI64() returns (r: Result<i64, PayloadError>)
      modifies this
      ensures r.Ok? <==> |old(remaining)| >= 8
      ensures r.Ok? ==> old(remaining) == I64Be(r.value) + remaining
      ensures r.Err? ==> r.error == InternalLengthExceedsPayload
    {
      var b :- Take(8);
      I64Unique(b);
      r := Ok(FromI64Be(b));
    }

    method ReadStr16() returns (r: Result<seq<byte>, PayloadError>)
      modifies this
      ensures Agrees(TakeStr16(old(remaining)), r, remaining)
    {
      var len :- ReadU16();
      var b :- Take(len);
      r := DecodeWireString(b);
    }

    method ReadValue() returns (r: Result<Value, PayloadError>)
      modifies this
      ensures Agrees(TakeValue(old(remaining)), r, remaining)
    {
      var kind :- ReadU8();
      if kind == BOOL_TAG {
        var bits :- ReadU8();
        var flag :- DecodeBool(bits);
        r := Ok(Bool(flag));
      } else if kind == I64_TAG {
        ghost var b := remaining;
        var number :- ReadI64();
        I64RoundTrip(number);
        assert b[..8] == I64Be(number) && b[8..] == remaining;
        r := Ok(I64(number));
      } else if kind == STR_TAG {
        var text :- ReadStr16();
        r := Ok(Str(text));
      } else {
        r := Err(InvalidValueKind(kind));
      }
    }

    function Finish(): (r: Result<(), PayloadError>)
      reads this
      ensures r.Ok? <==> remaining == []
    {
      if remaining == [] then Ok(()) else Err(TrailingBytes(|remaining|))
    }
  }

  method ExpectLen(op: byte, payload: seq<byte>, expected: nat) returns (r: Result<(), PayloadError>)
    ensures r == if |payload| == expected then Ok(()) else Err(InvalidLength(op, expected, |payload|))
  {
    r := if |payload| == expected then Ok(()) else Err(InvalidLength(op, expected, |payload|));
  }

  // The single u16 of the keyref requests, KEYTABLEN and CHANGED.
  method DecodeU16(op: byte, payload: seq<byte>) returns (r: Result<u16, PayloadError>)
    ensures r == if |payload| == 2 then Ok(FromU16Be(payload)) else Err(InvalidLength(op, 2, |payload|))
  {
    var _ :- ExpectLen(op, payload, 2);
    var cursor := new PayloadCursor(payload);
    assert payload[..2] == payload;
    r := cursor.ReadU16();
  }

  method DecodeWrite(payload: seq<byte>) returns (r: Result<Message, PayloadError>)
    ensures r == WritePayload(payload)
  {
    var cursor := new PayloadCursor(payload);
    var keyref :- cursor.ReadU16();
    var value :- cursor.ReadValue();
    var _ :- cursor.Finish();
    r := Ok(Asked(Write(keyref, value)));
  }

  method DecodeIdentified(payload: seq<byte>) returns (r: Result<Message, PayloadError>)
    ensures r == IdentifiedPayload(payload)
  {
    var cursor := new PayloadCursor(payload);
    var id :- cursor.ReadStr16();
    var _ :- cursor.Finish();
    r := Ok(Ordinarily(Identified(id)));
  }

  method DecodeKey(payload: seq<byte>) returns (r: Result<Message, PayloadError>)
    ensures r == KeyPayload(payload)
  {
    var cursor := new PayloadCursor(payload);
    var bits :- cursor.ReadU8();
    var flags :- KeyFlagsNew(bits);
    var name :- cursor.ReadStr16();
    var _ :- cursor.Finish();
    r := Ok(Ordinarily(Key(flags, name)));
  }

  method DecodeValueResponse(payload: seq<byte>, written: bool) returns (r: Result<Message, PayloadError>)
    ensures r == ValuePayload(payload, written)
  {
    var cursor := new PayloadCursor(payload);
    var value :- cursor.ReadValue();
    var _ :- cursor.Finish();
    r := Ok(Ordinarily(if written then Written(value) else Current(value)));
  }

  method DecodeCaps(payload: seq<byte>) returns (r: Result<Message, PayloadError>)
    ensures r == CapsPayload(payload)
  {
    var cursor := new PayloadCursor(payload);
    var raw :- cursor.ReadStr16();
    var _ :- Caps.Parse(raw);
    var _ :- cursor.Finish();
    r := Ok(CapsGiven(raw));
  }

  method DecodeRequest(op: byte, payload: seq<byte>) returns (r: Result<Message, PayloadError>)
    ensures r == RequestPayload(op, payload)
  {
    if op == WRITE {
      r := DecodeWrite(payload);
    } else if op == GETKEY || op == GET || op == OBSERVE || op == UNOBSERVE {
      var k :- DecodeU16(op, payload);
      r := Ok(Asked(if op == GETKEY then GetKey(k)
                    else if op == GET then Get(k)
                    else if op == OBSERVE then Observe(k)
                    else Unobserve(k)));
    } else if op == PING || op == IDENTIFY || op == GETKEYTABLEN {
      var _ :- ExpectLen(op, payload, 0);
      r := Ok(Asked(if op == PING then Ping else if op == IDENTIFY then Identify else GetKeytabLen));
    } else {
      r := Err(UnknownPayloadOpcode(op));
    }
  }

  method DecodeOrdinary(op: byte, payload: seq<byte>) returns (r: Result<Message, PayloadError>)
    ensures r == OrdinaryPayload(op, payload)
  {
    if op == OK {
      var _ :- ExpectLen(op, payload, 0);
      r := Ok(Ordinarily(Okay));
    } else if op == IDENTIFIED {
      r := DecodeIdentified(payload);
    } else if op == KEYTABLEN {
      var count :- DecodeU16(op, payload);
      r := Ok(Ordinarily(KeytabLen(count)));
    } else if op == KEY {
      r := DecodeKey(payload);
    } else if op == VALUE {
      r := DecodeValueResponse(payload, false);
    } else if op == WRITTEN {
      r := DecodeValueResponse(payload, true);
    } else {
      r := Err(UnknownPayloadOpcode(op));
    }
  }

  // Accepts exactly the payloads that encode a message, and returns that
  // message.
  method Decode(op: byte, payload: seq<byte>) returns (r: Result<Message, PayloadError>)
    requires |payload| < 0x1_0000
    ensures r == DecodePayload(op, payload)
    ensures r.Ok? <==> exists m :: Encodable(m) && OpcodeOf(m) == op && Payload(m) == payload
    ensures r.Ok? ==> Encodable(r.value) && OpcodeOf(r.value) == op && Payload(r.value) == payload
  {
    match Class(op) {
      case RequestClass => r := DecodeRequest(op, payload);
      case OrdinaryResponseClass => r := DecodeOrdinary(op, payload);
      case CompatibilityRequestClass =>
        var e := ExpectLen(op, payload, 0);
        r := if e.Ok? then Ok(CapsAsked) else Err(e.error);
      case CompatibilityResponseClass => r := DecodeCaps(payload);
      case ErrorResponseClass =>
        var e := ExpectLen(op, payload, 1);
        r := if e.Ok? then Ok(Failed(payload[0])) else Err(e.error);
      case ChangedNotificationClass =>
        var k := DecodeU16(op, payload);
        r := if k.Ok? then Ok(Changed(k.value)) else Err(k.error);
      case Reserved => r := Err(UnknownPayloadOpcode(op));
    }
    DecodesExactlyEncodings(op, payload);
  }

  lemma DecodesExactlyEncodings(op: byte, payload: seq<byte>)
    requires |payload| < 0x1_0000
    ensures DecodePayload(op, payload).Ok? <==> exists m :: Encodable(m) && OpcodeOf(m) == op && Payload(m) == payload
    ensures forall m :: Encodable(m) && OpcodeOf(m) == op && Payload(m) == payload ==> DecodePayload(op, payload) == Ok(m)
    ensures DecodePayload(op, payload).Ok? ==>
      var m := DecodePayload(op, payload).value;
      Encodable(m) && OpcodeOf(m) == op && Payload(m) == payload
  {
    if DecodePayload(op, payload).Ok? {
      EncodeInvertsDecode(op, payload);
    }
    forall m | Encodable(m) && OpcodeOf(m) == op && Payload(m) == payload
      ensures DecodePayload(op, payload) == Ok(m)
    {
      DecodeInvertsEncode(m);
    }
  }
}
