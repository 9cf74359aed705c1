// How the server puts its responses on the wire: each send appends one whole
// frame or fails before it has written anything.
module Sending {
  import opened Bytes
  import opened Opcodes
  import opened Checksum
  import opened Messages
  import opened Frames
  import opened Node
  import opened Keys

  datatype InternalError = StringTooLong | KeyNameTooLong | PayloadTooLong | NotEncodable

  type Outcome = Result<(), InternalError>

  // A byte sink that takes everything.
  class Sink {
    var bytes: seq<byte>

    constructor ()
      ensures bytes == []
    {
      bytes := [];
    }

    method WriteAll(more: seq<byte>)
      modifies this
      ensures bytes == old(bytes) + more
    {
      bytes := bytes + more;
    }
  }

  lemma BodyOf(op: byte, payload: seq<byte>)
    requires |payload| < 0x1_0000
    ensures Body(op, payload) == [op] + U16Be(|payload|) + payload
  {
  }

  lemma WholeFrame(before: seq<byte>, op: byte, payload: seq<byte>, c: byte)
    requires |payload| < 0x1_0000 && c == ChecksumOf(op, payload)
    ensures var length := U16Be(|payload|);
      before + [op, length[0], length[1]] + payload + [c] == before + FrameBytes(op, payload)
  {
    var length := U16Be(|payload|);
    assert [op, length[0], length[1]] == [op] + length;
    Assoc(before, [op] + length, payload);
    Assoc(before, [op] + length + payload, [c]);
  }

  method SendFrame(stream: Sink, op: byte, payload: seq<byte>) returns (r: Outcome)
    modifies stream
    ensures r.Ok? <==> |payload| < 0x1_0000
    ensures stream.bytes == if r.Ok? then old(stream.bytes) + FrameBytes(op, payload) else old(stream.bytes)
  {
    if |payload| >= 0x1_0000 {
      return Err(PayloadTooLong);
    }
    var length := U16Be(|payload|);
    var checksum := ComputeChecksum(op, payload);
    stream.WriteAll([op, length[0], length[1]]);
    stream.WriteAll(payload);
    stream.WriteAll([checksum]);
    WholeFrame(old(stream.bytes), op, payload, checksum);
    r := Ok(());
  }

  // The declared length counts the string's own length field, so the longest
  // strings that fit a str16 do not fit a frame.
  method SendStr16Response(stream: Sink, op: byte, text: seq<byte>) returns (r: Outcome)
    modifies stream
    ensures r.Ok? <==> |text| <= 65533
    ensures stream.bytes == if r.Ok? then old(stream.bytes) + FrameBytes(op, Str16(text)) else old(stream.bytes)
  {
    if |text| > 0xFFFF || |text| + 2 > 0xFFFF {
      return Err(StringTooLong);
    }
    var stringLen, length := U16Be(|text|), U16Be(|text| + 2);
    TwoSegments(stringLen, text);
    var checksum := ComputeSegmentedChecksum(op, [stringLen, text]);
    stream.WriteAll([op, length[0], length[1]]);
    stream.WriteAll(stringLen);
    stream.WriteAll(text);
    stream.WriteAll([checksum]);
    StrFrame(old(stream.bytes), op, text, checksum);
    r := Ok(());
  }

  lemma TwoSegments(a: seq<byte>, b: seq<byte>)
    ensures Flatten([a, b]) == a + b
  {
    assert [a, b][1..] == [b] && [b][1..] == [];
    assert Flatten([b]) == b + [] == b;
  }

  lemma StrFrame(before: seq<byte>, op: byte, text: seq<byte>, c: byte)
    requires |text| <= 65533 && c == ChecksumOf(op, Str16(text))
    ensures var length := U16Be(|text| + 2);
      before + [op, length[0], length[1]] + U16Be(|text|) + text + [c] == before + FrameBytes(op, Str16(text))
  {
    var length := U16Be(|text| + 2);
    BodyOf(op, Str16(text));
    assert [op, length[0], length[1]] == [op] + length;
    FourParts(before, [op] + length, U16Be(|text|), text, [c]);
  }

  // Four consecutive writes.
  lemma FourParts(before: seq<byte>, header: seq<byte>, a: seq<byte>, b: seq<byte>, c: seq<byte>)
    ensures before + header + a + b + c == before + (header + (a + b) + c)
  {
    Assoc(header, a, b);
    Assoc(before, header, a);
    Assoc(before, header + a, b);
    Assoc(before, header + a + b, c);
  }

  method SendKeyResponse(stream: Sink, key: Key) returns (r: Outcome)
    modifies stream
    ensures r.Ok? <==> |key.name| <= 65532
    ensures stream.bytes ==
      if r.Ok? then old(stream.bytes) + FrameBytes(KEY, [Flags(key.perm)] + Str16(key.name)) else old(stream.bytes)
  {
    var name := key.name;
    if |name| > 0xFFFF || |name| + 3 > 0xFFFF {
      return Err(KeyNameTooLong);
    }
    var flags, stringLen, length := [Flags(key.perm)], U16Be(|name|), U16Be(|name| + 3);
    ThreeSegments(flags, stringLen, name);
    var checksum := ComputeSegmentedChecksum(KEY, [flags, stringLen, name]);
    stream.WriteAll([KEY, length[0], length[1]]);
    stream.WriteAll(flags);
    stream.WriteAll(stringLen);
    stream.WriteAll(name);
    stream.WriteAll([checksum]);
    KeyFrame(old(stream.bytes), Flags(key.perm), name, checksum);
    r := Ok(());
  }

  lemma ThreeSegments(a: seq<byte>, b: seq<byte>, c: seq<byte>)
    ensures Flatten([a, b, c]) == a + (b + c)
  {
    assert [a, b, c][1..] == [b, c];
    TwoSegments(b, c);
  }

  lemma KeyFrame(before: seq<byte>, flags: byte, name: seq<byte>, c: byte)
    requires |name| <= 65532 && c == ChecksumOf(KEY, [flags] + Str16(name))
    ensures var length := U16Be(|name| + 3);
      before + [KEY, length[0], length[1]] + [flags] + U16Be(|name|) + name + [c] ==
        before + FrameBytes(KEY, [flags] + Str16(name))
  {
    var length := U16Be(|name| + 3);
    var header := [KEY] + length;
    BodyOf(KEY, [flags] + Str16(name));
    assert [KEY, length[0], length[1]] == header;
    FourParts(before + header, [flags], U16Be(|name|), name, [c]);
    Assoc(before, header, [flags] + Str16(name) + [c]);
    Assoc(header, [flags] + Str16(name), [c]);
  }

  method SendVoidKeyResponse(stream: Sink) returns (r: Outcome)
    modifies stream
    ensures r.Ok? && stream.bytes == old(stream.bytes) + EncodeFrame(Ordinarily(Messages.Key(0, [])))
  {
    assert Payload(Ordinarily(Messages.Key(0, []))) == [0, 0, 0];
    r := SendFrame(stream, KEY, [0, 0, 0]);
  }

  method SendError(stream: Sink, code: byte) returns (r: Outcome)
    modifies stream
    ensures r.Ok? && stream.bytes == old(stream.bytes) + EncodeFrame(Failed(code))
  {
    r := SendFrame(stream, ERROR, [code]);
  }
}
