// The additive frame checksum in its three forms: over a whole payload, over
// payload segments, and byte by byte while a frame streams in.
module Checksum {
  import opened Bytes

  // The wrapping u8 sum of a byte string.
  function Sum(s: seq<byte>): (r: byte)
  {
    if s == [] then 0 else WrapAdd(Sum(s[..|s| - 1]), s[|s| - 1])
  }

  lemma SumAppend(s: seq<byte>, b: byte)
    ensures Sum(s + [b]) == WrapAdd(Sum(s), b)
  {
    assert (s + [b])[..|s|] == s;
  }

  lemma {:induction false} SumConcat(s: seq<byte>, t: seq<byte>)
    ensures Sum(s + t) == WrapAdd(Sum(s), Sum(t))
  {
    if t == [] {
      assert s + t == s;
    } else {
      var init, last := t[..|t| - 1], t[|t| - 1];
      SumConcat(s, init);
      assert s + t == (s + init) + [last];
      SumAppend(s + init, last);
    }
  }

  // Everything in front of the checksum byte. The length field is the u16
  // truncation of the payload length.
  function Body(opcode: byte, payload: seq<byte>): (s: seq<byte>)
  {
    [opcode] + U16Be(|payload| % 0x1_0000) + payload
  }

  function ChecksumOf(opcode: byte, payload: seq<byte>): (c: byte)
  {
    WrapNeg(Sum(Body(opcode, payload)))
  }

  // The checksum byte is the only byte that makes the frame sum zero.
  lemma OnlyChecksumSumsToZero(opcode: byte, payload: seq<byte>, c: byte)
    ensures Sum(Body(opcode, payload) + [c]) == 0 <==> c == ChecksumOf(opcode, payload)
  {
    SumAppend(Body(opcode, payload), c);
  }

  // A single changed byte always changes the sum.
  lemma OneByteChangesSum(s: seq<byte>, at: nat, b: byte)
    requires at < |s| && s[at] != b
    ensures Sum(s[at := b]) != Sum(s)
  {
    var front, back := s[..at], s[at + 1..];
    assert s == (front + [s[at]]) + back;
    assert s[at := b] == (front + [b]) + back;
    SumConcat(front + [s[at]], back);
    SumConcat(front + [b], back);
    SumAppend(front, s[at]);
    SumAppend(front, b);
  }

  lemma SumOfHeader(opcode: byte, hi: byte, lo: byte)
    ensures Sum([opcode, hi, lo]) == WrapAdd(WrapAdd(opcode, hi), lo)
  {
    assert [opcode, hi, lo] == (([] + [opcode]) + [hi]) + [lo];
    SumAppend([], opcode);
    SumAppend([] + [opcode], hi);
    SumAppend(([] + [opcode]) + [hi], lo);
  }

  method FrameSumOf(frame: seq<byte>) returns (sum: byte)
    ensures sum == Sum(frame)
  {
    sum := 0;
    for i := 0 to |frame|
      invariant sum == Sum(frame[..i])
    {
      assert frame[..i + 1] == frame[..i] + [frame[i]];
      SumAppend(frame[..i], frame[i]);
      sum := WrapAdd(sum, frame[i]);
    }
    assert frame[..|frame|] == frame;
  }

  method ComputeChecksum(opcode: byte, payload: seq<byte>) returns (c: byte)
    ensures c == ChecksumOf(opcode, payload)
    ensures Sum(Body(opcode, payload) + [c]) == 0
  {
    var length := U16Be(|payload| % 0x1_0000);
    var acc: byte := 0;
    acc := WrapAdd(acc, opcode);
    acc := WrapAdd(acc, length[0]);
    acc := WrapAdd(acc, length[1]);
    ghost var header := [opcode] + length;
    assert header == [opcode, length[0], length[1]];
    SumOfHeader(opcode, length[0], length[1]);
    assert header + payload[..0] == header;
    for i := 0 to |payload|
      invariant acc == Sum(header + payload[..i])
    {
      assert header + payload[..i + 1] == (header + payload[..i]) + [payload[i]];
      SumAppend(header + payload[..i], payload[i]);
      acc := WrapAdd(acc, payload[i]);
    }
    assert header + payload[..|payload|] == Body(opcode, payload);
    c := WrapNeg(acc);
    OnlyChecksumSumsToZero(opcode, payload, c);
  }

  // The wrapping sum continued over one more piece.
  method AddSegment(start: byte, segment: seq<byte>) returns (acc: byte)
    ensures acc == WrapAdd(start, Sum(segment))
  {
    acc := start;
    for j := 0 to |segment|
      invariant acc == WrapAdd(start, Sum(segment[..j]))
    {
      assert segment[..j + 1] == segment[..j] + [segment[j]];
      SumAppend(segment[..j], segment[j]);
      acc := WrapAdd(acc, segment[j]);
    }
    assert segment[..|segment|] == segment;
  }

  // The conversion of the total length panics above 65535.
  method ComputeSegmentedChecksum(opcode: byte, segments: seq<seq<byte>>) returns (c: byte)
    requires |Flatten(segments)| < 0x1_0000
    ensures c == ChecksumOf(opcode, Flatten(segments))
  {
    var total := TotalLength(segments);
    var length := U16Be(total);
    var acc := opcode;
    acc := WrapAdd(acc, length[0]);
    acc := WrapAdd(acc, length[1]);
    ghost var header := [opcode] + length;
    assert header == [opcode, length[0], length[1]];
    SumOfHeader(opcode, length[0], length[1]);
    acc := AddSegments(acc, segments, header);
    c := WrapNeg(acc);
  }

  method TotalLength(segments: seq<seq<byte>>) returns (total: nat)
    ensures total == |Flatten(segments)|
  {
    total := 0;
    for i := 0 to |segments|
      invariant total == |Flatten(segments[..i])|
    {
      assert segments[..i + 1] == segments[..i] + [segments[i]];
      FlattenAppend(segments[..i], segments[i]);
      total := total + |segments[i]|;
    }
    assert segments[..|segments|] == segments;
  }

  // The sum of `front` continued over all the segments.
  method AddSegments(start: byte, segments: seq<seq<byte>>, ghost front: seq<byte>) returns (acc: byte)
    requires start == Sum(front)
    ensures acc == Sum(front + Flatten(segments))
  {
    acc := start;
    assert front + Flatten(segments[..0]) == front;
    for i := 0 to |segments|
      invariant acc == Sum(front + Flatten(segments[..i]))
    {
      ghost var done := Flatten(segments[..i]);
      acc := AddSegment(acc, segments[i]);
      SumConcat(front + done, segments[i]);
      assert segments[..i + 1] == segments[..i] + [segments[i]];
      FlattenAppend(segments[..i], segments[i]);
      Assoc(front, done, segments[i]);
    }
    assert segments[..|segments|] == segments;
  }

  // The running sum of a frame that is being read.
  class FrameSum {
    var acc: byte

    constructor (opcode: byte, payloadLen: u16)
      ensures acc == Sum([opcode] + U16Be(payloadLen))
    {
      var length := U16Be(payloadLen);
      SumOfHeader(opcode, length[0], length[1]);
      assert [opcode] + length == [opcode, length[0], length[1]];
      acc := WrapAdd(WrapAdd(opcode, length[0]), length[1]);
    }

    method AddByte(b: byte)
      modifies this
      ensures acc == WrapAdd(old(acc), b)
    {
      acc := WrapAdd(acc, b);
    }

    method AddSlice(bytes: seq<byte>)
      modifies this
      ensures acc == WrapAdd(old(acc), Sum(bytes))
    {
      acc := AddSegment(acc, bytes);
    }

    // Accepts exactly a zero sum, and reports any other one.
    function Finish(): (r: Result<(), byte>)
      reads this
    {
      if acc == 0 then Ok(()) else Err(acc)
    }
  }
}
