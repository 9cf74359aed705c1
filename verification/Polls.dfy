// How a client takes messages off its byte stream, and what ending a timed-out
// poll inside a frame does.
module Polls {
  import opened Bytes
  import opened Errors
  import opened Opcodes
  import opened Checksum
  import opened Messages
  import opened Frames
  import opened Requests
  import opened WireForm
  import opened Utf8Stream

  predicate NodeFrame(m: Message)
  {
    Encodable(m) && MessageDirection(m) == NodeToClient
  }

  predicate AllNodeFrames(ms: seq<Message>)
  {
    forall j :: 0 <= j < |ms| ==> NodeFrame(ms[j])
  }

  // The next message of the bytes that have arrived: the whole frame is read
  // before any of it is judged.
  datatype NextIn =
    | Waits
    | Arrived(message: Message, used: nat)
    | Broken(used: nat)

  function NextMessage(rest: seq<byte>): (r: NextIn)
    ensures !r.Waits? ==> 0 < r.used <= |rest|
  {
    if |rest| < 3 then Waits
    else
      var size := FRAME_OVERHEAD + FromU16Be(rest[1..3]);
      if |rest| < size then Waits
      else match Frames.Receive(NodeToClient, rest[..size])
        case Err(_) => Broken(size)
        case Ok(m) => Arrived(m, size)
  }

  // The same in raw bytes: the stream starts with a message if and only if it
  // starts with its frame, and more bytes are awaited exactly when the frame's
  // header or the rest it declares is not there.
  lemma NextMessageInBytes(rest: seq<byte>, m: Message, used: nat)
    ensures NextMessage(rest) == Arrived(m, used) <==>
      && 4 <= used <= |rest| && used == 4 + Word(rest[1], rest[2])
      && FrameAs(rest[..used], m) && !m.Asked? && !m.CapsAsked?
    ensures NextMessage(rest).Waits? <==> |rest| < 3 || |rest| < 4 + Word(rest[1], rest[2])
  {
    if |rest| >= 3 {
      assert rest[1..3] == [rest[1], rest[2]];
      var size := 4 + Word(rest[1], rest[2]);
      if size <= |rest| {
        ReceivesExactlyTheFormat(NodeToClient, rest[..size], m);
      }
    }
  }

  lemma NextOfFrame(m: Message, more: seq<byte>)
    requires NodeFrame(m)
    ensures NextMessage(EncodeFrame(m) + more) == Arrived(m, |EncodeFrame(m)|)
  {
    var frame := EncodeFrame(m);
    MessageSurvives(m);
    FrontOfStream(OpcodeOf(m), Payload(m), more);
  }

  function ReadMessages(stream: seq<byte>): (ms: seq<Message>)
    decreases |stream|
  {
    match NextMessage(stream)
    case Arrived(m, used) => [m] + ReadMessages(stream[used..])
    case _ => []
  }

  // The bytes of any frames a node sends are read back as those frames.
  lemma {:induction false} FramesAreReadBack(ms: seq<Message>)
    requires AllNodeFrames(ms)
    ensures ReadMessages(EncodeAll(ms)) == ms
  {
    if ms != [] {
      var frame, more := EncodeFrame(ms[0]), EncodeAll(ms[1..]);
      assert NodeFrame(ms[0]);
      NextOfFrame(ms[0], more);
      assert (frame + more)[|frame|..] == more;
      assert forall j :: 0 <= j < |ms[1..]| ==> ms[1..][j] == ms[j + 1];
      FramesAreReadBack(ms[1..]);
      assert ms == [ms[0]] + ms[1..];
    }
  }

  // ---- A poll that ends inside a frame ----

  // Going on after `lost` bytes of a frame were dropped still reads its message,
  // whatever follows.
  ghost predicate DropIsHarmless(lost: nat)
  {
    forall m: Message, more: seq<byte> :: NodeFrame(m) && lost <= |EncodeFrame(m)| ==>
      NextMessage(EncodeFrame(m)[lost..] + more) == Arrived(m, |EncodeFrame(m)| - lost)
  }

  lemma DropHarmlessOnlyAtBoundary(lost: nat)
    requires lost <= MAX_FRAME
    ensures DropIsHarmless(lost) <==> lost == 0
  {
    if lost == 0 {
      forall m: Message, more: seq<byte> | NodeFrame(m)
        ensures NextMessage(EncodeFrame(m)[lost..] + more) == Arrived(m, |EncodeFrame(m)| - lost)
      {
        assert EncodeFrame(m)[0..] == EncodeFrame(m);
        NextOfFrame(m, more);
      }
    } else {
      var m := LostMessage(lost);
      assert EncodeFrame(m)[lost..] + [] == EncodeFrame(m)[lost..];
    }
  }

  lemma BadOpcodeIsNoMessage(rest: seq<byte>)
    requires rest != [] && Validate(rest[0], NodeToClient).Err?
    ensures !NextMessage(rest).Arrived?
  {
  }

  lemma NotANodeOpcode(b: byte)
    requires b == 0x61 || b <= 2
    ensures Validate(b, NodeToClient).Err?
  {
  }

  // CHANGED(0) is the six bytes 21 00 02 00 00 DD.
  lemma ChangedBytes()
    ensures EncodeFrame(Changed(0)) == [0x21, 0x00, 0x02, 0x00, 0x00, 0xDD]
    ensures NodeFrame(Changed(0))
  {
    var b: seq<byte> := [0x21, 0x00, 0x02, 0x00, 0x00];
    assert Body(CHANGED, Payload(Changed(0))) == b;
    SumOfHeader(0x21, 0x00, 0x02);
    assert b[..3] == [0x21, 0x00, 0x02];
    assert b[..3] + [0x00] == b[..4] && b[..4] + [0x00] == b;
    SumAppend(b[..3], 0x00);
    SumAppend(b[..4], 0x00);
    assert Sum(b) == 0x23;
  }

  // A message of which the bytes behind the first `lost` are none.
  lemma LostMessage(lost: nat) returns (m: Message)
    requires 0 < lost <= MAX_FRAME
    ensures NodeFrame(m) && lost <= |EncodeFrame(m)| && !NextMessage(EncodeFrame(m)[lost..]).Arrived?
  {
    if lost <= 5 {
      m := Changed(0);
      ChangedBytes();
      if lost < 5 {
        NotANodeOpcode(EncodeFrame(m)[lost]);
        BadOpcodeIsNoMessage(EncodeFrame(m)[lost..]);
      }
    } else {
      var n := if lost == MAX_FRAME then lost - 7 else if lost == MAX_FRAME - 1 then lost - 6 else lost - 5;
      m := LongValue(n, lost);
      if lost <= MAX_FRAME - 2 {
        NotANodeOpcode(EncodeFrame(m)[lost]);
        BadOpcodeIsNoMessage(EncodeFrame(m)[lost..]);
      }
    }
  }

  // A VALUE frame of n letters.
  lemma LongValue(n: nat, at: nat) returns (m: Message)
    requires 0 < n <= 65532 && 6 <= at <= 7 + n
    ensures NodeFrame(m) && |EncodeFrame(m)| == 7 + n && (at < 6 + n ==> EncodeFrame(m)[at] == 0x61)
  {
    m := Ordinarily(Current(Str(Letters(n))));
    LettersAreText(n);
    var payload := [STR_TAG] + (U16Be(n) + Letters(n));
    assert payload == Payload(m);
    if at < 6 + n {
      PayloadByte(VALUE, payload, at - 3);
      assert payload[at - 3] == Letters(n)[at - 6];
    }
  }
}
