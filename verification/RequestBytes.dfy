// Requests as they lie in the byte stream: which bytes make the server see
// which request, with the numbers that go over the wire.
module RequestBytes {
  import opened Bytes
  import opened Errors
  import opened Opcodes
  import opened Checksum
  import opened Utf8Stream
  import opened Messages
  import opened Frames
  import opened Requests
  import opened WireForm

  // The value bytes of a WRITE. A string longer than the buffer leaves only the
  // fact that it was well-formed.
  ghost predicate WireValueAs(maxStr: nat, b: seq<byte>, w: WireValue)
  {
    match w
    case WBool(flag) => b == [1, if flag then 1 else 0]
    case WI64(number) => |b| == 9 && b[0] == 2 && number == Signed(b[1..])
    case WStr(text) => |b| >= 3 && b[0] == 3 && |text| <= maxStr && StringAs(b[1..], text)
    case WOversized => |b| >= 3 && b[0] == 3 && Word(b[1], b[2]) > maxStr && StringAs(b[1..], b[3..])
  }

  predicate KeyrefFrame(f: seq<byte>, op: byte, k: u16)
  {
    |f| == 6 && f[0] == op && k == Word(f[3], f[4])
  }

  // The frame carries the request.
  ghost predicate IncomingAs(maxStr: nat, f: seq<byte>, r: Incoming)
  {
    match r
    case Ping => |f| == 4 && f[0] == 0x50
    case Identify => |f| == 4 && f[0] == 0x49
    case GetCaps => |f| == 4 && f[0] == 0x3F
    case GetKeytabLen => |f| == 4 && f[0] == 0x43
    case GetKey(k) => KeyrefFrame(f, 0x53, k)
    case Get(k) => KeyrefFrame(f, 0x47, k)
    case Write(k, w) => |f| >= 6 && f[0] == 0x57 && k == Word(f[3], f[4]) && WireValueAs(maxStr, f[5..|f| - 1], w)
    case Observe(k) => KeyrefFrame(f, 0x4E, k)
    case Unobserve(k) => KeyrefFrame(f, 0x55, k)
  }

  predicate ClientByte(b: byte)
  {
    b in [0x50, 0x49, 0x43, 0x53, 0x47, 0x57, 0x4E, 0x55, 0x3F]
  }

  // ---- The next request of a stream, in bytes ----

  // The message whose frame carries the request.
  function MessageFor(f: seq<byte>, r: Incoming): (m: Message)
    requires |f| >= 4
  {
    match r
    case Ping => Asked(Request.Ping)
    case Identify => Asked(Request.Identify)
    case GetCaps => CapsAsked
    case GetKeytabLen => Asked(Request.GetKeytabLen)
    case GetKey(k) => Asked(Request.GetKey(k))
    case Get(k) => Asked(Request.Get(k))
    case Observe(k) => Asked(Request.Observe(k))
    case Unobserve(k) => Asked(Request.Unobserve(k))
    case Write(k, w) =>
      match w
      case WBool(flag) => Asked(Request.Write(k, Bool(flag)))
      case WI64(number) => Asked(Request.Write(k, I64(number)))
      case WStr(text) => Asked(Request.Write(k, Str(text)))
      case WOversized => Asked(Request.Write(k, Str(if |f| >= 9 then f[8..|f| - 1] else [])))
  }

  lemma ShrunkAs(maxStr: nat, b: seq<byte>, v: Value)
    requires ValueAs(b, v)
    ensures WireValueAs(maxStr, b, Shrink(maxStr, v))
  {
    if v.Str? {
      assert b[1..][2..] == b[3..];
    }
  }

  // A message of a client is seen as the request its frame carries.
  lemma SeenAs(maxStr: nat, f: seq<byte>, m: Message)
    requires |f| >= 4 && FromClient(m) && MessageAs(f[0], f[3..|f| - 1], m)
    ensures IncomingAs(maxStr, f, ToIncoming(maxStr, m))
  {
    var p := f[3..|f| - 1];
    if m.Asked? && m.request.Write? {
      assert p[2..] == f[5..|f| - 1];
      ShrunkAs(maxStr, p[2..], m.request.value);
    }
  }

  lemma CarriedBy(maxStr: nat, f: seq<byte>, r: Incoming)
    requires |f| >= 4 && IncomingAs(maxStr, f, r)
    ensures var m := MessageFor(f, r);
      FromClient(m) && MessageAs(f[0], f[3..|f| - 1], m) && ToIncoming(maxStr, m) == r
  {
    var p := f[3..|f| - 1];
    if r.Write? {
      assert p[2..] == f[5..|f| - 1];
      CarriedValue(maxStr, f, r);
    }
  }

  lemma CarriedValue(maxStr: nat, f: seq<byte>, r: Incoming)
    requires |f| >= 4 && r.Write? && IncomingAs(maxStr, f, r)
    ensures var m := MessageFor(f, r);
      ValueAs(f[5..|f| - 1], m.request.value) && Shrink(maxStr, m.request.value) == r.value
  {
    var b := f[5..|f| - 1];
    if r.value.WOversized? {
      assert b[1..][2..] == b[3..] == f[8..|f| - 1];
    }
  }

  // The stream starts with a request if and only if it starts with a frame that
  // carries it: its length is the declared one, its bytes sum to a multiple of
  // 256, and its first byte, keyref and value are those of the request.
  lemma NextRequestInBytes(maxStr: nat, rest: seq<byte>, r: Incoming, used: nat)
    ensures NextRequest(maxStr, rest) == Got(r, used) <==>
      && 4 <= used <= |rest|
      && used == 4 + Word(rest[1], rest[2])
      && Total(rest[..used]) % 256 == 0
      && IncomingAs(maxStr, rest[..used], r)
  {
    if |rest| >= 3 {
      assert rest[1..3] == [rest[1], rest[2]];
      var size := 4 + Word(rest[1], rest[2]);
      if size <= |rest| {
        FrameDecides(maxStr, rest, size, r);
      }
    }
  }

  lemma FrameDecides(maxStr: nat, rest: seq<byte>, size: nat, r: Incoming)
    requires 4 <= size <= |rest| && size == 4 + Word(rest[1], rest[2]) && rest[1..3] == [rest[1], rest[2]]
    ensures NextRequest(maxStr, rest) == Got(r, size) <==> Total(rest[..size]) % 256 == 0 && IncomingAs(maxStr, rest[..size], r)
  {
    var f := rest[..size];
    OpcodeVerdict(rest[0], ClientToNode);
    if NextRequest(maxStr, rest) == Got(r, size) {
      ReceivedIsSeen(maxStr, f);
    }
    if Total(f) % 256 == 0 && IncomingAs(maxStr, f, r) {
      CarriedIsReceived(maxStr, f, r);
      assert Validate(rest[0], ClientToNode).Ok?;
    }
  }

  lemma ReceivedIsSeen(maxStr: nat, f: seq<byte>)
    requires Receive(ClientToNode, f).Ok?
    ensures var m := Receive(ClientToNode, f).value;
      FromClient(m) && |f| >= 4 && Total(f) % 256 == 0 && IncomingAs(maxStr, f, ToIncoming(maxStr, m))
  {
    var m := Receive(ClientToNode, f).value;
    FrameIsCanonical(ClientToNode, f);
    ReceivesExactlyTheFormat(ClientToNode, f, m);
    SeenAs(maxStr, f, m);
  }

  lemma CarriedIsReceived(maxStr: nat, f: seq<byte>, r: Incoming)
    requires |f| >= 4 && |f| == 4 + Word(f[1], f[2]) && Total(f) % 256 == 0 && IncomingAs(maxStr, f, r)
    ensures var m := MessageFor(f, r);
      FromClient(m) && Receive(ClientToNode, f) == Ok(m) && ToIncoming(maxStr, m) == r
  {
    CarriedBy(maxStr, f, r);
    ReceivesExactlyTheFormat(ClientToNode, f, MessageFor(f, r));
  }

  // Without a request, the reader waits for more bytes, or has refused the first
  // byte after the header, or has refused the frame at its end.
  lemma NoRequestInBytes(maxStr: nat, rest: seq<byte>)
    ensures NextRequest(maxStr, rest).Ended? <==>
      |rest| < 3 || (ClientByte(rest[0]) && |rest| < 4 + Word(rest[1], rest[2]))
    ensures NextRequest(maxStr, rest).Bad? ==>
      NextRequest(maxStr, rest).used == if ClientByte(rest[0]) then 4 + Word(rest[1], rest[2]) else 3
    ensures |rest| >= 3 && !ClientByte(rest[0]) ==> NextRequest(maxStr, rest).Bad?
  {
    if |rest| >= 3 {
      assert rest[1..3] == [rest[1], rest[2]];
      OpcodeVerdict(rest[0], ClientToNode);
    }
  }

  // The first byte of a stream decides what kind of request is read, and the
  // fourth and fifth are its keyref.
  lemma FirstByteDecides(maxStr: nat, rest: seq<byte>)
    requires NextRequest(maxStr, rest).Got?
    ensures var r := NextRequest(maxStr, rest).request;
      && |rest| >= 4
      && (r.Ping? <==> rest[0] == 0x50)
      && (r.Identify? <==> rest[0] == 0x49)
      && (r.GetCaps? <==> rest[0] == 0x3F)
      && (r.GetKeytabLen? <==> rest[0] == 0x43)
      && (r.GetKey? <==> rest[0] == 0x53)
      && (r.Get? <==> rest[0] == 0x47)
      && (r.Write? <==> rest[0] == 0x57)
      && (r.Observe? <==> rest[0] == 0x4E)
      && (r.Unobserve? <==> rest[0] == 0x55)
    ensures var r := NextRequest(maxStr, rest).request;
      r.GetKey? || r.Get? || r.Write? || r.Observe? || r.Unobserve? ==>
        |rest| >= 6 && r.keyref == 256 * rest[3] as int + rest[4] as int
  {
    var next := NextRequest(maxStr, rest);
    NextRequestInBytes(maxStr, rest, next.request, next.used);
  }

  // The sixth byte of a WRITE is the kind of its value, which follows: one byte
  // that is 0 or 1, eight bytes, or a length of two bytes and so much text.
  lemma WriteInBytes(maxStr: nat, rest: seq<byte>)
    requires NextRequest(maxStr, rest).Got? && rest[0] == 0x57
    ensures var Got(r, used) := NextRequest(maxStr, rest);
      && r.Write? && 8 <= used <= |rest|
      && (r.value.WBool? <==> rest[5] == 1)
      && (r.value.WI64? <==> rest[5] == 2)
      && (r.value.WStr? || r.value.WOversized? <==> rest[5] == 3)
    ensures var Got(r, used) := NextRequest(maxStr, rest);
      r.value.WBool? ==> used == 8 && rest[6] <= 1 && (r.value.flag <==> rest[6] == 1)
    ensures var Got(r, used) := NextRequest(maxStr, rest);
      r.value.WI64? ==> used == 15 && r.value.number == Signed(rest[6..14])
    ensures var Got(r, used) := NextRequest(maxStr, rest);
      rest[5] == 3 ==> used == 9 + Word(rest[6], rest[7])
    ensures var Got(r, used) := NextRequest(maxStr, rest);
      r.value.WStr? ==> r.value.text == rest[8..used - 1] && |r.value.text| == Word(rest[6], rest[7]) <= maxStr
    ensures var Got(r, used) := NextRequest(maxStr, rest);
      r.value.WOversized? ==> Word(rest[6], rest[7]) > maxStr
  {
    var Got(r, used) := NextRequest(maxStr, rest);
    NextRequestInBytes(maxStr, rest, r, used);
    ValueInBytes(maxStr, rest, used, r.value);
  }

  lemma ValueInBytes(maxStr: nat, rest: seq<byte>, used: nat, w: WireValue)
    requires 6 <= used <= |rest| && WireValueAs(maxStr, rest[..used][5..used - 1], w)
    ensures 8 <= used
    ensures (w.WBool? <==> rest[5] == 1) && (w.WI64? <==> rest[5] == 2) && (w.WStr? || w.WOversized? <==> rest[5] == 3)
    ensures w.WBool? ==> used == 8 && rest[6] <= 1 && (w.flag <==> rest[6] == 1)
    ensures w.WI64? ==> used == 15 && w.number == Signed(rest[6..14])
    ensures rest[5] == 3 ==> used == 9 + Word(rest[6], rest[7])
    ensures w.WStr? ==> w.text == rest[8..used - 1] && |w.text| == Word(rest[6], rest[7]) <= maxStr
    ensures w.WOversized? ==> Word(rest[6], rest[7]) > maxStr
  {
    var b := rest[..used][5..used - 1];
    assert b[0] == rest[5] && b[1] == rest[6];
    if w.WI64? {
      assert b[1..] == rest[6..14];
    } else if w.WStr? || w.WOversized? {
      assert b[1..][2..] == b[3..] == rest[8..used - 1];
      assert b[2] == rest[7];
    }
  }
}
