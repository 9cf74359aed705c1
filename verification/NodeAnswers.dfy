// What the node answers, spelled out: in terms of the registered keyrefs and
// their permissions, and with the numbers that go over the wire.
module NodeAnswers {
  import opened Bytes
  import opened Messages
  import opened Requests
  import opened Values
  import opened Node
  import opened NodeInvariant
  import opened NodeHistory
  import opened WireForm
  import Caps
  import Frames

  // ---- The advertised count ----

  function Keyrefs(keys: seq<KeyConfig>): (refs: seq<u16>)
    ensures |refs| == |keys|
    ensures forall i :: 0 <= i < |keys| ==> refs[i] == keys[i].keyref
  {
    seq(|keys|, i requires 0 <= i < |keys| => keys[i].keyref)
  }

  // One more than the largest keyref, 0 without keys, and never above 65535.
  ghost predicate IsCount(refs: seq<u16>, n: int)
  {
    if refs == [] then n == 0
    else exists largest: u16 :: IsLargest(refs, largest) && n == if largest == 65535 then 65535 else largest + 1
  }

  predicate IsLargest(refs: seq<u16>, largest: u16)
  {
    largest in refs && forall k :: k in refs ==> k <= largest
  }

  lemma {:induction false} KeyCountIsTheCount(keys: seq<KeyConfig>)
    ensures IsCount(Keyrefs(keys), KeyCount(keys))
  {
    if keys != [] {
      var refs, init := Keyrefs(keys), keys[..|keys| - 1];
      var last := keys[|keys| - 1].keyref;
      KeyCountIsTheCount(init);
      assert refs == Keyrefs(init) + [last];
      if init == [] {
        assert IsLargest(refs, last);
      } else {
        var before: u16 :| IsLargest(Keyrefs(init), before)
          && KeyCount(init) == if before == 65535 then 65535 else before + 1;
        assert IsLargest(refs, if before < last then last else before);
      }
    }
  }

  // Only one number is the count.
  lemma CountIsUnique(refs: seq<u16>, n: int, m: int)
    requires IsCount(refs, n) && IsCount(refs, m)
    ensures n == m
  {
  }

  // A keyref the client may ask about: no larger than the largest registered
  // one, and not 65535.
  ghost predicate InRange(cfg: Config, k: u16)
  {
    k != 65535 && exists i :: 0 <= i < |cfg.keys| && k <= cfg.keys[i].keyref
  }

  lemma BelowCountIsInRange(cfg: Config, k: u16)
    ensures k < KeyCount(cfg.keys) <==> InRange(cfg, k)
  {
    var refs := Keyrefs(cfg.keys);
    KeyCountIsTheCount(cfg.keys);
    if cfg.keys != [] {
      var largest: u16 :| IsLargest(refs, largest) && KeyCount(cfg.keys) == if largest == 65535 then 65535 else largest + 1;
      var i :| 0 <= i < |refs| && refs[i] == largest;
      assert cfg.keys[i].keyref == largest;
      assert forall j :: 0 <= j < |cfg.keys| ==> refs[j] in refs;
    }
  }

  // ---- Answers ----

  predicate AboutKey(request: Incoming)
  {
    request.GetKey? || request.Get? || request.Write? || request.Observe? || request.Unobserve?
  }

  // A keyref above all registered ones is unknown to every request.
  lemma BeyondAllIsUnknown(cfg: Config, slots: seq<Slot>, request: Incoming)
    requires |slots| == |cfg.keys| && AboutKey(request)
    requires forall i :: 0 <= i < |cfg.keys| ==> cfg.keys[i].keyref < request.keyref
    ensures Response(cfg, slots, request) == Failed(1)
    ensures WriteTarget(cfg, request).None? && Switches(cfg, request).None?
  {
    BelowCountIsInRange(cfg, request.keyref);
  }

  // So is 65535, registered or not.
  lemma OutOfRangeIsUnknown(cfg: Config, slots: seq<Slot>, request: Incoming)
    requires |slots| == |cfg.keys| && AboutKey(request)
    ensures !InRange(cfg, request.keyref) <==> Response(cfg, slots, request) == Failed(1)
  {
    BelowCountIsInRange(cfg, request.keyref);
  }

  // In range, but not registered: a void entry, which can only be described and
  // left unobserved.
  lemma VoidAnswers(cfg: Config, slots: seq<Slot>, request: Incoming)
    requires |slots| == |cfg.keys| && AboutKey(request) && InRange(cfg, request.keyref)
    requires forall i :: 0 <= i < |cfg.keys| ==> cfg.keys[i].keyref != request.keyref
    ensures Response(cfg, slots, request) ==
      if request.GetKey? then Ordinarily(Key(0, []))
      else if request.Unobserve? then Ordinarily(Okay)
      else Failed(2)
    ensures WriteTarget(cfg, request).None? && Switches(cfg, request).None?
  {
    BelowCountIsInRange(cfg, request.keyref);
  }

  // A registered key answers by its permissions, and by its type to a WRITE.
  lemma KeyAnswers(cfg: Config, slots: seq<Slot>, request: Incoming, i: nat)
    requires UniqueKeyrefs(cfg) && |slots| == |cfg.keys| && i < |cfg.keys|
    requires AboutKey(request) && request.keyref == cfg.keys[i].keyref < 65535
    ensures var p, m := cfg.keys[i].perm, Response(cfg, slots, request);
      && (request.GetKey? ==> m.Ordinarily? && m.response.Key? && m.response.name == cfg.keys[i].name && FlagsSay(m.response.flags, p))
      && (request.Get? ==> m == if p.readable then Ordinarily(Current(slots[i].value)) else Failed(2))
      && (request.Observe? ==> m == if p.observable then Ordinarily(Okay) else Failed(2))
      && (request.Unobserve? ==> m == Ordinarily(Okay))
      && (request.Write? ==>
            m == if !p.writable then Failed(2)
                 else if Accept(cfg.keys[i].ktype, request.value).None? then Failed(3)
                 else Ordinarily(Written(Accept(cfg.keys[i].ktype, request.value).value)))
    ensures WriteTarget(cfg, request) ==
      if request.Write? && cfg.keys[i].perm.writable && Accept(cfg.keys[i].ktype, request.value).Some?
      then Some((i, Accept(cfg.keys[i].ktype, request.value).value)) else None
    ensures Switches(cfg, request) ==
      if (request.Observe? && cfg.keys[i].perm.observable) || request.Unobserve? then Some(i) else None
  {
    BelowCountIsInRange(cfg, request.keyref);
    FindUnique(cfg, i);
    FlagsAreThePermissions(cfg.keys[i].perm);
  }

  // Bit 0 is readable, bit 1 writable, bit 2 observable, and no other is set.
  predicate FlagsSay(flags: byte, p: Perm)
  {
    && flags <= 7
    && (flags % 2 == 1 <==> p.readable)
    && (flags / 2 % 2 == 1 <==> p.writable)
    && (flags / 4 % 2 == 1 <==> p.observable)
  }

  lemma FlagsAreThePermissions(p: Perm)
    ensures FlagsSay(Flags(p), p)
    ensures forall flags: byte :: FlagsSay(flags, p) ==> flags == Flags(p)
  {
  }

  // What does not depend on a key.
  lemma FixedAnswers(cfg: Config, slots: seq<Slot>)
    requires |slots| == |cfg.keys|
    ensures Response(cfg, slots, Incoming.Ping) == Ordinarily(Okay)
    ensures Response(cfg, slots, Incoming.Identify) == Ordinarily(Identified(cfg.nodeId))
    ensures var m := Response(cfg, slots, Incoming.GetKeytabLen);
      m.Ordinarily? && m.response.KeytabLen? && IsCount(Keyrefs(cfg.keys), m.response.count)
    ensures var m := Response(cfg, slots, Incoming.GetCaps);
      m.CapsGiven? && m.caps == Ascii(if (exists i :: 0 <= i < |cfg.keys| && cfg.keys[i].perm.observable)
                                      then "PkIiCcSsGgWwNkUk!" else "PkIiCcSsGgWwNkUk")
  {
    KeyCountIsTheCount(cfg.keys);
  }

  // The codes of ASCII characters.
  function Ascii(text: string): (b: seq<byte>)
    requires forall i :: 0 <= i < |text| ==> text[i] < 128 as char
  {
    seq(|text|, i requires 0 <= i < |text| => text[i] as int)
  }

  // ---- The advertised pairs ----

  function FirstByte(request: Incoming): (b: byte)
  {
    match request
    case Ping => 0x50
    case Identify => 0x49
    case GetCaps => 0x3F
    case GetKeytabLen => 0x43
    case GetKey(_) => 0x53
    case Get(_) => 0x47
    case Write(_, _) => 0x57
    case Observe(_) => 0x4E
    case Unobserve(_) => 0x55
  }

  // A request other than GETCAPS is answered with ERROR or with the response
  // advertised for it.
  lemma AnswersAsAdvertised(cfg: Config, slots: seq<Slot>, request: Incoming)
    requires |slots| == |cfg.keys| && !request.GetCaps?
    ensures var m := Response(cfg, slots, request);
      m.Failed? || Caps.Pair(FirstByte(request), Frames.EncodeFrame(m)[0]) in Caps.Pairs(CapsString(cfg))
  {
    var i := Advertised(cfg, request);
  }

  // Where the pair of a request stands.
  function Advertised(cfg: Config, request: Incoming): (i: nat)
    requires !request.GetCaps?
    ensures i < |Caps.Pairs(CapsString(cfg))|
    ensures Caps.Pairs(CapsString(cfg))[i].request == FirstByte(request)
    ensures Caps.Pairs(CapsString(cfg))[i].response == AdvertisedFor(request)
  {
    var i := match request
      case Ping => 0
      case Identify => 1
      case GetKeytabLen => 2
      case GetKey(_) => 3
      case Get(_) => 4
      case Write(_, _) => 5
      case Observe(_) => 6
      case Unobserve(_) => 7
      ;
    Caps.PairAt(CapsString(cfg), i);
    i
  }

  function AdvertisedFor(request: Incoming): (b: byte)
  {
    match request
    case Ping => 0x6B
    case Identify => 0x69
    case GetKeytabLen => 0x63
    case GetKey(_) => 0x73
    case Get(_) => 0x67
    case Write(_, _) => 0x77
    case _ => 0x6B
  }

  // And nothing else is advertised: every pair is that of a request.
  lemma AdvertisesOnlyRequests(cfg: Config, i: nat)
    requires i < |Caps.Pairs(CapsString(cfg))|
    ensures |Caps.Pairs(CapsString(cfg))| == 8
    ensures exists request: Incoming :: !request.GetCaps? && Advertised(cfg, request) == i
  {
    var request := match i
      case 0 => Incoming.Ping
      case 1 => Incoming.Identify
      case 2 => Incoming.GetKeytabLen
      case 3 => Incoming.GetKey(0)
      case 4 => Incoming.Get(0)
      case 5 => Incoming.Write(0, WBool(false))
      case 6 => Incoming.Observe(0)
      case _ => Incoming.Unobserve(0);
    assert Advertised(cfg, request) == i;
  }
}
