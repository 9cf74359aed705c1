// The embedded server as it is written: it answers one request from its keys
// and its record of what the client observes, and flushes due notifications.
module ServerLoop {
  import opened Bytes
  import opened Opcodes
  import opened Utf8Stream
  import Utf8
  import Caps
  import opened Messages
  import opened Requests
  import opened Frames
  import opened Values
  import opened Node
  import opened Turns
  import opened NodeAnswers
  import opened Keys
  import opened Sending

  function InfosOf(keys: seq<Keys.Key>): (infos: seq<KeyConfig>)
    ensures |infos| == |keys|
  {
    if keys == [] then [] else InfosOf(keys[..|keys| - 1]) + [keys[|keys| - 1].Info()]
  }

  lemma {:induction false} InfoAt(keys: seq<Keys.Key>, i: nat)
    requires i < |keys|
    ensures InfosOf(keys)[i] == keys[i].Info()
  {
    if i < |keys| - 1 {
      InfoAt(keys[..|keys| - 1], i);
    }
  }

  // A request whose strings are as the reader delivers them.
  predicate RequestOk(request: Incoming)
  {
    request.Write? ==> WireOk(request.value)
  }

  // ---- Which responses can be put on the wire ----

  lemma {:induction false} AsciiIsText(raw: seq<byte>)
    requires forall i :: 0 <= i < |raw| ==> 0 < raw[i] < 0x80
    ensures IsWireString(raw)
  {
    if raw != [] {
      AsciiIsText(raw[1..]);
      Utf8.ValidThen(raw[..1], raw[1..]);
      assert raw == raw[..1] + raw[1..];
    }
  }

  lemma BasePair(i: nat)
    requires i < 8
    ensures Caps.PairOk(Caps.Pair(BaseCaps()[2 * i], BaseCaps()[2 * i + 1]))
    ensures forall j :: 0 <= j < i ==> BaseCaps()[2 * j] != BaseCaps()[2 * i]
  {
  }

  lemma BaseIsText(i: nat)
    requires i < 16
    ensures 0 < BaseCaps()[i] < 0x80
  {
  }

  lemma OwnText(cfg: Config)
    ensures IsWireString(CapsString(cfg))
  {
    forall i | 0 <= i < |CapsString(cfg)|
      ensures 0 < CapsString(cfg)[i] < 0x80
    {
      if i < 16 {
        BaseIsText(i);
        assert CapsString(cfg)[i] == BaseCaps()[i];
      }
    }
    AsciiIsText(CapsString(cfg));
  }

  lemma OwnPairs(s: seq<byte>)
    requires s == BaseCaps() || s == BaseCaps() + [CHANGED]
    ensures Caps.AllOk(Caps.Pairs(s)) && Caps.Agree(Caps.Pairs(s))
  {
    forall i | 0 <= i < 8
      ensures Caps.Pairs(s)[i] == Caps.Pair(BaseCaps()[2 * i], BaseCaps()[2 * i + 1])
      ensures Caps.PairOk(Caps.Pairs(s)[i])
      ensures forall j :: 0 <= j < i ==> BaseCaps()[2 * j] != BaseCaps()[2 * i]
    {
      Caps.PairAt(s, i);
      BasePair(i);
    }
  }

  // The server's own CAPS string is one the CAPS grammar accepts, and it
  // advertises change notification exactly when a key is observable.
  lemma OwnCapsAreCaps(cfg: Config)
    ensures Encodable(CapsGiven(CapsString(cfg)))
    ensures Caps.SupportsChanged(CapsString(cfg)) == HasObservable(cfg)
  {
    OwnText(cfg);
    OwnPairs(CapsString(cfg));
  }

  // What the server's registry and the client guarantee of a response.
  predicate Plausible(cfg: Config, m: Message)
  {
    match m
    case Ordinarily(Identified(id)) => IsWireString(id)
    case Ordinarily(Key(flags, name)) => FlagsOk(flags) && IsWireString(name)
    case Ordinarily(Current(v)) => v.Str? ==> Utf8.FromUtf8(v.text).Valid?
    case Ordinarily(Written(v)) => v.Str? ==> Utf8.FromUtf8(v.text).Valid?
    case CapsGiven(caps) => caps == CapsString(cfg)
    case Asked(_) => false
    case _ => true
  }

  lemma EncodableExactlyWhenItFits(cfg: Config, m: Message)
    requires Plausible(cfg, m)
    ensures Encodable(m) <==> Fits(m)
  {
    if m.CapsGiven? {
      OwnCapsAreCaps(cfg);
    }
  }

  // The answers to a GET, by what the search found.
  lemma GetReply(cfg: Config, slots: seq<Slot>, k: u16, count: u16, slot: Option<nat>)
    requires |slots| == |cfg.keys| && count == KeyCount(cfg.keys) && slot == FindSlot(cfg.keys, k)
    ensures Response(cfg, slots, Incoming.Get(k)) ==
      if k >= count then Failed(ERROR_UNKNOWN_KEYREF)
      else if slot.None? || !cfg.keys[slot.value].perm.readable then Failed(ERROR_NOT_ALLOWED)
      else Ordinarily(Current(slots[slot.value].value))
  {
  }

  lemma WriteReply(cfg: Config, slots: seq<Slot>, k: u16, w: WireValue, count: u16, slot: Option<nat>)
    requires |slots| == |cfg.keys| && count == KeyCount(cfg.keys) && slot == FindSlot(cfg.keys, k)
    ensures var request := Incoming.Write(k, w);
      if k >= count then
        Response(cfg, slots, request) == Failed(ERROR_UNKNOWN_KEYREF) && Unmoved(cfg, slots, request)
      else if slot.None? || !cfg.keys[slot.value].perm.writable then
        Response(cfg, slots, request) == Failed(ERROR_NOT_ALLOWED) && Unmoved(cfg, slots, request)
      else
        var v := Accept(cfg.keys[slot.value].ktype, w);
        && Response(cfg, slots, request) == WriteAnswer(v)
        && Handled(cfg, slots, request) == SlotsWritten(slots, slot.value, v)
        && forall raised :: NotifierAfter(cfg, raised, request) == (raised || (v.Some? && cfg.keys[slot.value].perm.observable))
  {
  }

  // What a WRITE to slot i does, given what its type makes of the value.
  function SlotsWritten(slots: seq<Slot>, i: nat, v: Option<Value>): (r: seq<Slot>)
    requires i < |slots|
  {
    match v
    case None => slots
    case Some(value) => slots[i := Advance(slots[i].(value := value))]
  }

  function WriteAnswer(v: Option<Value>): (m: Message)
  {
    match v
    case None => Failed(ERROR_TYPE_MISMATCH)
    case Some(value) => Ordinarily(Written(value))
  }

  predicate Unmoved(cfg: Config, slots: seq<Slot>, request: Incoming)
    requires |slots| == |cfg.keys|
  {
    Handled(cfg, slots, request) == slots && !NotifierAfter(cfg, false, request)
  }

  lemma ObserveReply(cfg: Config, slots: seq<Slot>, k: u16, count: u16, slot: Option<nat>)
    requires |slots| == |cfg.keys| && count == KeyCount(cfg.keys) && slot == FindSlot(cfg.keys, k)
    ensures var request := Incoming.Observe(k);
      if k >= count then
        Response(cfg, slots, request) == Failed(ERROR_UNKNOWN_KEYREF) && Unmoved(cfg, slots, request)
      else if slot.None? || !cfg.keys[slot.value].perm.observable then
        Response(cfg, slots, request) == Failed(ERROR_NOT_ALLOWED) && Unmoved(cfg, slots, request)
      else
        && Response(cfg, slots, request) == Ordinarily(Okay)
        && Handled(cfg, slots, request) == slots[slot.value := Look(slots[slot.value], true)]
  {
  }

  lemma UnobserveReply(cfg: Config, slots: seq<Slot>, k: u16, count: u16, slot: Option<nat>)
    requires |slots| == |cfg.keys| && count == KeyCount(cfg.keys) && slot == FindSlot(cfg.keys, k)
    ensures var request := Incoming.Unobserve(k);
      if k >= count then
        Response(cfg, slots, request) == Failed(ERROR_UNKNOWN_KEYREF) && Unmoved(cfg, slots, request)
      else
        && Response(cfg, slots, request) == Ordinarily(Okay)
        && Handled(cfg, slots, request) == Forgotten(slots, slot)
  {
  }

  function Forgotten(slots: seq<Slot>, slot: Option<nat>): (r: seq<Slot>)
    requires slot.Some? ==> slot.value < |slots|
  {
    if slot.Some? then slots[slot.value := Look(slots[slot.value], false)] else slots
  }

  lemma SlotsStay(cfg: Config, slots: seq<Slot>, request: Incoming)
    requires |slots| == |cfg.keys|
    ensures !request.Write? && !request.Observe? && !request.Unobserve? ==> Handled(cfg, slots, request) == slots
    ensures !request.Write? ==> !NotifierAfter(cfg, false, request)
  {
  }

  // A written value fits a frame exactly when its encoding does.
  lemma WrittenFits(t: KeyType, w: WireValue)
    requires WireOk(w) && Accept(t, w).Some?
    ensures Fits(Ordinarily(Written(Accept(t, w).value))) <==> |ValueBytes(Accept(t, w).value)| < 0x1_0000
  {
  }

  // The message went out as one frame, or was refused as too long and nothing
  // went out.
  predicate Sent(before: seq<byte>, after: seq<byte>, r: Outcome, m: Message)
  {
    && (r.Ok? <==> Fits(m))
    && after == if r.Ok? then before + EncodeFrame(m) else before
  }

  // ---- Sizing, from the keys ----

  predicate IsMax(values: seq<nat>, max: nat)
  {
    (forall i :: 0 <= i < |values| ==> values[i] <= max) && (max in values || max == 0)
  }

  method MaxUsize(values: seq<nat>) returns (max: nat)
    ensures IsMax(values, max)
  {
    var index := 0;
    max := 0;
    while index < |values|
      invariant index <= |values|
      invariant IsMax(values[..index], max)
    {
      assert forall i :: 0 <= i < index ==> values[..index + 1][i] == values[..index][i];
      assert values[..index + 1][index] == values[index];
      if values[index] > max {
        max := values[index];
      }
      index := index + 1;
    }
    assert values[..index] == values;
  }

  method AnyObservable(keys: seq<Keys.Key>) returns (any: bool)
    ensures any == HasObservable(Config([], InfosOf(keys)))
  {
    var index := 0;
    while index < |keys|
      invariant index <= |keys|
      invariant forall i :: 0 <= i < index ==> !InfosOf(keys)[i].perm.observable
    {
      InfoAt(keys, index);
      if keys[index].perm.observable {
        return true;
      }
      index := index + 1;
    }
    any := false;
  }

  function WireLens(keys: seq<Keys.Key>): (lens: seq<nat>)
    ensures |lens| == |keys| && forall i :: 0 <= i < |keys| ==> lens[i] == MaxWireLen(keys[i].ktype)
  {
    if keys == [] then [] else WireLens(keys[..|keys| - 1]) + [MaxWireLen(keys[|keys| - 1].ktype)]
  }

  method ValidateNodeId(id: seq<byte>) returns (ok: bool)
    requires Utf8.FromUtf8(id).Valid?
    ensures ok <==> IsWireString(id) && |id| < 0x1_0000
  {
    if |id| > 0xFFFF {
      return false;
    }
    ok := 0 !in id;
  }

  predicate DistinctKeys(keys: seq<Keys.Key>)
  {
    forall i, j :: 0 <= i < j < |keys| ==> keys[i] != keys[j]
  }

  function StrLens(keys: seq<Keys.Key>): (lens: seq<nat>)
    ensures |lens| == |keys| && forall i :: 0 <= i < |keys| ==> lens[i] == MaxStrLen(keys[i].ktype)
  {
    if keys == [] then [] else StrLens(keys[..|keys| - 1]) + [MaxStrLen(keys[|keys| - 1].ktype)]
  }

  // The length of the string buffer: the longest string of any key.
  method StringSize(keys: seq<Keys.Key>) returns (maxStr: nat)
    ensures forall i :: 0 <= i < |keys| ==> MaxStrLen(keys[i].ktype) <= maxStr
    ensures maxStr == 0 || exists i :: 0 <= i < |keys| && MaxStrLen(keys[i].ktype) == maxStr
  {
    var lens := [0] + StrLens(keys);
    maxStr := MaxUsize(lens);
    assert forall i :: 0 <= i < |keys| ==> lens[i + 1] == MaxStrLen(keys[i].ktype);
    if maxStr > 0 {
      var i :| 0 <= i < |lens| && lens[i] == maxStr;
      assert MaxStrLen(keys[i - 1].ktype) == maxStr;
    }
  }

  // Whether any key is observable, and a buffer length that every encoding of
  // every key fits, as do a keyref and a count.
  method Sizes(keys: seq<Keys.Key>) returns (hasObservable: bool, maxResponse: nat)
    ensures hasObservable == HasObservable(Config([], InfosOf(keys)))
    ensures 2 <= maxResponse && forall i :: 0 <= i < |keys| ==> MaxWireLen(keys[i].ktype) <= maxResponse
    ensures maxResponse == 2 || exists i :: 0 <= i < |keys| && MaxWireLen(keys[i].ktype) == maxResponse
  {
    var lens := [0] + WireLens(keys);
    var maxValue := MaxUsize(lens);
    hasObservable := AnyObservable(keys);
    maxResponse := MaxUsize([maxValue, 2, 1]);
    assert forall i :: 0 <= i < |keys| ==> lens[i + 1] == MaxWireLen(keys[i].ktype);
    assert [maxValue, 2, 1][0] == maxValue && [maxValue, 2, 1][1] == 2;
    if maxResponse > 2 {
      var i :| 0 <= i < |lens| && lens[i] == maxResponse;
      assert MaxWireLen(keys[i - 1].ktype) == maxResponse;
    }
  }

  // Starts a server over keys that no other server was attached to. The
  // response buffer is as long as the longest encoding of any key.
  method Launch(keys: seq<Keys.Key>, nodeId: seq<byte>) returns (r: Option<Server>)
    requires DistinctKeys(keys) && Utf8.FromUtf8(nodeId).Valid?
    requires forall i :: 0 <= i < |keys| ==> keys[i].Valid() && keys[i].notifier == null
    modifies keys
    ensures r.Some? <==> IsWireString(nodeId) && |nodeId| < 0x1_0000
    ensures r.Some? ==> r.value.Valid() && r.value.keys == keys && r.value.nodeId == nodeId
    ensures r.Some? ==> forall i :: 0 <= i < |keys| ==> !r.value.observed[i] && r.value.seen[i] == 0
    ensures forall i :: 0 <= i < |keys| ==> keys[i].value == old(keys[i].value) && keys[i].generation == old(keys[i].generation)
  {
    var ok := ValidateNodeId(nodeId);
    if !ok {
      return None;
    }
    var hasObservable, maxResponse := Sizes(keys);
    var server := new Server(keys, nodeId, hasObservable, maxResponse);
    server.AttachNotifiers();
    r := Some(server);
  }

  class Server {
    const keys: seq<Keys.Key>
    const nodeId: seq<byte>
    const hasObservable: bool
    const notifier: NotifySignal
    const observed: array<bool>
    const seen: array<nat>
    const response: array<byte>
    ghost const cfg: Config

    constructor (keys: seq<Keys.Key>, nodeId: seq<byte>, hasObservable: bool, maxResponse: nat)
      ensures this.keys == keys && this.nodeId == nodeId && this.hasObservable == hasObservable
      ensures fresh(notifier) && fresh(observed) && fresh(seen) && fresh(response)
      ensures observed.Length == seen.Length == |keys| && response.Length == maxResponse
      ensures |cfg.keys| == |keys| && forall i :: 0 <= i < |keys| ==> cfg.keys[i] == keys[i].Info()
      ensures cfg.nodeId == nodeId && HasObservable(cfg) == HasObservable(Config([], InfosOf(keys)))
      ensures forall i :: 0 <= i < |keys| ==> !observed[i] && seen[i] == 0
      ensures (seen as object) != (response as object)
    {
      this.keys, this.nodeId, this.hasObservable := keys, nodeId, hasObservable;
      notifier := new NotifySignal();
      observed := new bool[|keys|](_ => false);
      seen := new nat[|keys|](_ => 0);
      response := new byte[maxResponse](_ => 0);
      cfg := Config(nodeId, InfosOf(keys));
      new;
      forall i | 0 <= i < |keys|
        ensures cfg.keys[i] == keys[i].Info()
      {
        InfoAt(keys, i);
      }
    }

    method AttachNotifiers()
      requires DistinctKeys(keys)
      requires forall i :: 0 <= i < |keys| ==>
        keys[i].Valid() && keys[i].notifier == null && keys[i].changeSignal != notifier
      modifies keys
      ensures forall i :: 0 <= i < |keys| ==> keys[i].Valid()
      ensures forall i :: 0 <= i < |keys| ==> keys[i].notifier == (if keys[i].perm.observable then notifier else null)
      ensures forall i :: 0 <= i < |keys| ==> keys[i].value == old(keys[i].value) && keys[i].generation == old(keys[i].generation)
    {
      for i := 0 to |keys|
        invariant forall j :: 0 <= j < |keys| ==> keys[j].Valid()
        invariant forall j :: 0 <= j < |keys| ==> keys[j].notifier == (if j < i && keys[j].perm.observable then notifier else null)
        invariant forall j :: 0 <= j < |keys| ==> keys[j].value == old(keys[j].value) && keys[j].generation == old(keys[j].generation)
      {
        keys[i].AttachNotifier(notifier);
      }
    }

    ghost predicate KeyOk(i: nat)
      requires i < |keys|
      reads keys
    {
      && keys[i].Valid()
      && MaxWireLen(keys[i].ktype) <= response.Length
      && keys[i].notifier == (if keys[i].perm.observable then notifier else null)
      && keys[i].changeSignal != notifier
      && |cfg.keys| == |keys| && cfg.keys[i] == keys[i].Info()
    }

    ghost predicate Valid()
      reads keys
    {
      && observed.Length == seen.Length == |keys|
      && DistinctKeys(keys)
      && (forall i :: 0 <= i < |keys| ==> KeyOk(i))
      && |cfg.keys| == |keys| && cfg.nodeId == nodeId
      && hasObservable == HasObservable(cfg)
      && IsWireString(nodeId) && |nodeId| < 0x1_0000
      && 2 <= response.Length
      && (seen as object) != (response as object)
    }

    // The keys and the record are what these slots say.
    ghost predicate Shows(slots: seq<Slot>)
      requires Valid()
      reads keys, observed, seen
    {
      |slots| == |keys| && forall i {:trigger ShowsAt(i, slots[i])} :: 0 <= i < |slots| ==> ShowsAt(i, slots[i])
    }

    ghost predicate ShowsAt(i: nat, slot: Slot)
      requires Valid() && i < |keys|
      reads keys, observed, seen
    {
      && slot.value == WireAt(i) && slot.gen == keys[i].generation
      && slot.observed == observed[i] && slot.seen == seen[i]
    }

    // The first slot with the keyref.
    method Find(k: u16) returns (r: Option<nat>)
      requires Valid()
      ensures r == FindSlot(cfg.keys, k)
      ensures r.Some? ==> r.value < |keys| && cfg.keys[r.value] == keys[r.value].Info()
    {
      for i := 0 to |keys|
        invariant forall j :: 0 <= j < i ==> cfg.keys[j].keyref != k
      {
        assert KeyOk(i);
        if keys[i].keyref == k {
          FirstSlot(cfg.keys, k, i);
          return Some(i);
        }
      }
      FirstSlot(cfg.keys, k, |keys|);
      r := None;
    }

    // The advertised count: 0 without keys, and otherwise one more than the
    // largest keyref, which saturates, so that 65535 is never below it.
    method Count() returns (n: u16)
      requires Valid()
      ensures n == KeyCount(cfg.keys)
      ensures |keys| == 0 ==> n == 0
      ensures forall i :: 0 <= i < |keys| ==> keys[i].keyref < n || keys[i].keyref == n == 65535
      ensures |keys| > 0 ==> exists i :: 0 <= i < |keys| && n == if keys[i].keyref == 65535 then 65535 else keys[i].keyref + 1
    {
      RefsOfKeys();
      n := 0;
      assert cfg.keys[..0] == [];
      for i := 0 to |keys|
        invariant n == KeyCount(cfg.keys[..i])
      {
        assert KeyOk(i);
        assert cfg.keys[..i + 1][..i] == cfg.keys[..i] && cfg.keys[..i + 1][i] == cfg.keys[i];
        var next := SaturatingNext(keys[i].keyref);
        n := if next > n then next else n;
      }
      assert cfg.keys[..|keys|] == cfg.keys;
    }

    // The count of the configuration, said of the keys themselves.
    lemma RefsOfKeys()
      requires Valid()
      ensures forall i :: 0 <= i < |keys| ==>
        keys[i].keyref < KeyCount(cfg.keys) || keys[i].keyref == KeyCount(cfg.keys) == 65535
      ensures |keys| > 0 ==>
        exists i :: 0 <= i < |keys| && KeyCount(cfg.keys) == if keys[i].keyref == 65535 then 65535 else keys[i].keyref + 1
    {
      KeyCountIsTheCount(cfg.keys);
      forall i | 0 <= i < |keys|
        ensures Keyrefs(cfg.keys)[i] == cfg.keys[i].keyref == keys[i].keyref
        ensures keys[i].keyref < KeyCount(cfg.keys) || keys[i].keyref == KeyCount(cfg.keys) == 65535
      {
        assert KeyOk(i);
        assert Keyrefs(cfg.keys)[i] in Keyrefs(cfg.keys);
      }
      if |keys| > 0 {
        var largest: u16 :| IsLargest(Keyrefs(cfg.keys), largest)
          && KeyCount(cfg.keys) == if largest == 65535 then 65535 else largest + 1;
        var i :| 0 <= i < |keys| && Keyrefs(cfg.keys)[i] == largest;
        assert keys[i].keyref == largest;
      }
    }

    // What handling a request may change.
    ghost function Touched(): (objects: set<object>)
    {
      {response, observed, seen, notifier} + (set k | k in keys :: k) + (set k | k in keys :: k.changeSignal)
    }

    method AnswerGetKey(stream: Sink, k: u16, ghost slots: seq<Slot>) returns (r: Outcome)
      requires Valid() && Shows(slots)
      modifies stream
      ensures Sent(old(stream.bytes), stream.bytes, r, Response(cfg, slots, Incoming.GetKey(k)))
    {
      var count := Count();
      if k >= count {
        r := SendError(stream, ERROR_UNKNOWN_KEYREF);
      } else {
        var slot := Find(k);
        match slot
        case Some(index) => r := SendKeyResponse(stream, keys[index]);
        case None => r := SendVoidKeyResponse(stream);
      }
    }

    method AnswerGet(stream: Sink, k: u16, ghost slots: seq<Slot>) returns (r: Outcome)
      requires Valid() && Shows(slots)
      modifies stream, response
      ensures Sent(old(stream.bytes), stream.bytes, r, Response(cfg, slots, Incoming.Get(k)))
    {
      var count := Count();
      var slot := Find(k);
      GetReply(cfg, slots, k, count, slot);
      if k >= count {
        r := Refuse(stream, ERROR_UNKNOWN_KEYREF);
      } else if slot.None? || !keys[slot.value].perm.readable {
        r := Refuse(stream, ERROR_NOT_ALLOWED);
      } else {
        r := SendStored(stream, slot.value, slots);
      }
    }

    method Refuse(stream: Sink, code: byte) returns (r: Outcome)
      modifies stream
      ensures r.Ok? && Sent(old(stream.bytes), stream.bytes, r, Failed(code))
    {
      r := SendError(stream, code);
    }

    method SendStored(stream: Sink, i: nat, ghost slots: seq<Slot>) returns (r: Outcome)
      requires Valid() && Shows(slots) && i < |keys|
      modifies stream, response
      ensures Sent(old(stream.bytes), stream.bytes, r, Ordinarily(Current(slots[i].value)))
    {
      assert KeyOk(i) && ShowsAt(i, slots[i]);
      StoredFits(keys[i]);
      var encoded := keys[i].EncodeCurrentValue(response);
      if encoded.Err? {
        return Err(NotEncodable);
      }
      r := SendFrame(stream, VALUE, response[..encoded.value]);
    }

    // A stored value fits a frame when it validates and is not too long.
    lemma StoredFits(key: Keys.Key)
      requires key.Valid()
      ensures Fits(Ordinarily(Current(key.Wire()))) <==> key.Storable() && |ValueBytes(key.Wire())| < 0x1_0000
    {
    }

    // Stores an accepted value in key i and in the response buffer.
    method WriteKey(i: nat, w: WireValue) returns (r: Result<nat, WireValueError>)
      requires Valid() && i < |keys| && WireOk(w)
      modifies response, keys[i], keys[i].changeSignal, notifier
      ensures Valid()
      ensures r.Ok? <==> Accept(keys[i].ktype, w).Some?
      ensures r.Ok? ==> Stored(i, Accept(keys[i].ktype, w).value, (old(keys[i].generation) + 1) % GENERATIONS)
      ensures r.Err? ==> Stored(i, old(WireAt(i)), old(keys[i].generation))
      ensures r.Ok? ==> r.value <= response.Length && response[..r.value] == ValueBytes(Accept(keys[i].ktype, w).value)
      ensures notifier.raised == (old(notifier.raised) || (r.Ok? && keys[i].perm.observable))
    {
      assert KeyOk(i);
      r := keys[i].WriteAndEncode(w, response);
      assert KeyOk(i);
      forall j | 0 <= j < |keys| && j != i
        ensures KeyOk(j)
      {
        assert keys[j] != keys[i];
        assert old(KeyOk(j));
      }
    }

    ghost function WireAt(i: nat): (v: Value)
      requires Valid() && i < |keys|
      reads keys
    {
      assert KeyOk(i);
      keys[i].Wire()
    }

    ghost predicate Stored(i: nat, v: Value, gen: nat)
      requires Valid() && i < |keys|
      reads keys
    {
      WireAt(i) == v && keys[i].generation == gen
    }

    // The same, for the slots.
    method StoreAt(i: nat, w: WireValue, ghost slots: seq<Slot>) returns (r: Result<nat, WireValueError>)
      requires Valid() && Shows(slots) && i < |keys| && WireOk(w)
      modifies response, keys[i], keys[i].changeSignal, notifier
      ensures Valid()
      ensures r.Ok? <==> Accept(keys[i].ktype, w).Some?
      ensures Shows(SlotsWritten(slots, i, Accept(keys[i].ktype, w)))
      ensures r.Ok? ==> r.value <= response.Length && response[..r.value] == ValueBytes(Accept(keys[i].ktype, w).value)
      ensures notifier.raised == (old(notifier.raised) || (r.Ok? && keys[i].perm.observable))
    {
      assert ShowsAt(i, slots[i]);
      r := WriteKey(i, w);
      ghost var after := SlotsWritten(slots, i, Accept(keys[i].ktype, w));
      assert ShowsAt(i, after[i]);
      forall j | 0 <= j < |keys| && j != i
        ensures ShowsAt(j, after[j])
      {
        assert keys[j] != keys[i];
        assert old(ShowsAt(j, slots[j]));
      }
    }

    method AnswerWrite(stream: Sink, k: u16, w: WireValue, ghost slots: seq<Slot>) returns (r: Outcome)
      requires Valid() && Shows(slots) && WireOk(w)
      modifies stream, Touched()
      ensures Valid() && Shows(Handled(cfg, slots, Incoming.Write(k, w)))
      ensures Sent(old(stream.bytes), stream.bytes, r, Response(cfg, slots, Incoming.Write(k, w)))
      ensures notifier.raised == NotifierAfter(cfg, old(notifier.raised), Incoming.Write(k, w))
    {
      var count := Count();
      var slot := Find(k);
      WriteReply(cfg, slots, k, w, count, slot);
      if k >= count {
        r := Refuse(stream, ERROR_UNKNOWN_KEYREF);
      } else if slot.None? || !keys[slot.value].perm.writable {
        r := Refuse(stream, ERROR_NOT_ALLOWED);
      } else {
        assert keys[slot.value] in keys && keys[slot.value].changeSignal in Touched();
        r := StoreAndAnswer(stream, slot.value, w, slots);
      }
    }

    method StoreAndAnswer(stream: Sink, i: nat, w: WireValue, ghost slots: seq<Slot>) returns (r: Outcome)
      requires Valid() && Shows(slots) && i < |keys| && WireOk(w)
      modifies stream, response, keys[i], keys[i].changeSignal, notifier
      ensures Valid()
      ensures Shows(SlotsWritten(slots, i, Accept(keys[i].ktype, w)))
      ensures Sent(old(stream.bytes), stream.bytes, r, WriteAnswer(Accept(keys[i].ktype, w)))
      ensures notifier.raised == (old(notifier.raised) || (Accept(keys[i].ktype, w).Some? && keys[i].perm.observable))
    {
      var written := StoreAt(i, w, slots);
      if written.Ok? {
        WrittenFits(keys[i].ktype, w);
        r := SendFrame(stream, WRITTEN, response[..written.value]);
      } else {
        r := Refuse(stream, ERROR_TYPE_MISMATCH);
      }
    }

    method SendOk(stream: Sink) returns (r: Outcome)
      modifies stream
      ensures r.Ok? && Sent(old(stream.bytes), stream.bytes, r, Ordinarily(Okay))
    {
      r := SendFrame(stream, OK, []);
    }

    // Records what the client observes, and the generation it has seen.
    method Observe(i: nat, on: bool, ghost slots: seq<Slot>)
      requires Valid() && Shows(slots) && i < |keys|
      modifies observed, seen
      ensures Shows(slots[i := Look(slots[i], on)])
    {
      assert ShowsAt(i, slots[i]);
      observed[i], seen[i] := on, keys[i].generation;
      ghost var after := slots[i := Look(slots[i], on)];
      forall j | 0 <= j < |keys|
        ensures ShowsAt(j, after[j])
      {
        assert old(ShowsAt(j, slots[j]));
      }
    }

    method AnswerObserve(stream: Sink, k: u16, ghost slots: seq<Slot>) returns (r: Outcome)
      requires Valid() && Shows(slots)
      modifies stream, observed, seen
      ensures Shows(Handled(cfg, slots, Incoming.Observe(k)))
      ensures Sent(old(stream.bytes), stream.bytes, r, Response(cfg, slots, Incoming.Observe(k)))
    {
      var count := Count();
      var slot := Find(k);
      ObserveReply(cfg, slots, k, count, slot);
      if k >= count {
        r := Refuse(stream, ERROR_UNKNOWN_KEYREF);
      } else if slot.None? || !keys[slot.value].perm.observable {
        r := Refuse(stream, ERROR_NOT_ALLOWED);
      } else {
        Observe(slot.value, true, slots);
        r := SendOk(stream);
      }
    }

    method AnswerUnobserve(stream: Sink, k: u16, ghost slots: seq<Slot>) returns (r: Outcome)
      requires Valid() && Shows(slots)
      modifies stream, observed, seen
      ensures Shows(Handled(cfg, slots, Incoming.Unobserve(k)))
      ensures Sent(old(stream.bytes), stream.bytes, r, Response(cfg, slots, Incoming.Unobserve(k)))
    {
      var count := Count();
      var slot := Find(k);
      UnobserveReply(cfg, slots, k, count, slot);
      if k >= count {
        r := Refuse(stream, ERROR_UNKNOWN_KEYREF);
      } else {
        Forget(slot, slots);
        r := SendOk(stream);
      }
    }

    method Forget(slot: Option<nat>, ghost slots: seq<Slot>)
      requires Valid() && Shows(slots) && (slot.Some? ==> slot.value < |keys|)
      modifies observed, seen
      ensures Shows(Forgotten(slots, slot))
    {
      if slot.Some? {
        Observe(slot.value, false, slots);
      }
    }

    // Answers one request. The answer is one frame, the node's response; it is
    // refused, with nothing sent, exactly when the response does not fit a
    // frame. The keys and the record of the client move as the node's do.
    method HandleRequest(stream: Sink, request: Incoming, ghost slots: seq<Slot>) returns (r: Outcome)
      requires Valid() && Shows(slots) && RequestOk(request)
      modifies stream, Touched()
      ensures Valid() && Shows(Handled(cfg, slots, request))
      ensures Sent(old(stream.bytes), stream.bytes, r, Response(cfg, slots, request))
      ensures notifier.raised == NotifierAfter(cfg, old(notifier.raised), request)
    {
      SlotsStay(cfg, slots, request);
      match request
      case GetKey(k) => r := AnswerGetKey(stream, k, slots);
      case Get(k) => r := AnswerGet(stream, k, slots);
      case Write(k, w) => r := AnswerWrite(stream, k, w, slots);
      case Observe(k) => r := AnswerObserve(stream, k, slots);
      case Unobserve(k) => r := AnswerUnobserve(stream, k, slots);
      case _ => r := AnswerFixed(stream, request, slots);
    }

    // The answers that no key's state goes into.
    method AnswerFixed(stream: Sink, request: Incoming, ghost slots: seq<Slot>) returns (r: Outcome)
      requires Valid() && |slots| == |cfg.keys|
      requires request.Ping? || request.Identify? || request.GetCaps? || request.GetKeytabLen?
      modifies stream
      ensures Sent(old(stream.bytes), stream.bytes, r, Response(cfg, slots, request))
    {
      match request
      case Ping => r := SendOk(stream);
      case Identify => r := SendStr16Response(stream, IDENTIFIED, nodeId);
      case GetCaps => r := SendStr16Response(stream, CAPS, if hasObservable then BaseCaps() + [CHANGED] else BaseCaps());
      case GetKeytabLen =>
        var count := Count();
        r := SendFrame(stream, KEYTABLEN, U16Be(count));
    }

    // Sends CHANGED for every key that is due, and marks it seen.
    method FlushNotifications(stream: Sink, ghost slots: seq<Slot>) returns (ghost after: seq<Slot>)
      requires Valid() && Shows(slots)
      modifies stream, seen, response
      ensures |slots| == |cfg.keys| && after == Flushed(cfg, slots, FlushFrom(cfg)).0 && Shows(after)
      ensures stream.bytes == old(stream.bytes) + EncodeAll(Flushed(cfg, slots, FlushFrom(cfg)).1)
    {
      after := slots;
      if !hasObservable {
        return;
      }
      ghost var end, sent := Flushed(cfg, slots, 0), [];
      assert [] + end.1 == end.1;
      for i := 0 to |keys|
        invariant Valid() && Shows(after)
        invariant end == (Flushed(cfg, after, i).0, sent + Flushed(cfg, after, i).1)
        invariant stream.bytes == old(stream.bytes) + EncodeAll(sent)
      {
        FlushStep(cfg, after, i, sent, old(stream.bytes));
        var due := FlushOne(stream, i, after);
        if due {
          after, sent := after[i := Look(after[i], true)], sent + [Changed(cfg.keys[i].keyref)];
        }
      }
      assert sent + [] == sent;
    }

    method FlushOne(stream: Sink, i: nat, ghost slots: seq<Slot>) returns (due: bool)
      requires Valid() && Shows(slots) && i < |keys|
      modifies stream, seen, response
      ensures due == Due(cfg, slots, i)
      ensures Shows(if due then slots[i := Look(slots[i], true)] else slots)
      ensures stream.bytes == if due then old(stream.bytes) + EncodeFrame(Changed(cfg.keys[i].keyref)) else old(stream.bytes)
    {
      assert KeyOk(i) && ShowsAt(i, slots[i]);
      due := false;
      if !observed[i] || !keys[i].perm.observable {
        return;
      }
      var generation := keys[i].generation;
      if generation == seen[i] {
        return;
      }
      seen[i] := generation;
      ghost var after := slots[i := Look(slots[i], true)];
      forall j | 0 <= j < |keys|
        ensures ShowsAt(j, after[j])
      {
        assert old(ShowsAt(j, slots[j]));
      }
      WriteExact(response, 0, U16Be(keys[i].keyref));
      var sent := SendFrame(stream, CHANGED, response[..2]);
      due := true;
    }
  }

  // One key's turn in a flush.
  lemma FlushStep(cfg: Config, slots: seq<Slot>, i: nat, sent: seq<Message>, before: seq<byte>)
    requires |slots| == |cfg.keys| && i < |slots|
    ensures var m := Changed(cfg.keys[i].keyref);
      if Due(cfg, slots, i) then
        var next := Flushed(cfg, slots[i := Look(slots[i], true)], i + 1);
        && Flushed(cfg, slots, i).0 == next.0
        && sent + Flushed(cfg, slots, i).1 == (sent + [m]) + next.1
        && before + EncodeAll(sent) + EncodeFrame(m) == before + EncodeAll(sent + [m])
      else Flushed(cfg, slots, i) == Flushed(cfg, slots, i + 1)
  {
    if Due(cfg, slots, i) {
      var m, next := Changed(cfg.keys[i].keyref), Flushed(cfg, slots[i := Look(slots[i], true)], i + 1);
      Assoc(sent, [m], next.1);
      EncodeOneMore(sent, m);
      Assoc(before, EncodeAll(sent), EncodeFrame(m));
    }
  }

  lemma {:induction false} EncodeOneMore(ms: seq<Message>, m: Message)
    ensures EncodeAll(ms + [m]) == EncodeAll(ms) + EncodeFrame(m)
  {
    if ms == [] {
      assert [m][1..] == [];
    } else {
      assert (ms + [m])[1..] == ms[1..] + [m];
      EncodeOneMore(ms[1..], m);
    }
  }

  lemma {:induction false} FirstSlot(infos: seq<KeyConfig>, k: u16, i: nat)
    requires i <= |infos| && forall j :: 0 <= j < i ==> infos[j].keyref != k
    requires i < |infos| ==> infos[i].keyref == k
    ensures FindSlot(infos, k) == if i < |infos| then Some(i) else None
    decreases i
  {
    if i > 0 {
      FirstSlot(infos[1..], k, i - 1);
    }
  }
}
