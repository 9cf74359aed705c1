// One turn of the server in bytes: what the frame at the front of the stream
// does to the keys and to the record of what the client observes, and which
// frame answers it.
module ServedBytes {
  import opened Bytes
  import opened Checksum
  import opened Messages
  import opened Frames
  import opened Requests
  import opened Values
  import opened Node
  import opened NodeInvariant
  import opened NodeAnswers
  import opened Turns
  import opened ServerLoop
  import opened Serving
  import opened WireForm
  import opened RequestBytes

  // ---- What a turn does to one slot ----

  // A flush only notes what it has seen.
  lemma {:induction false} FlushOnlyLooks(cfg: Config, slots: seq<Slot>, from: nat, i: nat)
    requires |slots| == |cfg.keys| && from <= |slots| && i < |slots|
    ensures var a, b := slots[i], Flushed(cfg, slots, from).0[i];
      b == a.(seen := b.seen, seenCount := b.seenCount)
    decreases |slots| - from
  {
    if from < |slots| {
      FlushOnlyLooks(cfg, if Due(cfg, slots, from) then slots[from := Look(slots[from], true)] else slots, from + 1, i);
    }
  }

  // Values and counts move by WRITE, the record of observation by OBSERVE and
  // UNOBSERVE, each of the key asked about and of no other.
  lemma TurnMovesSlot(cfg: Config, slots: seq<Slot>, request: Incoming, i: nat)
    requires UniqueKeyrefs(cfg) && |slots| == |cfg.keys| && i < |cfg.keys| && cfg.keys[i].keyref < 65535
    ensures var key, a, b := cfg.keys[i], slots[i], SlotsAfterTurn(cfg, slots, request)[i];
      var asked := AboutKey(request) && request.keyref == key.keyref;
      && b.observed == (if asked && request.Observe? && key.perm.observable then true
                        else if asked && request.Unobserve? then false
                        else a.observed)
      && (if asked && request.Write? && key.perm.writable && Accept(key.ktype, request.value).Some?
          then b.value == Accept(key.ktype, request.value).value && b.count == a.count + 1
          else b.value == a.value && b.count == a.count)
  {
    FlushOnlyLooks(cfg, Handled(cfg, slots, request), FlushFrom(cfg), i);
    if AboutKey(request) && request.keyref == cfg.keys[i].keyref {
      KeyAnswers(cfg, slots, request, i);
    }
  }

  // The first frame a turn sends is the answer.
  lemma AnswerComesFirst(cfg: Config, slots: seq<Slot>, request: Incoming)
    requires |slots| == |cfg.keys|
    ensures EncodeFrame(Response(cfg, slots, request)) <= EncodeAll(TurnSent(cfg, slots, request))
  {
  }

  lemma OkInBytes()
    ensures EncodeFrame(Ordinarily(Okay)) == [0x6B, 0, 0, 0x95]
  {
    var op: byte := 0x6B;
    SumOfHeader(op, 0, 0);
    assert Body(op, []) == [op, 0, 0];
  }

  // ---- In bytes ----

  // A frame that starts with 0x4E and names an observable key leaves it
  // observed, and is answered with OK.
  lemma ObserveFrameObserves(cfg: Config, slots: seq<Slot>, maxStr: nat, rest: seq<byte>, i: nat)
    requires UniqueKeyrefs(cfg) && |slots| == |cfg.keys| && i < |cfg.keys| && cfg.keys[i].perm.observable
    requires NextRequest(maxStr, rest).Got? && rest[0] == 0x4E
    requires |rest| >= 5 && cfg.keys[i].keyref == Word(rest[3], rest[4]) < 65535
    ensures var request := NextRequest(maxStr, rest).request;
      && SlotsAfterTurn(cfg, slots, request)[i].observed
      && [0x6B, 0, 0, 0x95] <= EncodeAll(TurnSent(cfg, slots, request))
  {
    var request := NextRequest(maxStr, rest).request;
    FirstByteDecides(maxStr, rest);
    TurnMovesSlot(cfg, slots, request, i);
    KeyAnswers(cfg, slots, request, i);
    AnswerComesFirst(cfg, slots, request);
    OkInBytes();
  }

  // One that starts with 0x55 leaves it unobserved.
  lemma UnobserveFrameForgets(cfg: Config, slots: seq<Slot>, maxStr: nat, rest: seq<byte>, i: nat)
    requires UniqueKeyrefs(cfg) && |slots| == |cfg.keys| && i < |cfg.keys|
    requires NextRequest(maxStr, rest).Got? && rest[0] == 0x55
    requires |rest| >= 5 && cfg.keys[i].keyref == Word(rest[3], rest[4]) < 65535
    ensures var request := NextRequest(maxStr, rest).request;
      && !SlotsAfterTurn(cfg, slots, request)[i].observed
      && [0x6B, 0, 0, 0x95] <= EncodeAll(TurnSent(cfg, slots, request))
  {
    var request := NextRequest(maxStr, rest).request;
    FirstByteDecides(maxStr, rest);
    TurnMovesSlot(cfg, slots, request, i);
    KeyAnswers(cfg, slots, request, i);
    AnswerComesFirst(cfg, slots, request);
    OkInBytes();
  }

  // No other frame changes what is observed of a key.
  lemma OtherFramesKeepObservation(cfg: Config, slots: seq<Slot>, maxStr: nat, rest: seq<byte>, i: nat)
    requires UniqueKeyrefs(cfg) && |slots| == |cfg.keys| && i < |cfg.keys| && cfg.keys[i].keyref < 65535
    requires NextRequest(maxStr, rest).Got? && |rest| >= 3
    requires (rest[0] == 0x4E || rest[0] == 0x55) && |rest| >= 5 ==>
      cfg.keys[i].keyref != Word(rest[3], rest[4]) || (rest[0] == 0x4E && !cfg.keys[i].perm.observable)
    ensures SlotsAfterTurn(cfg, slots, NextRequest(maxStr, rest).request)[i].observed == slots[i].observed
  {
    FirstByteDecides(maxStr, rest);
    TurnMovesSlot(cfg, slots, NextRequest(maxStr, rest).request, i);
  }

  // The same of the server object that shows these slots after the turn.
  lemma ServerObserves(server: Server, slots: seq<Slot>, maxStr: nat, rest: seq<byte>, i: nat)
    requires server.Valid() && |slots| == |server.keys| && i < |server.keys|
    requires UniqueKeyrefs(server.cfg)
    requires NextRequest(maxStr, rest).Got? && |rest| >= 5 && (rest[0] == 0x4E || rest[0] == 0x55)
    requires server.Shows(SlotsAfterTurn(server.cfg, slots, NextRequest(maxStr, rest).request))
    requires server.keys[i].perm.observable && server.keys[i].keyref == Word(rest[3], rest[4]) < 65535
    ensures server.observed[i] <==> rest[0] == 0x4E
  {
    var after := SlotsAfterTurn(server.cfg, slots, NextRequest(maxStr, rest).request);
    assert server.KeyOk(i) && server.ShowsAt(i, after[i]);
    if rest[0] == 0x4E {
      ObserveFrameObserves(server.cfg, slots, maxStr, rest, i);
    } else {
      UnobserveFrameForgets(server.cfg, slots, maxStr, rest, i);
    }
  }

  // The value a WRITE frame carries, as its key stores it.
  ghost predicate CarriesValue(rest: seq<byte>, used: nat, v: Value)
  {
    && 8 <= used <= |rest|
    && match v
       case Bool(flag) => rest[5] == 1 && used == 8 && rest[6] == if flag then 1 else 0
       case I64(number) => rest[5] == 2 && used == 15 && number == Signed(rest[6..14])
       case Str(text) => rest[5] == 3 && used == 9 + Word(rest[6], rest[7]) && text == rest[8..used - 1]
  }

  // A WRITE frame for a writable key that its type accepts stores the value it
  // carries, and is answered with a frame that carries the same.
  lemma WriteFrameStores(cfg: Config, slots: seq<Slot>, maxStr: nat, rest: seq<byte>, i: nat)
    requires UniqueKeyrefs(cfg) && |slots| == |cfg.keys| && i < |cfg.keys| && cfg.keys[i].perm.writable
    requires NextRequest(maxStr, rest).Got? && rest[0] == 0x57
    requires |rest| >= 5 && cfg.keys[i].keyref == Word(rest[3], rest[4]) < 65535
    requires Accept(cfg.keys[i].ktype, NextRequest(maxStr, rest).request.value).Some?
    ensures var Got(request, used) := NextRequest(maxStr, rest);
      var v := SlotsAfterTurn(cfg, slots, request)[i].value;
      && CarriesValue(rest, used, v)
      && EncodeFrame(Ordinarily(Written(v))) <= EncodeAll(TurnSent(cfg, slots, request))
  {
    var Got(request, used) := NextRequest(maxStr, rest);
    FirstByteDecides(maxStr, rest);
    WriteInBytes(maxStr, rest);
    TurnMovesSlot(cfg, slots, request, i);
    KeyAnswers(cfg, slots, request, i);
    AnswerComesFirst(cfg, slots, request);
  }

  // ---- A whole connection ----

  // Is key k observed behind all the requests of the stream, going by the first,
  // fourth and fifth byte of their frames?
  function ObservedBehind(maxStr: nat, stream: seq<byte>, k: u16, before: bool): (observed: bool)
    decreases |stream|
  {
    if !NextRequest(maxStr, stream).Got? then before
    else
      FirstByteDecides(maxStr, stream);
      var used, named := NextRequest(maxStr, stream).used, |stream| >= 5 && Word(stream[3], stream[4]) == k;
      var after :=
        if stream[0] == 0x4E && named then true
        else if stream[0] == 0x55 && named then false
        else before;
      ObservedBehind(maxStr, stream[used..], k, after)
  }

  // When a connection ends, the last OBSERVE or UNOBSERVE frame for an
  // observable key decides whether it is observed.
  lemma {:induction false} LastFrameDecides(cfg: Config, slots: seq<Slot>, maxStr: nat, stream: seq<byte>, i: nat)
    requires UniqueKeyrefs(cfg) && |slots| == |cfg.keys| && i < |cfg.keys|
    requires cfg.keys[i].perm.observable && cfg.keys[i].keyref < 65535
    ensures SlotsAfterTalk(cfg, slots, ReadAll(maxStr, stream))[i].observed
      == ObservedBehind(maxStr, stream, cfg.keys[i].keyref, slots[i].observed)
    decreases |stream|
  {
    match NextRequest(maxStr, stream)
    case Got(request, used) =>
      FirstByteDecides(maxStr, stream);
      TurnMovesSlot(cfg, slots, request, i);
      LastFrameDecides(cfg, SlotsAfterTurn(cfg, slots, request), maxStr, stream[used..], i);
      assert ([request] + ReadAll(maxStr, stream[used..]))[1..] == ReadAll(maxStr, stream[used..]);
    case _ =>
  }
}
