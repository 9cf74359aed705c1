// The server from bytes to bytes: the loop that reads a request, answers it
// and flushes, or is woken and flushes, over a whole connection in which no
// other task sets a key. It is woken at frame boundaries only; WakeUps says what
// being woken inside a frame does.
module Serving {
  import opened Bytes
  import opened Errors
  import opened Messages
  import opened Frames
  import opened Requests
  import opened Values
  import opened Node
  import opened NodeInvariant
  import opened NodeFraming
  import opened Turns
  import opened Sending
  import opened ServerLoop
  import RequestReader

  datatype Ending = ReadFailed | Protocol | Internal

  // What the server sends for a list of requests, up to the first response that
  // does not fit a frame.
  function Talk(cfg: Config, slots: seq<Slot>, requests: seq<Incoming>): (ms: seq<Message>)
    requires |slots| == |cfg.keys|
    decreases requests
  {
    if requests == [] || !Fits(Response(cfg, slots, requests[0])) then []
    else TurnSent(cfg, slots, requests[0]) + Talk(cfg, SlotsAfterTurn(cfg, slots, requests[0]), requests[1..])
  }

  function SlotsAfterTurn(cfg: Config, slots: seq<Slot>, request: Incoming): (r: seq<Slot>)
    requires |slots| == |cfg.keys|
    ensures |r| == |slots|
  {
    Flushed(cfg, Handled(cfg, slots, request), FlushFrom(cfg)).0
  }

  // The keys and the record of observation when all the requests are answered.
  function SlotsAfterTalk(cfg: Config, slots: seq<Slot>, requests: seq<Incoming>): (r: seq<Slot>)
    requires |slots| == |cfg.keys|
    ensures |r| == |slots|
    decreases requests
  {
    if requests == [] then slots else SlotsAfterTalk(cfg, SlotsAfterTurn(cfg, slots, requests[0]), requests[1..])
  }

  // Every response fits its frame.
  predicate AllFit(cfg: Config, slots: seq<Slot>, requests: seq<Incoming>)
    requires |slots| == |cfg.keys|
    decreases requests
  {
    requests != [] ==>
      && Fits(Response(cfg, slots, requests[0]))
      && AllFit(cfg, SlotsAfterTurn(cfg, slots, requests[0]), requests[1..])
  }

  lemma ReadRequestsAreOk(maxStr: nat, rest: seq<byte>)
    requires NextRequest(maxStr, rest).Got?
    ensures RequestOk(NextRequest(maxStr, rest).request)
  {
    var frame := rest[..FRAME_OVERHEAD + FromU16Be(rest[1..3])];
    FrameIsCanonical(ClientToNode, frame);
  }

  // A WRITE that came in a frame is answered by one: what was stored always
  // fits.
  lemma WrittenAlwaysFits(t: KeyType, maxStr: nat, rest: seq<byte>)
    requires NextRequest(maxStr, rest).Got? && NextRequest(maxStr, rest).request.Write?
    requires Accept(t, NextRequest(maxStr, rest).request.value).Some?
    ensures Fits(Ordinarily(Written(Accept(t, NextRequest(maxStr, rest).request.value).value)))
  {
    ReadRequestsAreFramed(maxStr, rest);
  }

  // ---- The condition under which no request list stops the server ----

  predicate AllFramed(requests: seq<Incoming>)
  {
    forall j :: 0 <= j < |requests| ==> Framed(requests[j])
  }

  lemma {:induction false} ReadAllIsFramed(maxStr: nat, stream: seq<byte>)
    ensures AllFramed(ReadAll(maxStr, stream))
    decreases |stream|
  {
    var next := NextRequest(maxStr, stream);
    if next.Got? {
      ReadRequestsAreFramed(maxStr, stream);
      ReadAllIsFramed(maxStr, stream[next.used..]);
    }
  }

  lemma {:induction false} FlushKeepsValues(cfg: Config, slots: seq<Slot>, from: nat, i: nat)
    requires |slots| == |cfg.keys| && from <= |slots| && i < |slots|
    ensures Flushed(cfg, slots, from).0[i].value == slots[i].value
    decreases |slots| - from
  {
    if from < |slots| {
      FlushKeepsValues(cfg, if Due(cfg, slots, from) then slots[from := Look(slots[from], true)] else slots, from + 1, i);
    }
  }

  lemma SendableTurn(cfg: Config, slots: seq<Slot>, request: Incoming)
    requires |slots| == |cfg.keys| && Sendable(cfg, slots) && Framed(request)
    ensures Sendable(cfg, SlotsAfterTurn(cfg, slots, request))
  {
    var handled, r := Handled(cfg, slots, request), SlotsAfterTurn(cfg, slots, request);
    if WriteTarget(cfg, request).Some? {
      FramedWriteFits(cfg, request);
    }
    forall i | 0 <= i < |slots|
      ensures KeySendable(cfg, r, i)
    {
      assert KeySendable(cfg, slots, i);
      FlushKeepsValues(cfg, handled, FlushFrom(cfg), i);
    }
  }

  lemma {:induction false} SendableAllFit(cfg: Config, slots: seq<Slot>, requests: seq<Incoming>)
    requires |slots| == |cfg.keys| && Sendable(cfg, slots) && AllFramed(requests)
    ensures AllFit(cfg, slots, requests)
    decreases requests
  {
    if requests != [] {
      SendableFits(cfg, slots, requests[0]);
      SendableTurn(cfg, slots, requests[0]);
      SendableAllFit(cfg, SlotsAfterTurn(cfg, slots, requests[0]), requests[1..]);
    }
  }

  // Every list of requests that can come in frames is answered to its end if
  // and only if node id, names and readable values are short enough and valid.
  lemma AllFitExactlyWhenSendable(cfg: Config, slots: seq<Slot>)
    requires UniqueKeyrefs(cfg) && |slots| == |cfg.keys|
    ensures Sendable(cfg, slots) <==> forall requests :: AllFramed(requests) ==> AllFit(cfg, slots, requests)
  {
    if Sendable(cfg, slots) {
      forall requests | AllFramed(requests)
        ensures AllFit(cfg, slots, requests)
      {
        SendableAllFit(cfg, slots, requests);
      }
    } else {
      var request := Unsendable(cfg, slots);
      assert AllFramed([request]) && !AllFit(cfg, slots, [request]);
    }
  }

  // One turn: the response as one frame, then the CHANGED frames that are due.
  method ServeRequest(server: Server, stream: Sink, request: Incoming, ghost slots: seq<Slot>)
      returns (r: Outcome, ghost after: seq<Slot>)
    requires server.Valid() && server.Shows(slots) && RequestOk(request)
    modifies stream, server.Touched()
    ensures server.Valid() && (r.Ok? <==> Fits(Response(server.cfg, slots, request)))
    ensures r.Ok? ==> after == SlotsAfterTurn(server.cfg, slots, request) && server.Shows(after)
    ensures r.Ok? ==> NothingDue(server.cfg, after)
    ensures stream.bytes ==
      if r.Ok? then old(stream.bytes) + EncodeAll(TurnSent(server.cfg, slots, request)) else old(stream.bytes)
  {
    ghost var m := Response(server.cfg, slots, request);
    after := Handled(server.cfg, slots, request);
    r := server.HandleRequest(stream, request, slots);
    if r.Ok? {
      ghost var sent := Flushed(server.cfg, after, FlushFrom(server.cfg)).1;
      TurnLeavesNothingDue(server.cfg, after);
      after := server.FlushNotifications(stream, after);
      assert ([m] + sent)[1..] == sent;
      Assoc(old(stream.bytes), EncodeFrame(m), EncodeAll(sent));
    }
  }

  lemma {:induction false} EncodeAllSplits(xs: seq<Message>, ys: seq<Message>)
    ensures EncodeAll(xs + ys) == EncodeAll(xs) + EncodeAll(ys)
  {
    if xs == [] {
      assert xs + ys == ys;
    } else {
      assert (xs + ys)[1..] == xs[1..] + ys;
      EncodeAllSplits(xs[1..], ys);
      Assoc(EncodeFrame(xs[0]), EncodeAll(xs[1..]), EncodeAll(ys));
    }
  }

  lemma TalkUnfolds(cfg: Config, slots: seq<Slot>, request: Incoming, rest: seq<Incoming>, before: seq<byte>)
    requires |slots| == |cfg.keys|
    ensures before + EncodeAll(Talk(cfg, slots, [request] + rest)) ==
      if Fits(Response(cfg, slots, request)) then
        before + EncodeAll(TurnSent(cfg, slots, request)) + EncodeAll(Talk(cfg, SlotsAfterTurn(cfg, slots, request), rest))
      else before
    ensures AllFit(cfg, slots, [request] + rest) <==>
      Fits(Response(cfg, slots, request)) && AllFit(cfg, SlotsAfterTurn(cfg, slots, request), rest)
  {
    assert ([request] + rest)[1..] == rest;
    if Fits(Response(cfg, slots, request)) {
      var turn, more := TurnSent(cfg, slots, request), Talk(cfg, SlotsAfterTurn(cfg, slots, request), rest);
      assert Talk(cfg, slots, [request] + rest) == turn + more;
      EncodeAllSplits(turn, more);
      Assoc(before, EncodeAll(turn), EncodeAll(more));
    } else {
      assert before + [] == before;
    }
  }

  // The source and the scratch buffer are no part of the server.
  ghost predicate Apart(server: Server, source: ByteSource, scratch: array<byte>)
  {
    scratch as object !in server.Touched() && source as object !in server.Touched()
  }

  // How a connection ends behind its last request: the transport does, or a
  // frame is refused.
  function Closing(maxStr: nat, stream: seq<byte>): (end: Ending)
  {
    if NextRequest(maxStr, Leftover(maxStr, stream)).Bad? then Protocol else ReadFailed
  }

  // Reads the first of the requests that are left, if there is one.
  method ReadOne(server: Server, source: ByteSource, scratch: array<byte>, ghost slots: seq<Slot>, ghost requests: seq<Incoming>)
      returns (r: Result<Incoming, Ending>, ghost rest: seq<Incoming>)
    requires server.Valid() && server.Shows(slots) && source.Valid() && Apart(server, source, scratch)
    requires requests == ReadAll(scratch.Length, source.data[source.pos..])
    modifies source, scratch
    ensures server.Valid() && server.Shows(slots) && source.Valid()
    ensures r.Err? ==> requests == [] && r.error == Closing(scratch.Length, source.data[old(source.pos)..])
    ensures r.Ok? ==> Leftover(scratch.Length, source.data[source.pos..]) == Leftover(scratch.Length, source.data[old(source.pos)..])
    ensures r.Ok? ==> requests == [r.value] + rest && RequestOk(r.value) && source.pos > old(source.pos)
    ensures r.Ok? ==> rest == ReadAll(scratch.Length, source.data[source.pos..])
  {
    ghost var pos := source.pos;
    rest := [];
    var request := RequestReader.ReadRequest(source, scratch);
    if request.Err? {
      return Err(if request.error.Read? then ReadFailed else Protocol), [];
    }
    ReadRequestsAreOk(scratch.Length, source.data[pos..]);
    assert source.data[pos..][source.pos - pos..] == source.data[source.pos..];
    r, rest := Ok(request.value), ReadAll(scratch.Length, source.data[source.pos..]);
  }

  // Serves the first of the requests that are left; `total` is what will have
  // been sent in the end.
  method AnswerOne(server: Server, stream: Sink, request: Incoming, ghost rest: seq<Incoming>, ghost slots: seq<Slot>,
                   ghost total: seq<byte>)
      returns (r: Outcome, ghost after: seq<Slot>)
    requires server.Valid() && server.Shows(slots) && RequestOk(request)
    requires total == stream.bytes + EncodeAll(Talk(server.cfg, slots, [request] + rest))
    modifies stream, server.Touched()
    ensures server.Valid()
    ensures r.Ok? ==> server.Shows(after) && NothingDue(server.cfg, after)
    ensures r.Ok? ==> total == stream.bytes + EncodeAll(Talk(server.cfg, after, rest))
    ensures r.Ok? ==> AllFit(server.cfg, after, rest) == AllFit(server.cfg, slots, [request] + rest)
    ensures r.Ok? ==> SlotsAfterTalk(server.cfg, after, rest) == SlotsAfterTalk(server.cfg, slots, [request] + rest)
    ensures r.Err? ==> total == stream.bytes && !AllFit(server.cfg, slots, [request] + rest)
  {
    TalkUnfolds(server.cfg, slots, request, rest, stream.bytes);
    assert ([request] + rest)[1..] == rest;
    r, after := ServeRequest(server, stream, request, slots);
  }

  lemma SendableListsFit(cfg: Config, slots: seq<Slot>, maxStr: nat, stream: seq<byte>)
    requires |slots| == |cfg.keys|
    ensures Sendable(cfg, slots) ==> AllFit(cfg, slots, ReadAll(maxStr, stream))
  {
    ReadAllIsFramed(maxStr, stream);
    if Sendable(cfg, slots) {
      SendableAllFit(cfg, slots, ReadAll(maxStr, stream));
    }
  }

  // The notifier wins the race, if it is raised: the signal is taken and the due
  // keys are flushed. Between two turns that sends nothing.
  method WakeUp(server: Server, stream: Sink, ghost slots: seq<Slot>) returns (woken: bool)
    requires server.Valid() && server.Shows(slots) && NothingDue(server.cfg, slots)
    modifies stream, server.Touched()
    ensures server.Valid() && server.Shows(slots)
    ensures woken == (server.hasObservable && old(server.notifier.raised))
    ensures server.notifier.raised == (old(server.notifier.raised) && !server.hasObservable)
    ensures stream.bytes == old(stream.bytes)
  {
    if !server.hasObservable {
      return false;
    }
    woken := server.notifier.Take();
    if woken {
      SpuriousFlush(server.cfg, slots, FlushFrom(server.cfg));
      ghost var after := server.FlushNotifications(stream, slots);
      assert stream.bytes + [] == stream.bytes;
    }
  }

  // A whole connection: whenever the server is woken between requests, the bytes
  // written are the encodings of the responses and notifications of the requests
  // that the byte stream encodes, in order.
  method Serve(server: Server, source: ByteSource, stream: Sink, scratch: array<byte>, ghost slots: seq<Slot>)
      returns (end: Ending)
    requires server.Valid() && server.Shows(slots) && source.Valid() && Apart(server, source, scratch)
    requires NothingDue(server.cfg, slots)
    modifies source, scratch, stream, server.Touched()
    ensures stream.bytes == old(stream.bytes)
      + EncodeAll(Talk(server.cfg, slots, ReadAll(scratch.Length, source.data[old(source.pos)..])))
    ensures end.Internal? <==> !AllFit(server.cfg, slots, ReadAll(scratch.Length, source.data[old(source.pos)..]))
    ensures server.Valid()
    ensures !end.Internal? ==>
      server.Shows(SlotsAfterTalk(server.cfg, slots, ReadAll(scratch.Length, source.data[old(source.pos)..])))
    ensures !end.Internal? ==> end == Closing(scratch.Length, source.data[old(source.pos)..])
    ensures Sendable(server.cfg, slots) ==> !end.Internal?
  {
    ghost var final := SlotsAfterTalk(server.cfg, slots, ReadAll(scratch.Length, source.data[source.pos..]));
    ghost var leftover := Leftover(scratch.Length, source.data[source.pos..]);
    ghost var now, requests := slots, ReadAll(scratch.Length, source.data[source.pos..]);
    ghost var total, fit := stream.bytes + EncodeAll(Talk(server.cfg, slots, requests)), AllFit(server.cfg, slots, requests);
    SendableListsFit(server.cfg, slots, scratch.Length, source.data[source.pos..]);
    while true
      invariant server.Valid() && server.Shows(now) && source.Valid() && NothingDue(server.cfg, now)
      invariant requests == ReadAll(scratch.Length, source.data[source.pos..])
      invariant final == SlotsAfterTalk(server.cfg, now, requests)
      invariant leftover == Leftover(scratch.Length, source.data[source.pos..])
      invariant total == stream.bytes + EncodeAll(Talk(server.cfg, now, requests))
      invariant fit == AllFit(server.cfg, now, requests)
      decreases |source.data| - source.pos, if server.notifier.raised then 1 else 0
    {
      var wakes: bool := *;
      if wakes {
        var woken := WakeUp(server, stream, now);
        if woken {
          continue;
        }
      }
      var request;
      ghost var rest;
      request, rest := ReadOne(server, source, scratch, now, requests);
      if request.Err? {
        assert stream.bytes + [] == stream.bytes;
        return request.error;
      }
      ghost var reached := source.pos;
      var answered;
      answered, now := AnswerOne(server, stream, request.value, rest, now, total);
      if answered.Err? {
        return Internal;
      }
      assert source.pos == reached;
      requests := rest;
    }
  }

  // ---- The same as a run of the node's steps ----

  lemma {:induction false} RunsChain(cfg: Config, s: State, xs: seq<Node.Step>, ys: seq<Node.Step>)
    requires |s.slots| == |cfg.keys| && IsRun(cfg, s, xs) && IsRun(cfg, After(cfg, s, xs), ys)
    ensures IsRun(cfg, s, xs + ys) && After(cfg, s, xs + ys) == After(cfg, After(cfg, s, xs), ys)
    decreases |xs|
  {
    if xs == [] {
      assert xs + ys == ys;
    } else {
      assert (xs + ys)[1..] == xs[1..] + ys;
      RunsChain(cfg, Apply(cfg, s, xs[0]), xs[1..], ys);
    }
  }

  function TalkSteps(cfg: Config, slots: seq<Slot>, requests: seq<Incoming>): (steps: seq<Node.Step>)
    requires |slots| == |cfg.keys|
    decreases requests
  {
    if requests == [] then []
    else RequestSteps(cfg, slots, requests[0]) + TalkSteps(cfg, SlotsAfterTurn(cfg, slots, requests[0]), requests[1..])
  }

  // What the loop sends is what some run of the node's small steps sends, so
  // every property of runs is one of the loop.
  lemma {:induction false} TalkIsARun(cfg: Config, s: State)
    requires |s.slots| == |cfg.keys| && s.phase.Waiting? && AllFit(cfg, s.slots, s.inbox)
    ensures var steps := TalkSteps(cfg, s.slots, s.inbox);
      && IsRun(cfg, s, steps)
      && After(cfg, s, steps).outbox == s.outbox + Talk(cfg, s.slots, s.inbox)
      && After(cfg, s, steps).inbox == [] && After(cfg, s, steps).phase == Waiting
    decreases |s.inbox|
  {
    if s.inbox != [] {
      var turn := RequestSteps(cfg, s.slots, s.inbox[0]);
      RequestRuns(cfg, s);
      var r := After(cfg, s, turn);
      TalkIsARun(cfg, r);
      RunsChain(cfg, s, turn, TalkSteps(cfg, r.slots, r.inbox));
      Assoc(s.outbox, TurnSent(cfg, s.slots, s.inbox[0]), Talk(cfg, r.slots, r.inbox));
    }
  }
}
