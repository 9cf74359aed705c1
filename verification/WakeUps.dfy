// What the notifier does to the server loop when it wins the race against a
// request that is being read: the reader is dropped, and with it the bytes it
// has taken.
module WakeUps {
  import opened Bytes
  import opened Errors
  import opened Messages
  import opened Frames
  import opened Requests
  import opened Utf8Stream
  import opened Values
  import opened Node
  import opened Turns
  import opened ServerLoop
  import opened Serving
  import NodeInvariant
  import NodeReplies

  // One iteration of the loop: a request is read, or the server is woken after
  // the reader has taken some bytes of a frame that is not there yet.
  datatype Poll = Read | Dropped(taken: nat)

  ghost predicate MayPoll(cfg: Config, slots: seq<Slot>, maxStr: nat, stream: seq<byte>, notifier: bool, poll: Poll)
    requires |slots| == |cfg.keys|
  {
    match poll
    case Read =>
      NextRequest(maxStr, stream).Got? && Fits(Response(cfg, slots, NextRequest(maxStr, stream).request))
    case Dropped(taken) =>
      HasObservable(cfg) && notifier && taken <= |stream| && NextRequest(maxStr, stream[..taken]).Ended?
  }

  // A schedule of iterations that the loop can go through.
  ghost predicate IsSchedule(cfg: Config, slots: seq<Slot>, maxStr: nat, stream: seq<byte>, notifier: bool, polls: seq<Poll>)
    requires |slots| == |cfg.keys|
    decreases polls
  {
    polls != [] ==>
      && MayPoll(cfg, slots, maxStr, stream, notifier, polls[0])
      && match polls[0]
         case Read =>
           var next := NextRequest(maxStr, stream);
           IsSchedule(cfg, SlotsAfterTurn(cfg, slots, next.request), maxStr, stream[next.used..],
                      NotifierAfter(cfg, notifier, next.request), polls[1..])
         case Dropped(taken) => IsSchedule(cfg, Flushed(cfg, slots, 0).0, maxStr, stream[taken..], false, polls[1..])
  }

  // What is sent under a schedule, and the bytes not taken yet.
  ghost function Sent(cfg: Config, slots: seq<Slot>, maxStr: nat, stream: seq<byte>, notifier: bool, polls: seq<Poll>)
      : (r: (seq<Message>, seq<byte>))
    requires |slots| == |cfg.keys| && IsSchedule(cfg, slots, maxStr, stream, notifier, polls)
    decreases polls
  {
    if polls == [] then ([], stream)
    else match polls[0]
      case Read =>
        var next := NextRequest(maxStr, stream);
        var rest := Sent(cfg, SlotsAfterTurn(cfg, slots, next.request), maxStr, stream[next.used..],
                         NotifierAfter(cfg, notifier, next.request), polls[1..]);
        (TurnSent(cfg, slots, next.request) + rest.0, rest.1)
      case Dropped(taken) =>
        var rest := Sent(cfg, Flushed(cfg, slots, 0).0, maxStr, stream[taken..], false, polls[1..]);
        (Flushed(cfg, slots, 0).1 + rest.0, rest.1)
  }

  predicate AtBoundaries(polls: seq<Poll>)
  {
    forall j :: 0 <= j < |polls| && polls[j].Dropped? ==> polls[j].taken == 0
  }

  // How many requests a schedule reads.
  function Reads(polls: seq<Poll>): (n: nat)
  {
    if polls == [] then 0 else (if polls[0].Read? then 1 else 0) + Reads(polls[1..])
  }

  ghost predicate Harmless(cfg: Config, slots: seq<Slot>, maxStr: nat, stream: seq<byte>, notifier: bool, polls: seq<Poll>)
    requires |slots| == |cfg.keys| && IsSchedule(cfg, slots, maxStr, stream, notifier, polls)
  {
    && Reads(polls) <= |ReadAll(maxStr, stream)|
    && Sent(cfg, slots, maxStr, stream, notifier, polls).0 == Talk(cfg, slots, ReadAll(maxStr, stream)[..Reads(polls)])
  }

  // Woken at frame boundaries only, the server sends what it sends for the
  // requests read, whatever the schedule.
  lemma {:induction false} BoundaryWakeUpsAreHarmless(cfg: Config, slots: seq<Slot>, maxStr: nat, stream: seq<byte>, notifier: bool,
                                                     polls: seq<Poll>)
    requires |slots| == |cfg.keys| && NothingDue(cfg, slots)
    requires IsSchedule(cfg, slots, maxStr, stream, notifier, polls) && AtBoundaries(polls)
    ensures Reads(polls) <= |ReadAll(maxStr, stream)|
    ensures Sent(cfg, slots, maxStr, stream, notifier, polls).0 == Talk(cfg, slots, ReadAll(maxStr, stream)[..Reads(polls)])
    decreases polls
  {
    if polls != [] {
      var rest := polls[1..];
      assert forall j :: 0 <= j < |rest| ==> rest[j] == polls[j + 1];
      assert polls == [polls[0]] + rest;
      if polls[0].Read? {
        var next := NextRequest(maxStr, stream);
        TurnLeavesNothingDue(cfg, Handled(cfg, slots, next.request));
        BoundaryWakeUpsAreHarmless(cfg, SlotsAfterTurn(cfg, slots, next.request), maxStr, stream[next.used..],
                                   NotifierAfter(cfg, notifier, next.request), rest);
        ReadHarmless(cfg, slots, maxStr, stream, notifier, next.request, next.used, rest);
      } else {
        SpuriousFlush(cfg, slots, 0);
        assert stream[0..] == stream;
        BoundaryWakeUpsAreHarmless(cfg, slots, maxStr, stream, false, rest);
        DropHarmless(cfg, slots, maxStr, stream, notifier, rest);
      }
    }
  }

  lemma ReadHarmless(cfg: Config, slots: seq<Slot>, maxStr: nat, stream: seq<byte>, notifier: bool,
                     request: Incoming, used: nat, rest: seq<Poll>)
    requires |slots| == |cfg.keys| && NextRequest(maxStr, stream) == Got(request, used)
    requires Fits(Response(cfg, slots, request))
    requires IsSchedule(cfg, SlotsAfterTurn(cfg, slots, request), maxStr, stream[used..], NotifierAfter(cfg, notifier, request), rest)
    requires Harmless(cfg, SlotsAfterTurn(cfg, slots, request), maxStr, stream[used..], NotifierAfter(cfg, notifier, request), rest)
    ensures IsSchedule(cfg, slots, maxStr, stream, notifier, [Read] + rest)
    ensures Harmless(cfg, slots, maxStr, stream, notifier, [Read] + rest)
  {
    ReadStep(cfg, slots, maxStr, stream, notifier, request, used, rest);
    ReadAllStep(maxStr, stream, request, used);
    ReadsStep(Read, rest);
    OneMoreRead(cfg, slots, request, ReadAll(maxStr, stream[used..]), Reads(rest));
  }

  lemma ReadAllStep(maxStr: nat, stream: seq<byte>, request: Incoming, used: nat)
    requires NextRequest(maxStr, stream) == Got(request, used)
    ensures ReadAll(maxStr, stream) == [request] + ReadAll(maxStr, stream[used..])
  {
  }

  lemma ReadsStep(poll: Poll, rest: seq<Poll>)
    ensures Reads([poll] + rest) == (if poll.Read? then 1 else 0) + Reads(rest)
  {
    assert ([poll] + rest)[1..] == rest;
  }

  lemma DropHarmless(cfg: Config, slots: seq<Slot>, maxStr: nat, stream: seq<byte>, notifier: bool, rest: seq<Poll>)
    requires |slots| == |cfg.keys| && NothingDue(cfg, slots)
    requires IsSchedule(cfg, slots, maxStr, stream, notifier, [Dropped(0)] + rest)
    requires IsSchedule(cfg, slots, maxStr, stream, false, rest) && Harmless(cfg, slots, maxStr, stream, false, rest)
    ensures Harmless(cfg, slots, maxStr, stream, notifier, [Dropped(0)] + rest)
  {
    SpuriousFlush(cfg, slots, 0);
    assert stream[0..] == stream;
    assert ([Dropped(0)] + rest)[1..] == rest;
    ReadsStep(Dropped(0), rest);
    var sent := Sent(cfg, slots, maxStr, stream, false, rest);
    assert [] + sent.0 == sent.0;
  }

  lemma OneMoreRead(cfg: Config, slots: seq<Slot>, request: Incoming, later: seq<Incoming>, n: nat)
    requires |slots| == |cfg.keys| && Fits(Response(cfg, slots, request)) && n <= |later|
    ensures Talk(cfg, slots, ([request] + later)[..n + 1]) ==
      TurnSent(cfg, slots, request) + Talk(cfg, SlotsAfterTurn(cfg, slots, request), later[..n])
  {
    assert ([request] + later)[..n + 1] == [request] + later[..n];
    assert ([request] + later[..n])[1..] == later[..n];
  }

  // ---- Woken inside a frame ----

  // The last byte of a PING alone.
  function PingTail(): (tail: seq<byte>)
  {
    EncodeFrame(Asked(Request.Ping))[3..]
  }

  lemma PingBytes()
    ensures |EncodeFrame(Asked(Request.Ping))| == 4 && |PingTail()| == 1
    ensures IsRequest(Asked(Request.Ping))
    ensures forall maxStr: nat :: NextRequest(maxStr, EncodeFrame(Asked(Request.Ping))[..3]).Ended?
    ensures forall maxStr: nat :: NextRequest(maxStr, PingTail()).Ended?
  {
    var f := EncodeFrame(Asked(Request.Ping));
    assert f[1..3] == U16Be(0);
    assert f[..3][1..3] == f[1..3];
  }

  // An accepted WRITE of an observable key raises the notifier by itself. When
  // the first three bytes of a PING have arrived behind it, the reader can be
  // dropped with them; what is left of the PING is no frame, and it is never
  // answered.
  lemma WriteThenThreeBytes(cfg: Config, slots: seq<Slot>, maxStr: nat, write: Message)
    requires |slots| == |cfg.keys| && NothingDue(cfg, slots) && IsRequest(write)
    requires RaisesItself(cfg, ToIncoming(maxStr, write))
    ensures var stream, polls := EncodeFrame(write) + EncodeFrame(Asked(Request.Ping)), [Read] + [Dropped(3)];
      && IsSchedule(cfg, slots, maxStr, stream, false, polls)
      && Sent(cfg, slots, maxStr, stream, false, polls) == (TurnSent(cfg, slots, ToIncoming(maxStr, write)), PingTail())
      && ReadAll(maxStr, PingTail()) == []
      && ReadAll(maxStr, stream) == [ToIncoming(maxStr, write)] + [Incoming.Ping]
      && Talk(cfg, slots, ReadAll(maxStr, stream)) != TurnSent(cfg, slots, ToIncoming(maxStr, write))
  {
    var ping, request := EncodeFrame(Asked(Request.Ping)), ToIncoming(maxStr, write);
    var after := SlotsAfterTurn(cfg, slots, request);
    PingBytes();
    BothAreRead(maxStr, write);
    WriteIsAnswered(cfg, slots, maxStr, write, ping);
    TurnLeavesNothingDue(cfg, Handled(cfg, slots, request));
    DropStep(cfg, after, maxStr, ping);
    ReadStep(cfg, slots, maxStr, EncodeFrame(write) + ping, false, request, |EncodeFrame(write)|, [Dropped(3)]);
    assert TurnSent(cfg, slots, request) + [] == TurnSent(cfg, slots, request);
    TalkOfTwo(cfg, slots, request);
  }

  predicate RaisesItself(cfg: Config, request: Incoming)
  {
    HasObservable(cfg) && WriteTarget(cfg, request).Some? && NotifierAfter(cfg, false, request)
  }

  // That is every accepted WRITE of an observable key.
  lemma ObservableWritesRaise(cfg: Config, request: Incoming)
    requires WriteTarget(cfg, request).Some?
    ensures RaisesItself(cfg, request) <==> cfg.keys[WriteTarget(cfg, request).value.0].perm.observable
  {
  }

  lemma BothAreRead(maxStr: nat, write: Message)
    requires IsRequest(write)
    ensures var ping := EncodeFrame(Asked(Request.Ping));
      var stream := EncodeFrame(write) + ping;
      && NextRequest(maxStr, stream) == Got(ToIncoming(maxStr, write), |EncodeFrame(write)|)
      && stream[|EncodeFrame(write)|..] == ping
      && ReadAll(maxStr, stream) == [ToIncoming(maxStr, write)] + [Incoming.Ping]
  {
    var ping := EncodeFrame(Asked(Request.Ping));
    PingBytes();
    NextOfEncoded(maxStr, write, ping);
    NextOfEncoded(maxStr, Asked(Request.Ping), []);
    assert (EncodeFrame(write) + ping)[|EncodeFrame(write)|..] == ping && ping + [] == ping;
    assert ping[|ping|..] == [];
    assert ReadAll(maxStr, ping) == [Incoming.Ping] + [];
  }

  // A PING of which three bytes have arrived is dropped.
  lemma DropStep(cfg: Config, slots: seq<Slot>, maxStr: nat, ping: seq<byte>)
    requires |slots| == |cfg.keys| && NothingDue(cfg, slots) && HasObservable(cfg)
    requires |ping| >= 3 && NextRequest(maxStr, ping[..3]).Ended?
    ensures IsSchedule(cfg, slots, maxStr, ping, true, [Dropped(3)])
    ensures Sent(cfg, slots, maxStr, ping, true, [Dropped(3)]) == ([], ping[3..])
  {
    SpuriousFlush(cfg, slots, 0);
    assert [Dropped(3)][1..] == [];
    assert Sent(cfg, slots, maxStr, ping[3..], false, []) == ([], ping[3..]);
    var none: seq<Message> := [];
    assert none + [] == [];
  }

  lemma ReadStep(cfg: Config, slots: seq<Slot>, maxStr: nat, stream: seq<byte>, notifier: bool, request: Incoming, used: nat,
                 polls: seq<Poll>)
    requires |slots| == |cfg.keys| && NextRequest(maxStr, stream) == Got(request, used)
    requires Fits(Response(cfg, slots, request))
    requires IsSchedule(cfg, SlotsAfterTurn(cfg, slots, request), maxStr, stream[used..], NotifierAfter(cfg, notifier, request), polls)
    ensures IsSchedule(cfg, slots, maxStr, stream, notifier, [Read] + polls)
    ensures var rest := Sent(cfg, SlotsAfterTurn(cfg, slots, request), maxStr, stream[used..],
                             NotifierAfter(cfg, notifier, request), polls);
      Sent(cfg, slots, maxStr, stream, notifier, [Read] + polls) == (TurnSent(cfg, slots, request) + rest.0, rest.1)
  {
    assert ([Read] + polls)[1..] == polls;
  }

  lemma WriteIsAnswered(cfg: Config, slots: seq<Slot>, maxStr: nat, write: Message, more: seq<byte>)
    requires |slots| == |cfg.keys| && IsRequest(write) && WriteTarget(cfg, ToIncoming(maxStr, write)).Some?
    ensures Fits(Response(cfg, slots, ToIncoming(maxStr, write)))
  {
    NextOfEncoded(maxStr, write, more);
    ReadRequestsAreFramed(maxStr, EncodeFrame(write) + more);
    NodeReplies.WriteTargetIsTableWrite(cfg, slots, ToIncoming(maxStr, write));
    NodeInvariant.FramedWriteFits(cfg, ToIncoming(maxStr, write));
  }

  lemma TalkOfTwo(cfg: Config, slots: seq<Slot>, request: Incoming)
    requires |slots| == |cfg.keys| && Fits(Response(cfg, slots, request))
    ensures Talk(cfg, slots, [request] + [Incoming.Ping]) != TurnSent(cfg, slots, request)
  {
    var after := SlotsAfterTurn(cfg, slots, request);
    assert ([request] + [Incoming.Ping])[1..] == [Incoming.Ping];
    assert |Talk(cfg, after, [Incoming.Ping])| > 0;
  }

  // One boolean key that may be read, written and observed.
  const ONE_KEY := Config([], [KeyConfig(0, [], Perm(true, true, true), BoolType)])
  const ONE_SLOT := [Slot(Bool(false), 0, 0, true, 0, 0)]
  const WRITE_TRUE := Asked(Request.Write(0, Bool(true)))

  // The run exists: the node answers the WRITE and never the PING.
  lemma APingIsLost(maxStr: nat)
    ensures var stream, polls := EncodeFrame(WRITE_TRUE) + EncodeFrame(Asked(Request.Ping)), [Read] + [Dropped(3)];
      && IsSchedule(ONE_KEY, ONE_SLOT, maxStr, stream, false, polls)
      && Sent(ONE_KEY, ONE_SLOT, maxStr, stream, false, polls).0 != Talk(ONE_KEY, ONE_SLOT, ReadAll(maxStr, stream))
      && ReadAll(maxStr, Sent(ONE_KEY, ONE_SLOT, maxStr, stream, false, polls).1) == []
  {
    assert ONE_KEY.keys[..0] == [];
    assert KeyCount(ONE_KEY.keys) == 1;
    assert FindSlot(ONE_KEY.keys, 0) == Some(0);
    assert ONE_KEY.keys[0].perm.observable;
    ObservableWritesRaise(ONE_KEY, ToIncoming(maxStr, WRITE_TRUE));
    WriteThenThreeBytes(ONE_KEY, ONE_SLOT, maxStr, WRITE_TRUE);
  }
}
