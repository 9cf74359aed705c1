// The worker and the node joined by bytes. The worker takes one frame at a time
// off the bytes that have arrived; a poll that times out drops the bytes of the
// frame it was in the middle of.
module MirrorBytes {
  import opened Bytes
  import opened Messages
  import opened Frames
  import opened Requests
  import opened Values
  import opened Node
  import opened NodeInvariant
  import opened NodeHistory
  import opened NodeReplies
  import opened NodeFraming
  import opened Polls
  import opened WireForm
  import opened Worker
  import opened Mirror
  import opened MirrorLimits
  import ServerLoop

  // `pipe` holds the bytes written and not yet taken.
  datatype Line = Line(system: System, pipe: seq<byte>)

  datatype ByteMove =
    | Other(move: Move)
    | Transmit
    | Take
    | PollEnds(taken: nat)

  // A poll can only end while the frame it is in is incomplete.
  predicate MayByte(cfg: Config, l: Line, b: ByteMove)
    requires |l.system.node.slots| == |cfg.keys|
  {
    match b
    case Other(move) => !move.Deliver? && move != ClientMove(TimeOut) && MayMove(cfg, l.system, move)
    case Transmit => l.system.node.outbox != []
    case Take => Receiving(l.system.client) && !NextMessage(l.pipe).Waits?
    case PollEnds(taken) =>
      l.system.client.pc.Listening? && taken <= |l.pipe| && NextMessage(l.pipe[..taken]).Waits?
  }

  function ByteMoved(cfg: Config, l: Line, b: ByteMove): (r: Line)
    requires |l.system.node.slots| == |cfg.keys| && MayByte(cfg, l, b)
    ensures |r.system.node.slots| == |cfg.keys|
  {
    var s := l.system;
    match b
    case Other(move) => l.(system := Moved(cfg, s, move))
    case Transmit =>
      Line(s.(node := Apply(cfg, s.node, Receive)), l.pipe + EncodeFrame(s.node.outbox[0]))
    case Take =>
      (match NextMessage(l.pipe)
       case Arrived(m, used) => Line(s.(client := OnMessage(s.client, m)), l.pipe[used..])
       case Broken(used) => Line(s.(client := s.client.(pc := Down)), l.pipe[used..])
       case Waits => l)
    case PollEnds(taken) => Line(s.(client := Act(cfg, s.client, TimeOut)), l.pipe[taken..])
  }

  // Bytes that are no frame of a node end the connection.
  lemma BadBytesEndTheConnection(cfg: Config, l: Line)
    requires |l.system.node.slots| == |cfg.keys| && MayByte(cfg, l, Take)
    requires |l.pipe| >= 3 && |l.pipe| >= 4 + Word(l.pipe[1], l.pipe[2])
    ensures var frame := l.pipe[..4 + Word(l.pipe[1], l.pipe[2])];
      (forall m: Message :: FrameAs(frame, m) ==> m.Asked? || m.CapsAsked?) ==>
        ByteMoved(cfg, l, Take).system.client.pc == Down
  {
    var next := NextMessage(l.pipe);
    NextMessageInBytes(l.pipe, CapsAsked, 4);
    if next.Arrived? {
      NextMessageInBytes(l.pipe, next.message, next.used);
    }
  }

  ghost predicate IsBytePlay(cfg: Config, l: Line, moves: seq<ByteMove>)
    requires |l.system.node.slots| == |cfg.keys|
    decreases |moves|
  {
    moves != [] ==> MayByte(cfg, l, moves[0]) && IsBytePlay(cfg, ByteMoved(cfg, l, moves[0]), moves[1..])
  }

  ghost function BytePlayed(cfg: Config, l: Line, moves: seq<ByteMove>): (r: Line)
    requires |l.system.node.slots| == |cfg.keys| && IsBytePlay(cfg, l, moves)
    ensures |r.system.node.slots| == |cfg.keys|
    decreases |moves|
  {
    if moves == [] then l else BytePlayed(cfg, ByteMoved(cfg, l, moves[0]), moves[1..])
  }

  // ---- The line as a system of whole messages ----

  // The frames in the pipe are messages the node has yet to deliver.
  function Prepended(n: State, ms: seq<Message>): (r: State)
  {
    n.(outbox := ms + n.outbox)
  }

  function Whole(l: Line): (s: System)
  {
    l.system.(node := Prepended(l.system.node, ReadMessages(l.pipe)))
  }

  predicate Aligned(cfg: Config, l: Line)
  {
    && ConfigText(cfg) && Inv(cfg, l.system.node) && FramesOk(l.system.node)
    && AllNodeFrames(ReadMessages(l.pipe))
    && l.pipe == EncodeAll(ReadMessages(l.pipe))
  }

  lemma PrependedStep(cfg: Config, n: State, ms: seq<Message>, step: Node.Step)
    requires |n.slots| == |cfg.keys| && !step.Receive?
    ensures Enabled(cfg, Prepended(n, ms), step) <==> Enabled(cfg, n, step)
    ensures Enabled(cfg, n, step) ==> Apply(cfg, Prepended(n, ms), step) == Prepended(Apply(cfg, n, step), ms)
  {
    if step.Emit? && n.phase.Emitting? {
      Assoc(ms, n.outbox, [n.phase.frame]);
    }
  }

  // The message-level moves that a byte-level move amounts to.
  function Amounts(b: ByteMove): (moves: seq<Move>)
  {
    match b
    case Other(move) => [move]
    case Transmit => []
    case Take => [Deliver]
    case PollEnds(_) => [ClientMove(TimeOut)]
  }

  predicate AtBoundary(b: ByteMove)
  {
    b.PollEnds? ==> b.taken == 0
  }

  lemma OneMove(cfg: Config, s: System, move: Move)
    requires |s.node.slots| == |cfg.keys| && MayMove(cfg, s, move)
    ensures IsPlay(cfg, s, [move]) && Played(cfg, s, [move]) == Moved(cfg, s, move)
  {
    assert [move][1..] == [];
  }

  lemma OtherWhole(cfg: Config, l: Line, move: Move)
    requires Aligned(cfg, l) && MayByte(cfg, l, Other(move))
    ensures MayMove(cfg, Whole(l), move)
    ensures Moved(cfg, Whole(l), move) == Whole(ByteMoved(cfg, l, Other(move)))
    ensures Aligned(cfg, ByteMoved(cfg, l, Other(move)))
  {
    var s, ms := l.system, ReadMessages(l.pipe);
    match move {
      case NodeMove(step) =>
        PrependedStep(cfg, s.node, ms, step);
        InvStep(cfg, s.node, step);
        FramesOkStep(cfg, s.node, step);
      case ClientMove(choice) => ClientWhole(cfg, l, choice);
    }
  }

  lemma ClientWhole(cfg: Config, l: Line, choice: Choice)
    requires Aligned(cfg, l) && MayByte(cfg, l, Other(ClientMove(choice)))
    ensures Moved(cfg, Whole(l), ClientMove(choice)) == Whole(ByteMoved(cfg, l, Other(ClientMove(choice))))
    ensures Aligned(cfg, ByteMoved(cfg, l, Other(ClientMove(choice))))
  {
    var s, ms := l.system, ReadMessages(l.pipe);
    var asked := Asks(s.client, Act(cfg, s.client, choice));
    if asked.Some? {
      var send := Send(asked.value);
      PrependedStep(cfg, s.node, ms, send);
      InvStep(cfg, s.node, send);
      FramesOkStep(cfg, s.node, send);
    }
  }

  lemma TransmitWhole(cfg: Config, l: Line)
    requires Aligned(cfg, l) && MayByte(cfg, l, Transmit)
    ensures Whole(ByteMoved(cfg, l, Transmit)) == Whole(l) && Aligned(cfg, ByteMoved(cfg, l, Transmit))
  {
    var n, ms, r := l.system.node, ReadMessages(l.pipe), ByteMoved(cfg, l, Transmit);
    var m := n.outbox[0];
    InvStep(cfg, n, Receive);
    FramesOkStep(cfg, n, Receive);
    assert NodeFrame(m);
    AppendFrame(ms, m);
    assert n.outbox == [m] + n.outbox[1..];
    Assoc(ms, [m], n.outbox[1..]);
  }

  lemma AppendFrame(ms: seq<Message>, m: Message)
    requires AllNodeFrames(ms) && NodeFrame(m)
    ensures EncodeAll(ms) + EncodeFrame(m) == EncodeAll(ms + [m])
    ensures ReadMessages(EncodeAll(ms) + EncodeFrame(m)) == ms + [m] && AllNodeFrames(ms + [m])
  {
    ServerLoop.EncodeOneMore(ms, m);
    FramesAreReadBack(ms + [m]);
  }

  lemma TakeWhole(cfg: Config, l: Line)
    requires Aligned(cfg, l) && MayByte(cfg, l, Take)
    ensures MayMove(cfg, Whole(l), Deliver)
    ensures Moved(cfg, Whole(l), Deliver) == Whole(ByteMoved(cfg, l, Take))
    ensures Aligned(cfg, ByteMoved(cfg, l, Take))
  {
    var ms := ReadMessages(l.pipe);
    PipeFront(l.pipe, ms);
    DeliverPrepended(cfg, l.system, ms);
    TakeIs(cfg, l, ms[0], NextMessage(l.pipe).used);
  }

  lemma DeliverPrepended(cfg: Config, s: System, ms: seq<Message>)
    requires |s.node.slots| == |cfg.keys| && ms != [] && Receiving(s.client)
    ensures var w := s.(node := Prepended(s.node, ms));
      && MayMove(cfg, w, Deliver)
      && Moved(cfg, w, Deliver) == System(Prepended(s.node, ms[1..]), OnMessage(s.client, ms[0]))
  {
    assert (ms + s.node.outbox)[0] == ms[0] && (ms + s.node.outbox)[1..] == ms[1..] + s.node.outbox;
  }

  lemma TakeIs(cfg: Config, l: Line, m: Message, used: nat)
    requires |l.system.node.slots| == |cfg.keys| && Receiving(l.system.client) && NextMessage(l.pipe) == Arrived(m, used)
    ensures ByteMoved(cfg, l, Take) == Line(l.system.(client := OnMessage(l.system.client, m)), l.pipe[used..])
  {
  }

  // The first frame of a pipe that holds whole frames.
  lemma PipeFront(pipe: seq<byte>, ms: seq<Message>)
    requires AllNodeFrames(ms) && pipe == EncodeAll(ms) && !NextMessage(pipe).Waits?
    ensures ms != [] && NextMessage(pipe) == Arrived(ms[0], NextMessage(pipe).used)
    ensures var rest := pipe[NextMessage(pipe).used..];
      rest == EncodeAll(ms[1..]) && ReadMessages(rest) == ms[1..] && AllNodeFrames(ms[1..])
  {
    assert ms != [];
    var m, rest := ms[0], ms[1..];
    assert NodeFrame(m);
    NextOfFrame(m, EncodeAll(rest));
    assert (EncodeFrame(m) + EncodeAll(rest))[|EncodeFrame(m)|..] == EncodeAll(rest);
    assert forall j :: 0 <= j < |rest| ==> rest[j] == ms[j + 1];
    FramesAreReadBack(rest);
  }

  lemma EndWhole(cfg: Config, l: Line)
    requires Aligned(cfg, l) && MayByte(cfg, l, PollEnds(0))
    ensures MayMove(cfg, Whole(l), ClientMove(TimeOut))
    ensures Moved(cfg, Whole(l), ClientMove(TimeOut)) == Whole(ByteMoved(cfg, l, PollEnds(0)))
    ensures Aligned(cfg, ByteMoved(cfg, l, PollEnds(0)))
  {
    assert l.pipe[0..] == l.pipe;
  }

  lemma ByteStep(cfg: Config, l: Line, b: ByteMove)
    requires Aligned(cfg, l) && MayByte(cfg, l, b) && AtBoundary(b)
    ensures Aligned(cfg, ByteMoved(cfg, l, b))
    ensures IsPlay(cfg, Whole(l), Amounts(b)) && Played(cfg, Whole(l), Amounts(b)) == Whole(ByteMoved(cfg, l, b))
  {
    match b {
      case Other(move) =>
        OtherWhole(cfg, l, move);
        OneMove(cfg, Whole(l), move);
      case Transmit => TransmitWhole(cfg, l);
      case Take =>
        TakeWhole(cfg, l);
        OneMove(cfg, Whole(l), Deliver);
      case PollEnds(taken) =>
        EndWhole(cfg, l);
        OneMove(cfg, Whole(l), ClientMove(TimeOut));
    }
  }

  function AmountAll(moves: seq<ByteMove>): (r: seq<Move>)
  {
    if moves == [] then [] else Amounts(moves[0]) + AmountAll(moves[1..])
  }

  // When every timed-out poll ends between two frames, the bytes change nothing:
  // a byte-level play is a play of whole messages.
  lemma {:induction false} BytePlaysArePlays(cfg: Config, l: Line, moves: seq<ByteMove>)
    requires Aligned(cfg, l) && IsBytePlay(cfg, l, moves) && forall j :: 0 <= j < |moves| ==> AtBoundary(moves[j])
    ensures IsPlay(cfg, Whole(l), AmountAll(moves))
    ensures Played(cfg, Whole(l), AmountAll(moves)) == Whole(BytePlayed(cfg, l, moves))
    ensures Aligned(cfg, BytePlayed(cfg, l, moves))
    decreases |moves|
  {
    if moves != [] {
      var r, rest := ByteMoved(cfg, l, moves[0]), moves[1..];
      ByteStep(cfg, l, moves[0]);
      assert forall j :: 0 <= j < |rest| ==> rest[j] == moves[j + 1];
      BytePlaysArePlays(cfg, r, rest);
      Join(cfg, Whole(l), Amounts(moves[0]), AmountAll(rest));
    }
  }

  // ---- Convergence over bytes ----

  // What the worker and the node start from: texts are UTF-8, keys are listed.
  ghost predicate LineBegun(cfg: Config, l: Line)
  {
    Begun(cfg, l.system) && ConfigText(cfg) && FramesOk(l.system.node) && l.pipe == []
  }

  // Over bytes, with polls that time out between frames only: whenever
  // everything is idle and no byte is left, the mirrored value of a readable and
  // observable key is the node's, with the same two exceptions.
  lemma BytesConverge(cfg: Config, l0: Line, moves: seq<ByteMove>, i: nat)
    requires UniqueKeyrefs(cfg) && LineBegun(cfg, l0) && IsBytePlay(cfg, l0, moves)
    requires forall j :: 0 <= j < |moves| ==> AtBoundary(moves[j])
    requires var l := BytePlayed(cfg, l0, moves); AllIdle(l.system) && l.pipe == [] && i < |cfg.keys|
    requires cfg.keys[i].perm.readable && cfg.keys[i].perm.observable && cfg.keys[i].keyref != 0xFFFF
    ensures var s, k := BytePlayed(cfg, l0, moves).system, cfg.keys[i].keyref;
      || (k in s.client.mirror && s.client.mirror[k] == s.node.slots[i].value)
      || k in s.client.dropped
      || Wrapped(s.node.slots[i])
  {
    var l := BytePlayed(cfg, l0, moves);
    EmptyPipe(l0);
    EmptyPipe(l);
    BytePlaysArePlays(cfg, l0, moves);
    MirrorConverges(cfg, l0.system, AmountAll(moves), i);
  }

  lemma EmptyPipe(l: Line)
    requires l.pipe == []
    ensures Whole(l) == l.system && ReadMessages(l.pipe) == [] && EncodeAll([]) == []
  {
    assert [] + l.system.node.outbox == l.system.node.outbox;
  }

  // ---- The third way to end idle and wrong ----

  ghost predicate LeadsTo(cfg: Config, l: Line, r: Line)
  {
    |l.system.node.slots| == |cfg.keys| && exists moves :: IsBytePlay(cfg, l, moves) && BytePlayed(cfg, l, moves) == r
  }

  lemma StayHere(cfg: Config, l: Line)
    requires |l.system.node.slots| == |cfg.keys|
    ensures LeadsTo(cfg, l, l)
  {
    assert IsBytePlay(cfg, l, []) && BytePlayed(cfg, l, []) == l;
  }

  // One more move in front.
  lemma After1(cfg: Config, l: Line, b: ByteMove, r: Line)
    requires |l.system.node.slots| == |cfg.keys| && MayByte(cfg, l, b) && LeadsTo(cfg, ByteMoved(cfg, l, b), r)
    ensures LeadsTo(cfg, l, r)
  {
    var moves :| IsBytePlay(cfg, ByteMoved(cfg, l, b), moves) && BytePlayed(cfg, ByteMoved(cfg, l, b), moves) == r;
    assert ([b] + moves)[1..] == moves;
    assert IsBytePlay(cfg, l, [b] + moves) && BytePlayed(cfg, l, [b] + moves) == r;
  }

  // Every play of whole messages is one of bytes, with the pipe empty between
  // moves.
  lemma {:induction false} PlaysAreBytePlays(cfg: Config, s: System, moves: seq<Move>, r: Line)
    requires ConfigText(cfg) && Inv(cfg, s.node) && FramesOk(s.node) && IsPlay(cfg, s, moves)
    requires LeadsTo(cfg, Line(Played(cfg, s, moves), []), r)
    ensures LeadsTo(cfg, Line(s, []), r)
    decreases |moves|
  {
    if moves != [] {
      var next := Moved(cfg, s, moves[0]);
      MoveKeepsFrames(cfg, s, moves[0]);
      PlaysAreBytePlays(cfg, next, moves[1..], r);
      if moves[0].Deliver? {
        DeliverAsBytes(cfg, s, r);
      } else if moves[0] == ClientMove(TimeOut) {
        assert s.client.pc.Listening?;
        After1(cfg, Line(s, []), PollEnds(0), r);
      } else {
        After1(cfg, Line(s, []), Other(moves[0]), r);
      }
    }
  }

  lemma MoveKeepsFrames(cfg: Config, s: System, move: Move)
    requires ConfigText(cfg) && Inv(cfg, s.node) && FramesOk(s.node) && MayMove(cfg, s, move)
    ensures Inv(cfg, Moved(cfg, s, move).node) && FramesOk(Moved(cfg, s, move).node)
  {
    match move {
      case NodeMove(step) =>
        InvStep(cfg, s.node, step);
        FramesOkStep(cfg, s.node, step);
      case ClientMove(choice) =>
        var asked := Asks(s.client, Act(cfg, s.client, choice));
        if asked.Some? {
          InvStep(cfg, s.node, Send(asked.value));
          FramesOkStep(cfg, s.node, Send(asked.value));
        }
      case Deliver =>
        InvStep(cfg, s.node, Receive);
        FramesOkStep(cfg, s.node, Receive);
    }
  }

  lemma DeliverAsBytes(cfg: Config, s: System, r: Line)
    requires Inv(cfg, s.node) && FramesOk(s.node) && MayMove(cfg, s, Deliver)
    requires LeadsTo(cfg, Line(Moved(cfg, s, Deliver), []), r)
    ensures LeadsTo(cfg, Line(s, []), r)
  {
    var m := s.node.outbox[0];
    assert NodeFrame(m);
    NextOfFrame(m, []);
    assert [] + EncodeFrame(m) == EncodeFrame(m) == EncodeFrame(m) + [];
    assert EncodeFrame(m)[|EncodeFrame(m)|..] == [];
    var l := ByteMoved(cfg, Line(s, []), Transmit);
    After1(cfg, l, Take, r);
    After1(cfg, Line(s, []), Transmit, r);
  }

  // With no command and nothing pending the worker polls again.
  lemma PollsAgain(l: Line, r: Line)
    requires |l.system.node.slots| == 1 && l.system.client.pc == Commands && l.system.client.pending == []
    requires LeadsTo(ONE_KEY, l.(system := l.system.(client := l.system.client.(pc := Listening))), r)
    ensures LeadsTo(ONE_KEY, l, r)
  {
    var l1 := ByteMoved(ONE_KEY, l, Other(ClientMove(NoCommand)));
    assert ByteMoved(ONE_KEY, l1, Other(ClientMove(Continue))) ==
      l.(system := l.system.(client := l.system.client.(pc := Listening)));
    After1(ONE_KEY, l1, Other(ClientMove(Continue)), r);
    After1(ONE_KEY, l, Other(ClientMove(NoCommand)), r);
  }

  // A poll ends after three bytes of whatever is in the pipe.
  lemma EndsAfterThree(l: Line, r: Line)
    requires |l.system.node.slots| == 1 && l.system.client.pc == Listening && l.system.client.pending == []
    requires |l.pipe| >= 3 && NextMessage(l.pipe[..3]).Waits?
    requires LeadsTo(ONE_KEY, l.(pipe := l.pipe[3..]), r)
    ensures LeadsTo(ONE_KEY, l, r)
  {
    var l1 := ByteMoved(ONE_KEY, l, PollEnds(3));
    assert l1.(system := l1.system.(client := l1.system.client.(pc := Listening))) == l.(pipe := l.pipe[3..]);
    PollsAgain(l1, r);
    After1(ONE_KEY, l, PollEnds(3), r);
  }

  // The mirror can stay wrong: a poll times out after three of the six bytes of
  // CHANGED(0). The next one takes the other three for a header that declares
  // 221 bytes, and times out as well. Everything is idle, no byte is left, no
  // WRITE was rejected and no generation wrapped.
  lemma StaleAfterTornPoll()
    ensures exists s: System ::
      LeadsTo(ONE_KEY, Line(STARTED, []), Line(s, [])) && Stale(s) && s.client.dropped == {} && !Wrapped(s.node.slots[0])
  {
    var told := ReachesTold();
    var moves :| IsPlay(ONE_KEY, STARTED, moves) && Played(ONE_KEY, STARTED, moves) == told;
    var end := told.(node := told.node.(outbox := []));
    TornPoll(told, end);
    OneKeyFacts();
    EmptyNameIsText();
    PlaysAreBytePlays(ONE_KEY, STARTED, moves, Line(end, []));
  }

  // A listening worker that is about to be told of a change.
  lemma ReachesTold() returns (told: System)
    ensures Leads(ONE_KEY, STARTED, told) && |told.node.slots| == 1
    ensures told.node.outbox == [Changed(0)] && Stale(told.(node := told.node.(outbox := [])))
    ensures told.client.dropped == {} && !Wrapped(told.node.slots[0])
  {
    ReachesListening();
    var log :| Leads(ONE_KEY, STARTED, Listener(log));
    var more := SetsAndReports(Listener(log));
    told := Reported1(AfterSet(Listener(log), I64(1), more));
    Then(ONE_KEY, STARTED, Listener(log), told);
  }

  // Three bytes that declare a payload are no frame yet.
  lemma HeaderWaits(header: seq<byte>, hi: byte, lo: byte)
    requires |header| == 3 && header[1] == hi && header[2] == lo
    ensures NextMessage(header).Waits?
  {
    assert header[1..3] == [hi, lo];
  }

  lemma TornPoll(told: System, end: System)
    requires |told.node.slots| == 1 && told.node.outbox == [Changed(0)] && end == told.(node := told.node.(outbox := []))
    requires told.client.pc == Listening && told.client.pending == []
    ensures LeadsTo(ONE_KEY, Line(told, []), Line(end, []))
  {
    ChangedBytes();
    var frame: seq<byte> := [0x21, 0x00, 0x02, 0x00, 0x00, 0xDD];
    var tail: seq<byte> := [0x00, 0x00, 0xDD];
    assert frame[3..] == tail;
    assert [] + frame == frame;
    HeaderWaits(frame[..3], 0x00, 0x02);
    HeaderWaits(tail[..3], 0x00, 0xDD);
    assert tail[3..] == [];
    var l := Line(end, frame);
    assert ByteMoved(ONE_KEY, Line(told, []), Transmit) == l;
    StayHere(ONE_KEY, Line(end, []));
    EndsAfterThree(Line(end, tail), Line(end, []));
    EndsAfterThree(l, Line(end, []));
    After1(ONE_KEY, Line(told, []), Transmit, Line(end, []));
  }
}
