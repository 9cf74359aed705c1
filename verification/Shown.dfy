// What the mirror shows of every readable key, observable or not: the value of
// the last answer for the key, and so the stored one unless the key was set
// locally since.
module Shown {
  import opened Bytes
  import opened Messages
  import opened Requests
  import opened Values
  import opened Node
  import opened NodeInvariant
  import opened NodeHistory
  import opened NodeReplies
  import opened NodeValues
  import opened Worker
  import opened Mirror

  function Lookup(mirror: map<u16, Value>, k: u16): (v: Option<Value>)
  {
    if k in mirror then Some(mirror[k]) else None
  }

  // The keyref and the value that a move brings in answer to a GET or a WRITE.
  function Brings(s: System, move: Move): (r: Option<(u16, Value)>)
    requires move.Deliver? ==> RowFits(s.client.pc) && s.node.outbox != []
  {
    if !move.Deliver? then None
    else
      match (Outstanding(s.client.pc), s.node.outbox[0])
      case (Some(Get(k)), Ordinarily(Current(v))) => Some((k, v))
      case (Some(Write(k, _)), Ordinarily(Written(v))) => Some((k, v))
      case _ => None
  }

  // ---- What one move does to the mirror ----

  // The worker drops a key it was told of but cannot read.
  predicate DropsRow(cfg: Config, s: System, move: Move, k: u16)
  {
    && move == ClientMove(Continue) && s.client.pc.Draining?
    && s.client.pending != [] && s.client.pending[|s.client.pending| - 1] == k
    && k < KeyCount(cfg.keys) && !PermOf(cfg, k).readable
  }

  // The mirror shows a value from the moment it arrives, and changes by nothing
  // else, except that keys which cannot be read are taken out.
  lemma MirrorMoves(cfg: Config, s: System, move: Move, k: u16)
    requires |s.node.slots| == |cfg.keys| && MayMove(cfg, s, move)
    ensures var shown, brought := Lookup(Moved(cfg, s, move).client.mirror, k), Brings(s, move);
      shown == if brought.Some? && brought.value.0 == k then Some(brought.value.1)
               else if DropsRow(cfg, s, move, k) then None
               else Lookup(s.client.mirror, k)
  {
  }

  // The keyrefs collected while a WRITE was awaited are thrown away with its
  // ERROR, and nothing else is; a value that arrives for one settles it.
  lemma DroppedMoves(cfg: Config, s: System, move: Move, k: u16)
    requires |s.node.slots| == |cfg.keys| && MayMove(cfg, s, move)
    ensures var brought := Brings(s, move);
      k in Moved(cfg, s, move).client.dropped <==>
        || (k in s.client.dropped && !(brought.Some? && brought.value.0 == k))
        || (move.Deliver? && s.client.pc.AwaitWritten? && s.node.outbox[0].Failed? && k in s.client.changed)
  {
  }

  // ---- Until the next answer ----

  // The value brought last for key k in a play.
  ghost function LastBrought(cfg: Config, s: System, moves: seq<Move>, k: u16): (v: Option<Value>)
    requires |s.node.slots| == |cfg.keys| && IsPlay(cfg, s, moves)
    decreases |moves|
  {
    if moves == [] then None
    else
      var later, brought := LastBrought(cfg, Moved(cfg, s, moves[0]), moves[1..], k), Brings(s, moves[0]);
      if later.Some? then later
      else if brought.Some? && brought.value.0 == k then Some(brought.value.1)
      else None
  }

  // Over every play the mirror of a readable key is the value brought last.
  lemma {:induction false} ShownUntilTheNext(cfg: Config, s: System, moves: seq<Move>, k: u16)
    requires |s.node.slots| == |cfg.keys| && IsPlay(cfg, s, moves) && PermOf(cfg, k).readable
    ensures Lookup(Played(cfg, s, moves).client.mirror, k) ==
      if LastBrought(cfg, s, moves, k).Some? then LastBrought(cfg, s, moves, k) else Lookup(s.client.mirror, k)
    decreases |moves|
  {
    if moves != [] {
      MirrorMoves(cfg, s, moves[0], k);
      ShownUntilTheNext(cfg, Moved(cfg, s, moves[0]), moves[1..], k);
    }
  }

  // ---- Against the history of the node ----

  function Newest(first: Option<Value>, second: Option<Value>): (v: Option<Value>)
  {
    if first.Some? then first else second
  }

  // The mirror is the last answer in the history, or will be when the answer
  // that is on the wire arrives. `shown` is what it was when `log` began.
  predicate ShowsAnswer(s: System, log: seq<Event>, shown: Option<Value>, k: u16)
    requires RowFits(s.client.pc)
  {
    var answer := Newest(LastAnswer(log, k), shown);
    && (OnlyChanged(Wire(s.node)) ==> answer == Lookup(s.client.mirror, k))
    && forall p {:trigger Wire(s.node)[p]} :: 0 <= p < |Wire(s.node)| && !Wire(s.node)[p].Changed? ==>
         answer == if WillShow(s.client, k, Wire(s.node)[p]) then Some(ShownBy(Wire(s.node)[p])) else Lookup(s.client.mirror, k)
  }

  lemma ShowsAnswerNode(cfg: Config, s: System, step: Node.Step, log: seq<Event>, shown: Option<Value>, k: u16)
    requires UniqueKeyrefs(cfg) && Linked(cfg, s) && MayMove(cfg, s, NodeMove(step))
    requires ShowsAnswer(s, log, shown, k)
    ensures ShowsAnswer(Moved(cfg, s, NodeMove(step)), LogAfter(cfg, s.node, step, log), shown, k)
  {
    var n, r := s.node, Apply(cfg, s.node, step);
    var e := Recorded(cfg, n, step);
    WireOf(cfg, n, step);
    if e.Some? {
      HistoriesGrow(log, e.value, Bool(false), 0, k);
    }
    if e.Some? && e.value.Reply? {
      AnswerIsShown(cfg, s, step, k);
      assert Wire(r) == Wire(n) + [e.value.frame];
      assert Wire(r)[|Wire(n)|] == e.value.frame;
    } else {
      assert Added(cfg, n, step) == [] || Added(cfg, n, step)[0].Changed?;
      assert OnlyChanged(Wire(r)) ==> OnlyChanged(Wire(n)) by {
        assert forall p :: 0 <= p < |Wire(n)| ==> Wire(r)[p] == Wire(n)[p];
      }
    }
  }

  // An answer is the awaited one; the wire holds no other.
  lemma AnswerIsShown(cfg: Config, s: System, step: Node.Step, k: u16)
    requires UniqueKeyrefs(cfg) && Linked(cfg, s) && MayMove(cfg, s, NodeMove(step))
    requires Recorded(cfg, s.node, step).Some? && Recorded(cfg, s.node, step).value.Reply?
    ensures var e := Recorded(cfg, s.node, step).value;
      && OnlyChanged(Wire(s.node)) && !e.frame.Changed?
      && (WillShow(s.client, k, e.frame) <==> AnswerIn(k, e).Some?)
      && (AnswerIn(k, e).Some? ==> ShownBy(e.frame) == AnswerIn(k, e).value)
  {
    HandledIsOutstanding(cfg, s);
    if step.Handle? {
      AnswerExpected(cfg, s.node, s.client.pc);
      RepliesAreDefined(cfg, s.node.slots, s.node.phase.request);
    }
  }

  lemma ShowsAnswerClient(cfg: Config, s: System, choice: Choice, log: seq<Event>, shown: Option<Value>, k: u16)
    requires Linked(cfg, s) && MayMove(cfg, s, ClientMove(choice)) && !Unencodable(ClientMove(choice))
    requires PermOf(cfg, k).readable && ShowsAnswer(s, log, shown, k)
    ensures RowFits(Moved(cfg, s, ClientMove(choice)).client.pc)
    ensures ShowsAnswer(Moved(cfg, s, ClientMove(choice)), log, shown, k)
  {
    MirrorMoves(cfg, s, ClientMove(choice), k);
    ActFits(cfg, s.client, choice);
    assert OnlyChanged(Wire(s.node));
  }

  lemma ShowsAnswerDeliver(cfg: Config, s: System, log: seq<Event>, shown: Option<Value>, k: u16)
    requires UniqueKeyrefs(cfg) && Linked(cfg, s) && MayMove(cfg, s, Deliver)
    requires PermOf(cfg, k).readable && ShowsAnswer(s, log, shown, k)
    ensures RowFits(Moved(cfg, s, Deliver).client.pc)
    ensures ShowsAnswer(Moved(cfg, s, Deliver), log, shown, k)
  {
    var n, r := s.node, Moved(cfg, s, Deliver);
    MirrorMoves(cfg, s, Deliver, k);
    WirePops(cfg, n);
    FirstFrame(cfg, s);
    DeliverLocated(cfg, s);
    if !n.outbox[0].Changed? {
      AlonePops(Wire(n), 0);
      assert WillShow(s.client, k, Wire(n)[0]) <==> Brings(s, Deliver).Some? && Brings(s, Deliver).value.0 == k;
    } else {
      assert OnlyChanged(Wire(r.node)) ==> OnlyChanged(Wire(n));
      forall p {:trigger Wire(r.node)[p]} | 0 <= p < |Wire(r.node)| && !Wire(r.node)[p].Changed?
        ensures !Wire(n)[p + 1].Changed? && Wire(n)[p + 1] == Wire(r.node)[p] && s.client.pc == r.client.pc
      {
      }
    }
  }

  // ---- Every readable key has a row ----

  // Rows the first pass has read.
  function ReadRows(cfg: Config, pc: Pc): (n: nat)
  {
    match pc
    case Observing(row) => row
    case AwaitObserve(row) => row
    case Reading(row) => row
    case AwaitRead(row) => row
    case _ => KeyCount(cfg.keys)
  }

  predicate RowsShown(cfg: Config, c: Client)
  {
    forall k: u16 :: k < ReadRows(cfg, c.pc) && PermOf(cfg, k).readable ==> k in c.mirror
  }

  lemma RowsShownStep(cfg: Config, s: System, move: Move)
    requires UniqueKeyrefs(cfg) && Linked(cfg, s) && MayMove(cfg, s, move) && !Unencodable(move)
    requires RowsShown(cfg, s.client)
    ensures RowsShown(cfg, Moved(cfg, s, move).client)
  {
    var c := Moved(cfg, s, move).client;
    if move.Deliver? {
      FirstFrame(cfg, s);
    }
    forall k: u16 | k < ReadRows(cfg, c.pc) && PermOf(cfg, k).readable
      ensures k in c.mirror
    {
      MirrorMoves(cfg, s, move, k);
    }
  }

  // ---- Whole plays ----

  function LogOf(cfg: Config, s: System, move: Move, log: seq<Event>): (r: seq<Event>)
    requires |s.node.slots| == |cfg.keys| && MayMove(cfg, s, move)
  {
    if move.NodeMove? then LogAfter(cfg, s.node, move.step, log) else log
  }

  // What is known of slot i and its mirror, given the events since it held
  // `before` and was shown as `shown`.
  ghost predicate Known(cfg: Config, s: System, log: seq<Event>, before: Value, shown: Option<Value>, i: nat)
    requires i < |s.node.slots| == |cfg.keys|
  {
    var k := cfg.keys[i].keyref;
    && Healthy(cfg, s)
    && Remembered(s.node, log, before, i, k)
    && (!s.client.pc.Down? ==> RowsShown(cfg, s.client) && ShowsAnswer(s, log, shown, k))
  }

  lemma KnownMove(cfg: Config, s: System, move: Move, log: seq<Event>, before: Value, shown: Option<Value>, i: nat)
    requires UniqueKeyrefs(cfg) && |s.node.slots| == |cfg.keys| && i < |cfg.keys| && MayMove(cfg, s, move)
    requires PermOf(cfg, cfg.keys[i].keyref).readable && Known(cfg, s, log, before, shown, i)
    ensures Known(cfg, Moved(cfg, s, move), LogOf(cfg, s, move, log), before, shown, i)
  {
    var k := cfg.keys[i].keyref;
    MoveHealthy(cfg, s, move);
    if move.NodeMove? {
      RememberedStep(cfg, s.node, move.step, log, before, i);
    }
    if !s.client.pc.Down? && !Unencodable(move) {
      RowsShownStep(cfg, s, move);
      match move
      case NodeMove(step) => ShowsAnswerNode(cfg, s, step, log, shown, k);
      case ClientMove(choice) => ShowsAnswerClient(cfg, s, choice, log, shown, k);
      case Deliver => ShowsAnswerDeliver(cfg, s, log, shown, k);
    }
  }

  lemma {:induction false} KnownOverPlays(cfg: Config, s: System, moves: seq<Move>, front: seq<Event>, log: seq<Event>,
                                          before: Value, shown: Option<Value>, i: nat)
      returns (more: seq<Event>)
    requires UniqueKeyrefs(cfg) && |s.node.slots| == |cfg.keys| && i < |cfg.keys| && IsPlay(cfg, s, moves)
    requires PermOf(cfg, cfg.keys[i].keyref).readable && Known(cfg, s, log, before, shown, i)
    requires s.node.log == front + log
    ensures Known(cfg, Played(cfg, s, moves), more, before, shown, i)
    ensures Played(cfg, s, moves).node.log == front + more
    decreases |moves|
  {
    if moves == [] {
      more := log;
    } else {
      var next, after := Moved(cfg, s, moves[0]), LogOf(cfg, s, moves[0], log);
      KnownMove(cfg, s, moves[0], log, before, shown, i);
      LogFollows(cfg, s, moves[0], front, log);
      more := KnownOverPlays(cfg, next, moves[1..], front, after, before, shown, i);
    }
  }

  lemma LogFollows(cfg: Config, s: System, move: Move, front: seq<Event>, log: seq<Event>)
    requires |s.node.slots| == |cfg.keys| && MayMove(cfg, s, move) && s.node.log == front + log
    ensures Moved(cfg, s, move).node.log == front + LogOf(cfg, s, move, log)
  {
    if move.NodeMove? {
      RecordedIsAppended(cfg, s.node, move.step);
    }
  }

  // At idle every readable key has a value in the mirror, and it is that of the
  // last answer for the key, whether the key can be observed or not. The stored
  // value is the one stored last; the two agree unless the key was set locally
  // since the answer, or, for a WRITE, since its value was stored.
  lemma IdleShowsTheLastAnswer(cfg: Config, s0: System, moves: seq<Move>, i: nat)
    requires UniqueKeyrefs(cfg) && Begun(cfg, s0) && IsPlay(cfg, s0, moves)
    requires AllIdle(Played(cfg, s0, moves)) && i < |cfg.keys|
    requires cfg.keys[i].perm.readable && cfg.keys[i].keyref != 0xFFFF
    ensures var s, k := Played(cfg, s0, moves), cfg.keys[i].keyref;
      && s0.node.log <= s.node.log
      && var log := s.node.log[|s0.node.log|..];
         && k in s.client.mirror && LastAnswer(log, k) == Some(s.client.mirror[k])
         && s.node.slots[i].value == Held(s0.node.slots[i].value, log, i)
         && (LastKnown(log, i, k).Some? ==> s.client.mirror[k] == s.node.slots[i].value == LastKnown(log, i, k).value)
  {
    var front := s0.node.log;
    assert front == front + [];
    PermOfSlot(cfg, i);
    BegunHealthy(cfg, s0);
    var more := KnownOverPlays(cfg, s0, moves, front, [], s0.node.slots[i].value, None, i);
    var s := Played(cfg, s0, moves);
    assert s.node.log[|front|..] == more;
    assert Wire(s.node) == [];
  }

  // ---- When the worker gives up ----

  // The one reply each request is waiting for, and the two for a WRITE.
  predicate Awaited(request: Incoming, m: Message)
  {
    match request
    case Observe(_) => m == Ordinarily(Okay)
    case Ping => m == Ordinarily(Okay)
    case Get(_) => m.Ordinarily? && m.response.Current?
    case Write(_, _) => m.Failed? || (m.Ordinarily? && m.response.Written?)
    case _ => false
  }

  // Any message that is neither CHANGED nor the reply to the request that is
  // outstanding ends the connection, and no other does.
  lemma GivesUpOnAnythingElse(c: Client, m: Message)
    requires Receiving(c)
    ensures OnMessage(c, m).pc.Down? <==>
      !m.Changed? && !(Outstanding(c.pc).Some? && Awaited(Outstanding(c.pc).value, m))
    ensures m.Changed? && Outstanding(c.pc).Some? ==> OnMessage(c, m).pc == c.pc
  {
  }
}
