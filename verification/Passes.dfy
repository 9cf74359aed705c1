// The worker's passes over the key table: the first one observes and reads every
// key that allows it, a refresh reads every readable key again.
module Passes {
  import opened Bytes
  import opened Messages
  import opened Requests
  import opened Values
  import opened Node
  import opened NodeReplies
  import opened Worker
  import opened Mirror
  import opened Shown

  // The requests the worker sends in a play, in order.
  ghost function Asked(cfg: Config, s: System, moves: seq<Move>): (requests: seq<Incoming>)
    requires |s.node.slots| == |cfg.keys| && IsPlay(cfg, s, moves)
    decreases |moves|
  {
    if moves == [] then [] else AskedBy(cfg, s, moves[0]) + Asked(cfg, Moved(cfg, s, moves[0]), moves[1..])
  }

  function AskedBy(cfg: Config, s: System, move: Move): (requests: seq<Incoming>)
    requires |s.node.slots| == |cfg.keys| && MayMove(cfg, s, move)
  {
    var inbox := Moved(cfg, s, move).node.inbox;
    if move.ClientMove? && |inbox| > |s.node.inbox| then inbox[|s.node.inbox|..] else []
  }

  // Only the worker's own moves ask, and only what their choice says.
  lemma AskedByChoice(cfg: Config, s: System, move: Move)
    requires |s.node.slots| == |cfg.keys| && MayMove(cfg, s, move)
    ensures var r := Moved(cfg, s, move).client;
      AskedBy(cfg, s, move) == if move.ClientMove? && Asks(s.client, r).Some? then [Asks(s.client, r).value] else []
    ensures move.NodeMove? ==> Moved(cfg, s, move).client == s.client
  {
  }

  predicate InRefresh(pc: Pc)
  {
    pc.Refreshing? || pc.AwaitRefresh?
  }

  predicate InFirstPass(pc: Pc)
  {
    pc.Observing? || pc.AwaitObserve? || pc.Reading? || pc.AwaitRead?
  }

  // All the moves are made within the pass.
  ghost predicate Within(cfg: Config, s: System, moves: seq<Move>, pass: Pc -> bool)
    requires |s.node.slots| == |cfg.keys| && IsPlay(cfg, s, moves)
    decreases |moves|
  {
    moves != [] ==> pass(s.client.pc) && Within(cfg, Moved(cfg, s, moves[0]), moves[1..], pass)
  }

  // A GET for every readable key, by keyref.
  function GetsOfAll(cfg: Config, from: nat): (requests: seq<Incoming>)
    decreases KeyCount(cfg.keys) - from
  {
    if from >= KeyCount(cfg.keys) then []
    else (if PermOf(cfg, from).readable then [Incoming.Get(from)] else []) + GetsOfAll(cfg, from + 1)
  }

  // An OBSERVE for every observable key and a GET for every readable one, key by
  // key.
  function AsksOfAll(cfg: Config, from: nat): (requests: seq<Incoming>)
    decreases KeyCount(cfg.keys) - from
  {
    if from >= KeyCount(cfg.keys) then []
    else
      (if PermOf(cfg, from).observable then [Incoming.Observe(from)] else [])
      + ((if PermOf(cfg, from).readable then [Incoming.Get(from)] else []) + AsksOfAll(cfg, from + 1))
  }

  // ---- A refresh ----

  // What a refresh still has to ask for.
  function RefreshLeft(cfg: Config, pc: Pc): (requests: seq<Incoming>)
  {
    match pc
    case Refreshing(row) => GetsOfAll(cfg, row)
    case AwaitRefresh(row) => GetsOfAll(cfg, row + 1)
    case _ => []
  }

  // The rows a refresh has still to bring a value for.
  predicate StillToBring(pc: Pc, k: u16)
  {
    InRefresh(pc) && pc.row <= k
  }

  lemma RefreshMove(cfg: Config, s: System, move: Move, k: u16)
    requires |s.node.slots| == |cfg.keys| && MayMove(cfg, s, move) && InRefresh(s.client.pc)
    ensures var r := Moved(cfg, s, move).client.pc;
      && (r.Down? || RefreshLeft(cfg, s.client.pc) == AskedBy(cfg, s, move) + RefreshLeft(cfg, r))
      && (StillToBring(s.client.pc, k) && k < KeyCount(cfg.keys) && PermOf(cfg, k).readable && !r.Down? ==>
            StillToBring(r, k) || (Brings(s, move).Some? && Brings(s, move).value.0 == k))
  {
    AskedByChoice(cfg, s, move);
    if move.ClientMove? {
      RefreshChoice(cfg, s.client, move.choice);
    }
  }

  lemma RefreshChoice(cfg: Config, c: Client, choice: Choice)
    requires May(c, choice) && InRefresh(c.pc)
    ensures var r := Act(cfg, c, choice);
      && !r.pc.Down?
      && RefreshLeft(cfg, c.pc) == (if Asks(c, r).Some? then [Asks(c, r).value] else []) + RefreshLeft(cfg, r.pc)
  {
  }

  // From the command until it takes commands again, a refresh asks for every
  // readable key, in order of keyref and for nothing else, and a value arrives
  // for each.
  lemma RefreshReadsAll(cfg: Config, s: System, moves: seq<Move>)
    requires |s.node.slots| == |cfg.keys| && s.client.pc == Commands
    requires IsPlay(cfg, s, [ClientMove(Refresh)] + moves)
    requires Within(cfg, Moved(cfg, s, ClientMove(Refresh)), moves, InRefresh)
    requires Played(cfg, Moved(cfg, s, ClientMove(Refresh)), moves).client.pc == Commands
    ensures Asked(cfg, s, [ClientMove(Refresh)] + moves) == GetsOfAll(cfg, 0)
    ensures forall k: u16 :: k < KeyCount(cfg.keys) && PermOf(cfg, k).readable ==>
      LastBrought(cfg, s, [ClientMove(Refresh)] + moves, k).Some?
  {
    var t := Moved(cfg, s, ClientMove(Refresh));
    assert ([ClientMove(Refresh)] + moves)[1..] == moves;
    AskedByChoice(cfg, s, ClientMove(Refresh));
    RefreshAsks(cfg, t, moves, 0);
    assert [] + Asked(cfg, t, moves) == Asked(cfg, t, moves);
    forall k: u16 | k < KeyCount(cfg.keys) && PermOf(cfg, k).readable
      ensures LastBrought(cfg, t, moves, k).Some?
    {
      RefreshAsks(cfg, t, moves, k);
    }
  }

  lemma {:induction false} RefreshAsks(cfg: Config, s: System, moves: seq<Move>, k: u16)
    requires |s.node.slots| == |cfg.keys| && IsPlay(cfg, s, moves) && Within(cfg, s, moves, InRefresh)
    requires InRefresh(s.client.pc) || s.client.pc == Commands
    requires Played(cfg, s, moves).client.pc == Commands
    ensures Asked(cfg, s, moves) == RefreshLeft(cfg, s.client.pc)
    ensures StillToBring(s.client.pc, k) && k < KeyCount(cfg.keys) && PermOf(cfg, k).readable ==> LastBrought(cfg, s, moves, k).Some?
    decreases |moves|
  {
    if moves != [] {
      RefreshMove(cfg, s, moves[0], k);
      RefreshGoesOn(cfg, s, moves);
      RefreshAsks(cfg, Moved(cfg, s, moves[0]), moves[1..], k);
    }
  }

  // A play that ends with taking commands has not ended the connection.
  lemma RefreshGoesOn(cfg: Config, s: System, moves: seq<Move>)
    requires |s.node.slots| == |cfg.keys| && moves != [] && IsPlay(cfg, s, moves) && Within(cfg, s, moves, InRefresh)
    requires Played(cfg, s, moves).client.pc == Commands
    ensures var pc := Moved(cfg, s, moves[0]).client.pc; InRefresh(pc) || pc == Commands
  {
    if |moves| == 1 {
      assert Played(cfg, Moved(cfg, s, moves[0]), moves[1..]) == Moved(cfg, s, moves[0]);
    }
  }

  // ---- The first pass ----

  function FirstPassLeft(cfg: Config, pc: Pc): (requests: seq<Incoming>)
  {
    match pc
    case Observing(row) => AsksOfAll(cfg, row)
    case AwaitObserve(row) => (if PermOf(cfg, row).readable then [Incoming.Get(row)] else []) + AsksOfAll(cfg, row + 1)
    case Reading(row) => (if PermOf(cfg, row).readable then [Incoming.Get(row)] else []) + AsksOfAll(cfg, row + 1)
    case AwaitRead(row) => AsksOfAll(cfg, row + 1)
    case _ => []
  }

  lemma FirstPassMove(cfg: Config, s: System, move: Move)
    requires |s.node.slots| == |cfg.keys| && MayMove(cfg, s, move) && InFirstPass(s.client.pc)
    requires s.client.pc.Reading? ==> s.client.pc.row < KeyCount(cfg.keys)
    ensures var r := Moved(cfg, s, move).client.pc;
      && (r.Down? || FirstPassLeft(cfg, s.client.pc) == AskedBy(cfg, s, move) + FirstPassLeft(cfg, r))
      && (r.Reading? && s.client.pc.Observing? ==> r.row < KeyCount(cfg.keys))
  {
    AskedByChoice(cfg, s, move);
    if move.ClientMove? {
      FirstPassChoice(cfg, s.client, move.choice);
    }
  }

  lemma FirstPassChoice(cfg: Config, c: Client, choice: Choice)
    requires May(c, choice) && InFirstPass(c.pc) && (c.pc.Reading? ==> c.pc.row < KeyCount(cfg.keys))
    ensures var r := Act(cfg, c, choice);
      && FirstPassLeft(cfg, c.pc) == (if Asks(c, r).Some? then [Asks(c, r).value] else []) + FirstPassLeft(cfg, r.pc)
      && (r.pc.Reading? && c.pc.Observing? ==> r.pc.row < KeyCount(cfg.keys))
  {
  }

  // From the start until the drain, the worker observes every observable key and
  // reads every readable one, in order of keyref and nothing else.
  lemma {:induction false} FirstPassAsks(cfg: Config, s: System, moves: seq<Move>)
    requires UniqueKeyrefs(cfg) && Healthy(cfg, s) && IsPlay(cfg, s, moves) && Within(cfg, s, moves, InFirstPass)
    requires InFirstPass(s.client.pc) || s.client.pc == Draining
    requires Played(cfg, s, moves).client.pc == Draining
    ensures Asked(cfg, s, moves) == FirstPassLeft(cfg, s.client.pc)
    decreases |moves|
  {
    if moves != [] {
      MoveHealthy(cfg, s, moves[0]);
      FirstPassMove(cfg, s, moves[0]);
      FirstPassGoesOn(cfg, s, moves);
      FirstPassAsks(cfg, Moved(cfg, s, moves[0]), moves[1..]);
    }
  }

  lemma FirstPassGoesOn(cfg: Config, s: System, moves: seq<Move>)
    requires |s.node.slots| == |cfg.keys| && moves != [] && IsPlay(cfg, s, moves) && Within(cfg, s, moves, InFirstPass)
    requires Played(cfg, s, moves).client.pc == Draining
    ensures var pc := Moved(cfg, s, moves[0]).client.pc; InFirstPass(pc) || pc == Draining
  {
    if |moves| == 1 {
      assert Played(cfg, Moved(cfg, s, moves[0]), moves[1..]) == Moved(cfg, s, moves[0]);
    }
  }

  lemma FirstPassAsksAll(cfg: Config, s: System, moves: seq<Move>)
    requires UniqueKeyrefs(cfg) && Begun(cfg, s) && IsPlay(cfg, s, moves) && Within(cfg, s, moves, InFirstPass)
    requires Played(cfg, s, moves).client.pc == Draining
    ensures Asked(cfg, s, moves) == AsksOfAll(cfg, 0)
  {
    BegunHealthy(cfg, s);
    FirstPassAsks(cfg, s, moves);
  }

  // ---- The loop behind the first pass ----

  // The worker listens only with nothing left to work off.
  lemma {:induction false} ListensWithNothingPending(cfg: Config, s: System, moves: seq<Move>)
    requires |s.node.slots| == |cfg.keys| && IsPlay(cfg, s, moves)
    requires s.client.pc.Listening? ==> s.client.pending == []
    ensures Played(cfg, s, moves).client.pc.Listening? ==> Played(cfg, s, moves).client.pending == []
    decreases |moves|
  {
    if moves != [] {
      ListensWithNothingPending(cfg, Moved(cfg, s, moves[0]), moves[1..]);
    }
  }

  // Some state of the play, its start included, is at the commands.
  ghost predicate TakesCommands(cfg: Config, s: System, moves: seq<Move>)
    requires |s.node.slots| == |cfg.keys| && IsPlay(cfg, s, moves)
    decreases |moves|
  {
    s.client.pc == Commands || (moves != [] && TakesCommands(cfg, Moved(cfg, s, moves[0]), moves[1..]))
  }

  predicate InDrain(pc: Pc)
  {
    pc.Draining? || pc.AwaitDrain?
  }

  // Between listening and the next drain the worker looks at its commands,
  // whether a CHANGED, a heartbeat or a silent poll ended the listening.
  lemma {:induction false} CommandsBeforeDrain(cfg: Config, s: System, moves: seq<Move>)
    requires |s.node.slots| == |cfg.keys| && IsPlay(cfg, s, moves)
    requires s.client.pc == Listening || s.client.pc == AwaitPing
    requires InDrain(Played(cfg, s, moves).client.pc)
    ensures TakesCommands(cfg, s, moves)
    decreases |moves|
  {
    if moves != [] {
      var pc := Moved(cfg, s, moves[0]).client.pc;
      if pc == Listening || pc == AwaitPing {
        CommandsBeforeDrain(cfg, Moved(cfg, s, moves[0]), moves[1..]);
      } else if pc == Down {
        DownIsFinal(cfg, Moved(cfg, s, moves[0]), moves[1..]);
      }
    }
  }

  lemma {:induction false} DownIsFinal(cfg: Config, s: System, moves: seq<Move>)
    requires |s.node.slots| == |cfg.keys| && IsPlay(cfg, s, moves) && s.client.pc == Down
    ensures Played(cfg, s, moves).client.pc == Down
    decreases |moves|
  {
    if moves != [] {
      DownIsFinal(cfg, Moved(cfg, s, moves[0]), moves[1..]);
    }
  }
}
