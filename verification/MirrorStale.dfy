// The converse of mirror convergence: a wrong value that nothing is about to
// correct stays wrong until the key is set, written, or everything is read
// again.
module MirrorStale {
  import opened Bytes
  import opened Messages
  import opened Requests
  import opened Values
  import opened Node
  import opened NodeInvariant
  import opened NodeHistory
  import opened NodeReplies
  import opened Worker
  import opened Mirror

  // The mirror does not show the node's value of slot i.
  predicate Wrong(cfg: Config, s: System, i: nat)
    requires i < |s.node.slots| == |cfg.keys|
  {
    var k := cfg.keys[i].keyref;
    !(k in s.client.mirror && s.client.mirror[k] == s.node.slots[i].value)
  }

  // The worker is past its first pass over the keys, and neither reads nor
  // writes key k now or next.
  predicate Elsewhere(c: Client, k: u16)
  {
    && (c.pc.Commands? || c.pc.Draining? || c.pc.Listening? || c.pc.AwaitDrain? || c.pc.AwaitWritten? || c.pc.AwaitPing? || c.pc.Down?)
    && (c.pc.AwaitDrain? || c.pc.AwaitWritten? ==> c.pc.keyref != k)
    && k !in c.pending && k !in c.changed
  }

  predicate WritesSlot(cfg: Config, request: Incoming, i: nat)
  {
    WriteTarget(cfg, request).Some? && WriteTarget(cfg, request).value.0 == i
  }

  // No update of slot i is under way, and the server has seen them all, or
  // missed a whole wrap of the generation.
  predicate Settled(cfg: Config, n: State, i: nat)
    requires i < |n.slots|
  {
    && n.slots[i].gen == n.slots[i].seen
    && (forall t :: 0 <= t < |n.setters| ==> n.setters[t] != Stored(i))
    && (forall q :: 0 <= q < |n.inbox| ==> !WritesSlot(cfg, n.inbox[q], i))
    && (n.phase.Handling? ==> !WritesSlot(cfg, n.phase.request, i))
    && (n.phase.Writing? ==> n.phase.stage != Stored(i))
  }

  predicate Stuck(cfg: Config, s: System, i: nat)
    requires i < |s.node.slots| == |cfg.keys|
  {
    && Wrong(cfg, s, i)
    && Elsewhere(s.client, cfg.keys[i].keyref)
    && Settled(cfg, s.node, i)
    && !Told(Wire(s.node), 0, cfg.keys[i].keyref)
  }

  // The moves that can correct the mirror of slot i.
  predicate Corrects(cfg: Config, move: Move, i: nat)
    requires i < |cfg.keys|
  {
    match move
    case NodeMove(step) => step.SetBegin? && step.slot == i
    case ClientMove(choice) => choice.Refresh? || (choice.WriteKey? && choice.keyref == cfg.keys[i].keyref)
    case Deliver => false
  }

  // ---- One move ----

  lemma SettledNode(cfg: Config, n: State, step: Node.Step, i: nat)
    requires UniqueKeyrefs(cfg) && |n.slots| == |cfg.keys| && i < |n.slots| && Settled(cfg, n, i)
    requires Enabled(cfg, n, step) && !step.Send? && !step.Receive? && !(step.SetBegin? && step.slot == i)
    ensures var r := Apply(cfg, n, step);
      Settled(cfg, r, i) && r.slots[i].value == n.slots[i].value
  {
  }

  lemma NotToldNode(cfg: Config, n: State, step: Node.Step, i: nat)
    requires UniqueKeyrefs(cfg) && |n.slots| == |cfg.keys| && i < |n.slots| && Settled(cfg, n, i)
    requires Enabled(cfg, n, step) && !step.Send? && !step.Receive?
    requires !Told(Wire(n), 0, cfg.keys[i].keyref)
    ensures !Told(Wire(Apply(cfg, n, step)), 0, cfg.keys[i].keyref)
  {
    var w, k := Wire(n), cfg.keys[i].keyref;
    WireOf(cfg, n, step);
    var added := Added(cfg, n, step);
    assert Changed(k) !in added by {
      if step.Visit? && n.phase.next != i {
        assert cfg.keys[n.phase.next].keyref != k;
      }
    }
    forall q | 0 <= q < |w + added|
      ensures (w + added)[q] != Changed(k)
    {
      assert (w + added)[q] == if q < |w| then w[q] else added[q - |w|];
    }
  }

  lemma StuckNode(cfg: Config, s: System, step: Node.Step, i: nat)
    requires UniqueKeyrefs(cfg) && i < |s.node.slots| == |cfg.keys| && Stuck(cfg, s, i)
    requires MayMove(cfg, s, NodeMove(step)) && !Corrects(cfg, NodeMove(step), i)
    ensures Stuck(cfg, Moved(cfg, s, NodeMove(step)), i)
  {
    SettledNode(cfg, s.node, step, i);
    NotToldNode(cfg, s.node, step, i);
  }

  lemma ActElsewhere(cfg: Config, c: Client, choice: Choice, i: nat)
    requires i < |cfg.keys| && Elsewhere(c, cfg.keys[i].keyref)
    requires May(c, choice) && !Corrects(cfg, ClientMove(choice), i)
    ensures var after, k := Act(cfg, c, choice), cfg.keys[i].keyref;
      && Elsewhere(after, k)
      && (k in after.mirror <==> k in c.mirror) && (k in c.mirror ==> after.mirror[k] == c.mirror[k])
      && (Asks(c, after).Some? ==> !WritesSlot(cfg, Asks(c, after).value, i))
  {
    if choice.Continue? && c.pc.Draining? && c.pending != [] {
      var rest := c.pending[..|c.pending| - 1];
      assert c.pending == rest + [c.pending[|c.pending| - 1]];
    }
  }

  lemma StuckClient(cfg: Config, s: System, choice: Choice, i: nat)
    requires UniqueKeyrefs(cfg) && i < |s.node.slots| == |cfg.keys| && Stuck(cfg, s, i)
    requires MayMove(cfg, s, ClientMove(choice)) && !Corrects(cfg, ClientMove(choice), i)
    ensures Stuck(cfg, Moved(cfg, s, ClientMove(choice)), i)
  {
    ActElsewhere(cfg, s.client, choice, i);
  }

  lemma ReceiveElsewhere(c: Client, m: Message, k: u16)
    requires RowFits(c.pc) && Elsewhere(c, k) && Distinct(c.pending) && m != Changed(k)
    ensures var after := OnMessage(c, m);
      && Elsewhere(after, k)
      && (k in after.mirror <==> k in c.mirror) && (k in c.mirror ==> after.mirror[k] == c.mirror[k])
  {
    MergeKeepsDistinct(c.pending, c.changed);
  }

  lemma StuckDeliver(cfg: Config, s: System, i: nat)
    requires UniqueKeyrefs(cfg) && i < |s.node.slots| == |cfg.keys| && Stuck(cfg, s, i)
    requires MayMove(cfg, s, Deliver) && Distinct(s.client.pending)
    ensures Stuck(cfg, Moved(cfg, s, Deliver), i)
  {
    WirePops(cfg, s.node);
    assert Wire(s.node)[0] == s.node.outbox[0];
    ReceiveElsewhere(s.client, s.node.outbox[0], cfg.keys[i].keyref);
    var r := Moved(cfg, s, Deliver).node;
    forall q | 0 <= q < |Wire(r)|
      ensures Wire(r)[q] != Changed(cfg.keys[i].keyref)
    {
      assert Wire(r)[q] == Wire(s.node)[q + 1];
    }
  }

  // ---- Whole plays ----

  ghost predicate NothingCorrects(cfg: Config, moves: seq<Move>, i: nat)
    requires i < |cfg.keys|
  {
    forall j :: 0 <= j < |moves| ==> !Corrects(cfg, moves[j], i)
  }

  // For every configuration: a wrong value that is stuck stays wrong in every
  // play without a set or WRITE of the key and without a refresh.
  lemma {:induction false} StuckStays(cfg: Config, s: System, moves: seq<Move>, i: nat)
    requires UniqueKeyrefs(cfg) && Healthy(cfg, s) && i < |cfg.keys| && Stuck(cfg, s, i)
    requires IsPlay(cfg, s, moves) && NothingCorrects(cfg, moves, i)
    ensures Stuck(cfg, Played(cfg, s, moves), i) && Wrong(cfg, Played(cfg, s, moves), i)
    decreases |moves|
  {
    if moves != [] {
      match moves[0] {
        case NodeMove(step) => StuckNode(cfg, s, step, i);
        case ClientMove(choice) => StuckClient(cfg, s, choice, i);
        case Deliver => StuckDeliver(cfg, s, i);
      }
      MoveHealthy(cfg, s, moves[0]);
      assert forall j :: 0 <= j < |moves[1..]| ==> moves[1..][j] == moves[j + 1];
      StuckStays(cfg, Moved(cfg, s, moves[0]), moves[1..], i);
    }
  }

  // A keyref thrown away with a rejected WRITE, whose update the server has seen
  // and reported, is stuck as soon as nothing about it is left on the wire.
  lemma DroppedStays(cfg: Config, s: System, moves: seq<Move>, i: nat)
    requires UniqueKeyrefs(cfg) && Linked(cfg, s) && i < |cfg.keys| && Tracked(cfg, s.node, i) && Wrong(cfg, s, i)
    requires cfg.keys[i].keyref in s.client.dropped && Elsewhere(s.client, cfg.keys[i].keyref)
    requires s.node.slots[i].count == s.node.slots[i].seenCount && Wire(s.node) == []
    requires forall t :: 0 <= t < |s.node.setters| ==> s.node.setters[t] != Stored(i)
    requires IsPlay(cfg, s, moves) && NothingCorrects(cfg, moves, i)
    ensures Wrong(cfg, Played(cfg, s, moves), i)
  {
    assert SlotOk(cfg, s.node.slots[i], i);
    StuckStays(cfg, s, moves, i);
  }

  // The exceptions of mirror convergence are the only ones, and they last: an
  // idle mirror is wrong only for a key dropped with a rejected WRITE or wrapped
  // all the way round, and then it is wrong in every continuation without a set
  // or WRITE of the key and without a refresh.
  lemma IdleWrongStays(cfg: Config, s0: System, moves: seq<Move>, more: seq<Move>, i: nat)
    requires UniqueKeyrefs(cfg) && Begun(cfg, s0) && IsPlay(cfg, s0, moves)
    requires AllIdle(Played(cfg, s0, moves)) && i < |cfg.keys|
    requires cfg.keys[i].perm.readable && cfg.keys[i].perm.observable && cfg.keys[i].keyref != 0xFFFF
    requires IsPlay(cfg, Played(cfg, s0, moves), more) && NothingCorrects(cfg, more, i)
    ensures var s := Played(cfg, s0, moves);
      Wrong(cfg, s, i) ==>
        && (cfg.keys[i].keyref in s.client.dropped || Wrapped(s.node.slots[i]))
        && Wrong(cfg, Played(cfg, s, more), i)
  {
    BegunHealthy(cfg, s0);
    HealthyOverPlays(cfg, s0, moves);
    var s := Played(cfg, s0, moves);
    IdleIsCovered(cfg, s, i);
    if Wrong(cfg, s, i) {
      IdleIsSeen(cfg, s.node, i);
      assert Wire(s.node) == [];
      StuckStays(cfg, s, more, i);
    }
  }
}
