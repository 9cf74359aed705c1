// The command line's follow mode: it prints a key each time it is told of a
// change, and throws away every CHANGED frame that arrives while it waits for
// a reply.
module Follow {
  import opened Bytes
  import opened Messages
  import opened Requests
  import opened Values
  import opened Node
  import opened NodeInvariant
  import opened NodeHistory
  import opened NodeReplies
  import Worker
  import WorkerLoop
  import Mirror

  datatype FollowPc = Resolved | AwaitOk | Following | AwaitValue | Quit

  // `printed` is what was printed so far, in order.
  datatype Follower = Follower(pc: FollowPc, printed: seq<Value>)

  // `trace` is what the follower sent and took, in order.
  datatype Session = Session(node: State, follower: Follower, trace: seq<WorkerLoop.Traffic>)

  datatype Move = NodeMove(step: Node.Step) | SendObserve | Deliver

  // The keyref is the one of slot i, chosen readable and observable.
  predicate Followable(cfg: Config, i: nat)
  {
    i < |cfg.keys| && cfg.keys[i].perm.readable && cfg.keys[i].perm.observable && cfg.keys[i].keyref != 0xFFFF
  }

  predicate MayMove(cfg: Config, s: Session, move: Move)
    requires |s.node.slots| == |cfg.keys|
  {
    match move
    case NodeMove(step) => !step.Send? && !step.Receive? && Enabled(cfg, s.node, step)
    case SendObserve => s.follower.pc == Resolved
    case Deliver => (s.follower.pc.AwaitOk? || s.follower.pc.Following? || s.follower.pc.AwaitValue?) && s.node.outbox != []
  }

  // Receiving one message while following key k; a GET may go out with it.
  function OnMessage(f: Follower, k: u16, m: Message): (r: Follower)
  {
    match f.pc
    case AwaitOk =>
      if m.Changed? then f
      else if m == Ordinarily(Okay) then f.(pc := Following)
      else f.(pc := Quit)
    case AwaitValue =>
      if m.Changed? then f
      else if m.Ordinarily? && m.response.Current? then Follower(Following, f.printed + [m.response.value])
      else f.(pc := Quit)
    case Following =>
      if m == Changed(k) then f.(pc := AwaitValue)
      else if m.Changed? then f
      else f.(pc := Quit)
    case _ => f
  }

  function Moved(cfg: Config, s: Session, i: nat, move: Move): (r: Session)
    requires |s.node.slots| == |cfg.keys| && i < |cfg.keys| && MayMove(cfg, s, move)
    ensures |r.node.slots| == |cfg.keys|
  {
    var k := cfg.keys[i].keyref;
    match move
    case NodeMove(step) => s.(node := Apply(cfg, s.node, step))
    case SendObserve =>
      Session(Apply(cfg, s.node, Send(Incoming.Observe(k))), s.follower.(pc := AwaitOk),
              s.trace + [WorkerLoop.Sent(Incoming.Observe(k))])
    case Deliver =>
      var m := s.node.outbox[0];
      var f, n, trace := OnMessage(s.follower, k, m), Apply(cfg, s.node, Receive), s.trace + [WorkerLoop.Arrived(m)];
      if s.follower.pc.Following? && f.pc.AwaitValue? then
        Session(Apply(cfg, n, Send(Incoming.Get(k))), f, trace + [WorkerLoop.Sent(Incoming.Get(k))])
      else Session(n, f, trace)
  }

  // ---- The invariant ----

  // The follower as a worker at the corresponding place.
  function AsPc(pc: FollowPc, k: u16): (r: Worker.Pc)
  {
    match pc
    case Resolved => Worker.Commands
    case AwaitOk => Worker.AwaitObserve(k)
    case Following => Worker.Listening
    case AwaitValue => Worker.AwaitDrain(k)
    case Quit => Worker.Down
  }

  predicate Notified(log: seq<Event>, k: u16)
  {
    Notify(k) in log
  }

  // Nothing is observed until the OBSERVE is answered, and its OK is the first
  // frame the follower meets.
  predicate StartsQuiet(s: Session, k: u16)
  {
    s.follower.pc.Resolved? || s.follower.pc.AwaitOk? ==>
      || (Wire(s.node) == [] && !Notified(s.node.log, k) && forall j :: 0 <= j < |s.node.slots| ==> !s.node.slots[j].observed)
      || (s.follower.pc.AwaitOk? && Wire(s.node) != [] && Wire(s.node)[0] == Ordinarily(Okay))
  }

  predicate Watching(s: Session, i: nat)
    requires i < |s.node.slots|
  {
    s.follower.pc.Following? || s.follower.pc.AwaitValue? || (s.follower.pc.AwaitOk? && Wire(s.node) != []) ==>
      s.node.slots[i].observed
  }

  predicate ValueCovered(s: Session, i: nat, k: u16)
    requires i < |s.node.slots|
  {
    forall p {:trigger Wire(s.node)[p]} :: 0 <= p < |Wire(s.node)| && s.follower.pc.AwaitValue? && !Wire(s.node)[p].Changed? ==>
      var m := Wire(s.node)[p];
      m.Ordinarily? && m.response.Current? && Mirror.Covered(s.node, i, k, m.response.value, p + 1)
  }

  function LastPrint(f: Follower): (v: Value)
    requires f.printed != []
  {
    f.printed[|f.printed| - 1]
  }

  predicate PrintCovered(s: Session, i: nat, k: u16)
    requires i < |s.node.slots|
  {
    Notified(s.node.log, k) ==>
      || s.follower.pc.AwaitValue?
      || Mirror.Told(Wire(s.node), 0, k)
      || (s.follower.printed != [] && Mirror.Covered(s.node, i, k, LastPrint(s.follower), 0))
  }

  ghost predicate Healthy(cfg: Config, s: Session, i: nat)
  {
    && Followable(cfg, i)
    && Inv(cfg, s.node)
    && !s.follower.pc.Quit?
    && Mirror.Located(s.node, AsPc(s.follower.pc, cfg.keys[i].keyref))
    && StartsQuiet(s, cfg.keys[i].keyref)
    && Watching(s, i)
    && ValueCovered(s, i, cfg.keys[i].keyref)
    && PrintCovered(s, i, cfg.keys[i].keyref)
  }

  // ---- Node moves ----

  lemma AsksWell(cfg: Config, i: nat, pc: FollowPc)
    requires UniqueKeyrefs(cfg) && Followable(cfg, i) && !pc.Quit?
    ensures Worker.RowFits(AsPc(pc, cfg.keys[i].keyref)) && Mirror.AskOk(cfg, AsPc(pc, cfg.keys[i].keyref))
  {
    Mirror.PermOfSlot(cfg, i);
  }

  // The request being handled is the follower's.
  lemma HandledIsOurs(cfg: Config, s: Session, i: nat)
    requires Healthy(cfg, s, i) && Mirror.Busy(s.node)
    ensures Worker.Outstanding(AsPc(s.follower.pc, cfg.keys[i].keyref)) == Some(s.node.phase.request)
    ensures Mirror.OnlyChanged(Wire(s.node))
    ensures s.follower.pc.AwaitOk? || s.follower.pc.AwaitValue?
  {
  }

  lemma NodeObserves(cfg: Config, s: Session, i: nat, step: Node.Step, j: nat)
    requires UniqueKeyrefs(cfg) && Healthy(cfg, s, i) && MayMove(cfg, s, NodeMove(step)) && j < |cfg.keys|
    ensures s.node.slots[j].observed ==> Apply(cfg, s.node, step).slots[j].observed
    ensures Apply(cfg, s.node, step).slots[j].observed && !s.node.slots[j].observed ==>
      step.Handle? && s.follower.pc.AwaitOk?
    ensures step.Handle? && s.follower.pc.AwaitOk? ==>
      Switches(cfg, s.node.phase.request) == Some(i) && Mirror.Added(cfg, s.node, step) == [Ordinarily(Okay)]
    ensures step.Handle? && !s.follower.pc.AwaitOk? ==> Switches(cfg, s.node.phase.request) == None
  {
    if step.Handle? {
      HandledIsOurs(cfg, s, i);
      FindUnique(cfg, i);
    }
  }

  lemma NodeStartsQuiet(cfg: Config, s: Session, i: nat, step: Node.Step)
    requires UniqueKeyrefs(cfg) && Healthy(cfg, s, i) && MayMove(cfg, s, NodeMove(step))
    ensures StartsQuiet(s.(node := Apply(cfg, s.node, step)), cfg.keys[i].keyref)
  {
    var n, r := s.node, Apply(cfg, s.node, step);
    Mirror.WireOf(cfg, n, step);
    if (s.follower.pc.Resolved? || s.follower.pc.AwaitOk?) && Wire(n) != [] {
      assert Wire(r)[0] == Wire(n)[0];
    } else if step.Handle? && s.follower.pc.AwaitOk? {
      NodeObserves(cfg, s, i, step, i);
    } else if s.follower.pc.Resolved? || s.follower.pc.AwaitOk? {
      QuietStaysQuiet(cfg, s, i, step);
    }
  }

  // Nothing is observed, nothing is on the wire, and the OBSERVE is not handled
  // now.
  lemma QuietStaysQuiet(cfg: Config, s: Session, i: nat, step: Node.Step)
    requires UniqueKeyrefs(cfg) && Healthy(cfg, s, i) && MayMove(cfg, s, NodeMove(step))
    requires (s.follower.pc.Resolved? || s.follower.pc.AwaitOk?) && Wire(s.node) == []
    requires !(step.Handle? && s.follower.pc.AwaitOk?)
    ensures var r := Apply(cfg, s.node, step);
      && Wire(r) == [] && !Notified(r.log, cfg.keys[i].keyref)
      && forall j :: 0 <= j < |r.slots| ==> !r.slots[j].observed
  {
    var n, r := s.node, Apply(cfg, s.node, step);
    Mirror.WireOf(cfg, n, step);
    RecordedIsAppended(cfg, n, step);
    if step.Handle? || step.WriteNotify? {
      HandledIsOurs(cfg, s, i);
    }
    forall j | 0 <= j < |n.slots|
      ensures !r.slots[j].observed
    {
      NodeObserves(cfg, s, i, step, j);
    }
  }

  lemma NodeWatching(cfg: Config, s: Session, i: nat, step: Node.Step)
    requires UniqueKeyrefs(cfg) && Healthy(cfg, s, i) && MayMove(cfg, s, NodeMove(step))
    ensures Watching(s.(node := Apply(cfg, s.node, step)), i)
  {
    Mirror.WireOf(cfg, s.node, step);
    NodeObserves(cfg, s, i, step, i);
    if step.WriteNotify? {
      HandledIsOurs(cfg, s, i);
    }
  }

  lemma NodeValueCovered(cfg: Config, s: Session, i: nat, step: Node.Step)
    requires UniqueKeyrefs(cfg) && Healthy(cfg, s, i) && MayMove(cfg, s, NodeMove(step))
    ensures ValueCovered(s.(node := Apply(cfg, s.node, step)), i, cfg.keys[i].keyref)
  {
    var n, r, k := s.node, Apply(cfg, s.node, step), cfg.keys[i].keyref;
    Mirror.WireOf(cfg, n, step);
    NodeObserves(cfg, s, i, step, i);
    if s.follower.pc.AwaitValue? {
      forall p {:trigger Wire(r)[p]} | 0 <= p < |Wire(r)| && !Wire(r)[p].Changed?
        ensures Wire(r)[p].Ordinarily? && Wire(r)[p].response.Current?
        ensures Mirror.Covered(r, i, k, Wire(r)[p].response.value, p + 1)
      {
        if p < |Wire(n)| {
          assert Wire(r)[p] == Wire(n)[p];
          Mirror.CoveredNode(cfg, n, step, i, Wire(n)[p].response.value, p + 1);
        } else {
          assert Wire(r)[p] == Mirror.Added(cfg, n, step)[p - |Wire(n)|];
          NewValueCovered(cfg, s, i, step);
        }
      }
    }
  }

  lemma NewValueCovered(cfg: Config, s: Session, i: nat, step: Node.Step)
    requires UniqueKeyrefs(cfg) && Healthy(cfg, s, i) && MayMove(cfg, s, NodeMove(step))
    requires s.follower.pc.AwaitValue? && Mirror.Added(cfg, s.node, step) != [] && !Mirror.Added(cfg, s.node, step)[0].Changed?
    ensures var m := Mirror.Added(cfg, s.node, step)[0];
      m == Ordinarily(Current(Apply(cfg, s.node, step).slots[i].value))
  {
    assert step.Handle? || step.WriteNotify?;
    HandledIsOurs(cfg, s, i);
    FindUnique(cfg, i);
  }

  lemma NodePrintCovered(cfg: Config, s: Session, i: nat, step: Node.Step)
    requires UniqueKeyrefs(cfg) && Healthy(cfg, s, i) && MayMove(cfg, s, NodeMove(step))
    ensures PrintCovered(s.(node := Apply(cfg, s.node, step)), i, cfg.keys[i].keyref)
  {
    var n, r, k := s.node, Apply(cfg, s.node, step), cfg.keys[i].keyref;
    Mirror.WireOf(cfg, n, step);
    RecordedIsAppended(cfg, n, step);
    NodeObserves(cfg, s, i, step, i);
    if Notified(r.log, k) && !s.follower.pc.AwaitValue? {
      if !Notified(n.log, k) {
        assert Recorded(cfg, n, step) == Some(Notify(k));
        assert Wire(r)[|Wire(n)|] == Changed(k);
      } else if Mirror.Told(Wire(n), 0, k) {
        var q :| 0 <= q < |Wire(n)| && Wire(n)[q] == Changed(k);
        assert Wire(r)[q] == Changed(k);
      } else if s.follower.printed != [] {
        if step.Handle? {
          HandledIsOurs(cfg, s, i);
        }
        Mirror.CoveredNode(cfg, n, step, i, LastPrint(s.follower), 0);
      }
    }
  }

  lemma NodeMoveHealthy(cfg: Config, s: Session, i: nat, step: Node.Step)
    requires UniqueKeyrefs(cfg) && Healthy(cfg, s, i) && MayMove(cfg, s, NodeMove(step))
    ensures Healthy(cfg, Moved(cfg, s, i, NodeMove(step)), i)
  {
    InvStep(cfg, s.node, step);
    AsksWell(cfg, i, s.follower.pc);
    Mirror.LocatedNode(cfg, s.node, AsPc(s.follower.pc, cfg.keys[i].keyref), step);
    NodeStartsQuiet(cfg, s, i, step);
    NodeWatching(cfg, s, i, step);
    NodeValueCovered(cfg, s, i, step);
    NodePrintCovered(cfg, s, i, step);
  }

  // ---- Sending and receiving ----

  lemma ObserveHealthy(cfg: Config, s: Session, i: nat)
    requires UniqueKeyrefs(cfg) && Healthy(cfg, s, i) && MayMove(cfg, s, SendObserve)
    ensures Healthy(cfg, Moved(cfg, s, i, SendObserve), i)
  {
    Mirror.SendOnly(cfg, s.node, Incoming.Observe(cfg.keys[i].keyref));
  }

  // What the follower meets first: CHANGED, or the reply it waits for.
  lemma FirstFrame(cfg: Config, s: Session, i: nat)
    requires Healthy(cfg, s, i) && MayMove(cfg, s, Deliver)
    ensures var m, pc := s.node.outbox[0], AsPc(s.follower.pc, cfg.keys[i].keyref);
      && Wire(s.node)[0] == m
      && (s.follower.pc.AwaitOk? ==> m == Ordinarily(Okay))
      && (!m.Changed? ==> Worker.Outstanding(pc).Some? && Mirror.Expected(pc, m) && Mirror.Alone(Wire(s.node), 0)
                          && !Mirror.Busy(s.node) && s.node.inbox == [])
  {
    Mirror.WirePops(cfg, s.node);
  }

  lemma TakenLocated(cfg: Config, s: Session, i: nat)
    requires UniqueKeyrefs(cfg) && Healthy(cfg, s, i) && MayMove(cfg, s, Deliver)
    ensures var r, k := Moved(cfg, s, i, Deliver), cfg.keys[i].keyref;
      && !r.follower.pc.Quit?
      && Mirror.Located(r.node, AsPc(r.follower.pc, k))
  {
    var n, pc := s.node, AsPc(s.follower.pc, cfg.keys[i].keyref);
    var r := Apply(cfg, n, Receive);
    Mirror.WirePops(cfg, n);
    FirstFrame(cfg, s, i);
    if !n.outbox[0].Changed? {
      Mirror.AlonePops(Wire(n), 0);
    } else if Mirror.OnlyChanged(Wire(n)) {
      Mirror.OnlyChangedPops(Wire(n));
    } else {
      var p: nat :| Mirror.Alone(Wire(n), p) && Mirror.Expected(pc, Wire(n)[p]);
      Mirror.AlonePops(Wire(n), p);
      assert Mirror.Expected(pc, Wire(r)[p - 1]);
    }
  }

  lemma TakenValueCovered(cfg: Config, s: Session, i: nat)
    requires UniqueKeyrefs(cfg) && Healthy(cfg, s, i) && MayMove(cfg, s, Deliver)
    ensures ValueCovered(Moved(cfg, s, i, Deliver), i, cfg.keys[i].keyref)
  {
    var n, r, k := s.node, Moved(cfg, s, i, Deliver), cfg.keys[i].keyref;
    Mirror.WirePops(cfg, n);
    FirstFrame(cfg, s, i);
    if s.follower.pc.AwaitValue? {
      forall p {:trigger Wire(r.node)[p]} | 0 <= p < |Wire(r.node)| && r.follower.pc.AwaitValue? && !Wire(r.node)[p].Changed?
        ensures Wire(r.node)[p].Ordinarily? && Wire(r.node)[p].response.Current?
        ensures Mirror.Covered(r.node, i, k, Wire(r.node)[p].response.value, p + 1)
      {
        assert Wire(r.node)[p] == Wire(n)[p + 1];
        Mirror.CoveredBehind(cfg, n, i, k, Wire(n)[p + 1].response.value, p + 2);
      }
    } else if r.follower.pc.AwaitValue? {
      Mirror.OnlyChangedPops(Wire(n));
    }
  }

  lemma TakenPrintCovered(cfg: Config, s: Session, i: nat)
    requires UniqueKeyrefs(cfg) && Healthy(cfg, s, i) && MayMove(cfg, s, Deliver)
    ensures PrintCovered(Moved(cfg, s, i, Deliver), i, cfg.keys[i].keyref)
  {
    var n, r, k, m := s.node, Moved(cfg, s, i, Deliver), cfg.keys[i].keyref, s.node.outbox[0];
    Mirror.WirePops(cfg, n);
    FirstFrame(cfg, s, i);
    if Notified(n.log, k) && !r.follower.pc.AwaitValue? {
      if s.follower.pc.AwaitValue? {
        // The VALUE is printed; it was covered from behind itself.
        Mirror.CoveredBehind(cfg, n, i, k, m.response.value, 1);
      } else if Mirror.Told(Wire(n), 0, k) {
        var q :| 0 <= q < |Wire(n)| && Wire(n)[q] == Changed(k);
        assert q > 0 && Wire(r.node)[q - 1] == Changed(k);
      } else {
        Mirror.CoveredBehind(cfg, n, i, k, LastPrint(s.follower), 0);
      }
    }
  }

  lemma DeliverHealthy(cfg: Config, s: Session, i: nat)
    requires UniqueKeyrefs(cfg) && Healthy(cfg, s, i) && MayMove(cfg, s, Deliver)
    ensures Healthy(cfg, Moved(cfg, s, i, Deliver), i)
  {
    var n := Apply(cfg, s.node, Receive);
    InvStep(cfg, s.node, Receive);
    Mirror.SendOnly(cfg, n, Incoming.Get(cfg.keys[i].keyref));
    Mirror.WirePops(cfg, s.node);
    FirstFrame(cfg, s, i);
    TakenLocated(cfg, s, i);
    TakenValueCovered(cfg, s, i);
    TakenPrintCovered(cfg, s, i);
  }

  // ---- Whole sessions ----

  // The key has been resolved: the connection is quiet, nothing is observed and
  // nothing has been reported.
  predicate Begun(cfg: Config, s: Session)
  {
    && Inv(cfg, s.node) && s.follower == Follower(Resolved, []) && s.trace == []
    && s.node.inbox == [] && !Mirror.Busy(s.node) && Wire(s.node) == []
    && (forall j :: 0 <= j < |s.node.slots| ==> !s.node.slots[j].observed)
    && (forall e :: e in s.node.log ==> !e.Notify?)
  }

  ghost predicate IsSession(cfg: Config, s: Session, i: nat, moves: seq<Move>)
    requires |s.node.slots| == |cfg.keys| && i < |cfg.keys|
    decreases |moves|
  {
    moves != [] ==> MayMove(cfg, s, moves[0]) && IsSession(cfg, Moved(cfg, s, i, moves[0]), i, moves[1..])
  }

  ghost function Played(cfg: Config, s: Session, i: nat, moves: seq<Move>): (r: Session)
    requires |s.node.slots| == |cfg.keys| && i < |cfg.keys| && IsSession(cfg, s, i, moves)
    ensures |r.node.slots| == |cfg.keys|
    decreases |moves|
  {
    if moves == [] then s else Played(cfg, Moved(cfg, s, i, moves[0]), i, moves[1..])
  }

  lemma {:induction false} HealthyOverSessions(cfg: Config, s: Session, i: nat, moves: seq<Move>)
    requires UniqueKeyrefs(cfg) && Healthy(cfg, s, i) && IsSession(cfg, s, i, moves)
    ensures Healthy(cfg, Played(cfg, s, i, moves), i)
    decreases |moves|
  {
    if moves != [] {
      match moves[0] {
        case NodeMove(step) => NodeMoveHealthy(cfg, s, i, step);
        case SendObserve => ObserveHealthy(cfg, s, i);
        case Deliver => DeliverHealthy(cfg, s, i);
      }
      HealthyOverSessions(cfg, Moved(cfg, s, i, moves[0]), i, moves[1..]);
    }
  }

  // Follow mode may throw CHANGED frames away: in every session, once a CHANGED
  // for the key was emitted and everything is idle, the value printed last is
  // the node's, unless the generation wrapped all the way round. And the loop
  // never meets a frame that ends it.
  lemma FollowingPrintsTheLatest(cfg: Config, s0: Session, i: nat, moves: seq<Move>)
    requires UniqueKeyrefs(cfg) && Followable(cfg, i) && Begun(cfg, s0) && IsSession(cfg, s0, i, moves)
    ensures var s := Played(cfg, s0, i, moves);
      && !s.follower.pc.Quit?
      && (AtRest(s.node) && s.node.outbox == [] && s.follower.pc.Following? && Notify(cfg.keys[i].keyref) in s.node.log ==>
            s.follower.printed != [] && (LastPrint(s.follower) == s.node.slots[i].value || Mirror.Wrapped(s.node.slots[i])))
  {
    HealthyOverSessions(cfg, s0, i, moves);
    var s := Played(cfg, s0, i, moves);
    if AtRest(s.node) && s.node.outbox == [] && Notify(cfg.keys[i].keyref) in s.node.log {
      assert Wire(s.node) == [];
      assert !OnItsWay(s.node, i);
      assert SlotOk(cfg, s.node.slots[i], i);
      SameGeneration(s.node.slots[i].count, s.node.slots[i].seenCount);
    }
  }
}
