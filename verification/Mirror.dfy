// The worker's mirror of the node: whatever it shows that is out of date has a
// correction on its way, so at rest it is up to date.
module Mirror {
  import opened Bytes
  import opened Messages
  import opened Requests
  import opened Values
  import opened Node
  import opened NodeInvariant
  import opened NodeHistory
  import opened NodeReplies
  import opened Worker

  // ---- What covers a stale value ----

  // A newer value has been stored and will be counted, or has been counted and
  // not been seen by the server.
  predicate Upcoming(n: State, i: nat)
    requires i < |n.slots|
  {
    || (exists t :: 0 <= t < |n.setters| && n.setters[t] == Stored(i))
    || (n.phase.Writing? && n.phase.stage == Stored(i))
    || n.slots[i].count != n.slots[i].seenCount
  }

  predicate Fresh(n: State, i: nat, v: Value)
    requires i < |n.slots|
  {
    v == n.slots[i].value || Upcoming(n, i)
  }

  // A CHANGED frame for the key is on the wire at `from` or later.
  predicate Told(w: seq<Message>, from: nat, k: u16)
  {
    exists q :: from <= q < |w| && w[q] == Changed(k)
  }

  // A value taken at position `from` of the wire is current or will be
  // corrected.
  predicate Covered(n: State, i: nat, k: u16, v: Value, from: nat)
    requires i < |n.slots|
  {
    Fresh(n, i, v) || Told(Wire(n), from, k)
  }

  // The reply at the front of which the worker will show a value of key k.
  predicate WillShow(c: Client, k: u16, m: Message)
    requires RowFits(c.pc)
  {
    && Shows(c.pc) == Some(k)
    && m.Ordinarily?
    && (m.response.Current? || m.response.Written?)
  }

  function ShownBy(m: Message): (v: Value)
    requires m.Ordinarily? && (m.response.Current? || m.response.Written?)
  {
    m.response.value
  }

  // Every value on the wire for key k is covered from behind it.
  predicate RepliesCovered(s: System, i: nat, k: u16)
    requires i < |s.node.slots| && RowFits(s.client.pc)
  {
    forall p {:trigger Wire(s.node)[p]} :: 0 <= p < |Wire(s.node)| && WillShow(s.client, k, Wire(s.node)[p]) ==>
      Covered(s.node, i, k, ShownBy(Wire(s.node)[p]), p + 1)
  }

  // The worker is about to read key k, or is reading it.
  predicate ReadsNext(c: Client, k: u16)
    requires RowFits(c.pc)
  {
    || c.pc == AwaitObserve(k)
    || c.pc == Reading(k)
    || (Shows(c.pc) == Some(k) && !c.pc.AwaitWritten?)
  }

  predicate MirrorCovered(s: System, i: nat, k: u16)
    requires i < |s.node.slots| && RowFits(s.client.pc)
  {
    || (k in s.client.mirror && Covered(s.node, i, k, s.client.mirror[k], 0))
    || k in s.client.pending
    || k in s.client.changed
    || ReadsNext(s.client, k)
    || k in s.client.dropped
  }

  predicate Tracked(cfg: Config, n: State, i: nat)
    requires |n.slots| == |cfg.keys|
  {
    i < |n.slots| && n.slots[i].observed && cfg.keys[i].perm.readable && cfg.keys[i].keyref < KeyCount(cfg.keys)
  }

  predicate AllCovered(cfg: Config, s: System)
    requires |s.node.slots| == |cfg.keys| && RowFits(s.client.pc)
  {
    forall i :: 0 <= i < |cfg.keys| && Tracked(cfg, s.node, i) ==>
      MirrorCovered(s, i, cfg.keys[i].keyref) && RepliesCovered(s, i, cfg.keys[i].keyref)
  }

  // ---- Where the one outstanding request is ----

  predicate OnlyChanged(w: seq<Message>)
  {
    forall q :: 0 <= q < |w| ==> w[q].Changed?
  }

  predicate Alone(w: seq<Message>, p: nat)
  {
    && p < |w| && !w[p].Changed?
    && forall q :: 0 <= q < |w| && q != p ==> w[q].Changed?
  }

  // The node has a request that it has not answered; it never will when it has
  // stopped.
  predicate Busy(n: State)
  {
    n.phase.Handling? || n.phase.Writing? || n.phase.Stopped?
  }

  predicate BusyWith(n: State, request: Incoming)
  {
    Busy(n) && n.phase.request == request
  }

  // The replies that do not end the connection.
  predicate Expected(pc: Pc, m: Message)
  {
    match pc
    case AwaitObserve(_) => m == Ordinarily(Okay)
    case AwaitPing => m == Ordinarily(Okay)
    case AwaitWritten(_, _) => m.Failed? || (m.Ordinarily? && m.response.Written?)
    case _ => m.Ordinarily? && m.response.Current?
  }

  // The worker asks only what the node will grant.
  predicate AskOk(cfg: Config, pc: Pc)
  {
    match pc
    case AwaitObserve(row) => row < KeyCount(cfg.keys) && PermOf(cfg, row).observable
    case AwaitRead(row) => row < KeyCount(cfg.keys) && PermOf(cfg, row).readable
    case AwaitRefresh(row) => row < KeyCount(cfg.keys) && PermOf(cfg, row).readable
    case AwaitDrain(k) => PermOf(cfg, k).readable
    case Observing(row) => row <= KeyCount(cfg.keys)
    case Reading(row) => row < KeyCount(cfg.keys)
    case Refreshing(row) => row <= KeyCount(cfg.keys)
    case Down => false
    case _ => true
  }

  ghost predicate Located(n: State, pc: Pc)
    requires RowFits(pc)
  {
    match Outstanding(pc)
    case None => n.inbox == [] && !Busy(n) && OnlyChanged(Wire(n))
    case Some(request) =>
      || (n.inbox == [request] && !Busy(n) && OnlyChanged(Wire(n)))
      || (n.inbox == [] && BusyWith(n, request) && OnlyChanged(Wire(n)))
      || (n.inbox == [] && !Busy(n) && exists p: nat :: Alone(Wire(n), p) && Expected(pc, Wire(n)[p]))
  }

  // Rows whose OBSERVE has been answered.
  function ObservedRows(cfg: Config, pc: Pc): (n: nat)
  {
    match pc
    case Observing(row) => row
    case AwaitObserve(row) => row
    case Reading(row) => row + 1
    case AwaitRead(row) => row + 1
    case _ => KeyCount(cfg.keys)
  }

  predicate RowsObserved(cfg: Config, s: System)
    requires |s.node.slots| == |cfg.keys|
  {
    forall i :: 0 <= i < |cfg.keys| && cfg.keys[i].perm.observable ==>
      && (cfg.keys[i].keyref < ObservedRows(cfg, s.client.pc) ==> s.node.slots[i].observed)
      && (s.client.pc == AwaitObserve(cfg.keys[i].keyref) && !OnlyChanged(Wire(s.node)) ==> s.node.slots[i].observed)
  }

  // What holds until the worker itself closes the connection.
  ghost predicate Healthy(cfg: Config, s: System)
  {
    Inv(cfg, s.node) && (!s.client.pc.Down? ==> Linked(cfg, s))
  }

  ghost predicate Linked(cfg: Config, s: System)
  {
    && Inv(cfg, s.node)
    && AskOk(cfg, s.client.pc)
    && RowFits(s.client.pc)
    && Located(s.node, s.client.pc)
    && (Outstanding(s.client.pc).None? ==> s.client.changed == [])
    && RowsObserved(cfg, s)
    && AllCovered(cfg, s)
    && Distinct(s.client.pending) && Distinct(s.client.changed)
  }

  // ---- Node moves ----

  // The answer to a request of the worker is one it expects.
  lemma AnswerExpected(cfg: Config, n: State, pc: Pc)
    requires |n.slots| == |cfg.keys| && RowFits(pc) && AskOk(cfg, pc)
    requires n.phase.Handling? && Outstanding(pc) == Some(n.phase.request)
    ensures WriteTarget(cfg, n.phase.request).None? ==> Expected(pc, Response(cfg, n.slots, n.phase.request))
  {
  }

  lemma WireGrows(w: seq<Message>, m: Message)
    requires OnlyChanged(w)
    ensures m.Changed? ==> OnlyChanged(w + [m])
    ensures !m.Changed? ==> Alone(w + [m], |w|)
  {
  }

  lemma AloneGrows(w: seq<Message>, p: nat, m: Message)
    requires Alone(w, p) && m.Changed?
    ensures Alone(w + [m], p) && (w + [m])[p] == w[p]
  {
  }

  // The frame a step adds to the wire.
  function Added(cfg: Config, n: State, step: Node.Step): (ms: seq<Message>)
    requires |n.slots| == |cfg.keys| && Enabled(cfg, n, step)
  {
    var e := Recorded(cfg, n, step);
    if e.Some? then FramesOf(e.value) else []
  }

  lemma WireOf(cfg: Config, n: State, step: Node.Step)
    requires |n.slots| == |cfg.keys| && Enabled(cfg, n, step) && !step.Receive?
    ensures Wire(Apply(cfg, n, step)) == Wire(n) + Added(cfg, n, step)
  {
    WireMoves(cfg, n, step);
    assert TakenBy(n, step) == [];
    assert [] + Wire(Apply(cfg, n, step)) == Wire(Apply(cfg, n, step));
  }

  lemma LocatedNode(cfg: Config, n: State, pc: Pc, step: Node.Step)
    requires Inv(cfg, n) && RowFits(pc) && AskOk(cfg, pc) && Located(n, pc)
    requires Enabled(cfg, n, step) && !step.Send? && !step.Receive?
    ensures Located(Apply(cfg, n, step), pc)
  {
    var r := Apply(cfg, n, step);
    WireOf(cfg, n, step);
    if step.Handle? {
      LocatedHandle(cfg, n, pc);
    } else if step.WriteNotify? {
      LocatedWritten(cfg, n, pc);
    } else if step.Visit? && Reports(cfg, n, n.phase.next) {
      LocatedReport(n, r, pc, Changed(cfg.keys[n.phase.next].keyref));
    } else {
      BusyMove(cfg, n, step);
    }
  }

  // The other node steps leave the wire alone, and only taking a request moves
  // one.
  lemma BusyMove(cfg: Config, n: State, step: Node.Step)
    requires |n.slots| == |cfg.keys| && Enabled(cfg, n, step) && !step.Send? && !step.Receive?
    requires !step.Handle? && !step.WriteNotify? && !(step.Visit? && Reports(cfg, n, n.phase.next))
    ensures var r := Apply(cfg, n, step);
      && Wire(r) == Wire(n)
      && (!step.TakeRequest? ==> r.inbox == n.inbox && Busy(r) == Busy(n) && (Busy(n) ==> r.phase.request == n.phase.request))
      && (step.TakeRequest? ==> !Busy(n) && n.inbox != [] && r.inbox == n.inbox[1..] && BusyWith(r, n.inbox[0]))
  {
    WireOf(cfg, n, step);
  }

  lemma LocatedWritten(cfg: Config, n: State, pc: Pc)
    requires Inv(cfg, n) && RowFits(pc) && AskOk(cfg, pc) && Located(n, pc) && Enabled(cfg, n, WriteNotify)
    ensures Located(Apply(cfg, n, WriteNotify), pc)
  {
    var r, m := Apply(cfg, n, WriteNotify), Ordinarily(Written(n.phase.value));
    WireOf(cfg, n, WriteNotify);
    WireGrows(Wire(n), m);
    assert n.phase.request.Write? && Expected(pc, m);
    assert Wire(r)[|Wire(n)|] == m;
  }

  lemma LocatedReport(n: State, r: State, pc: Pc, m: Message)
    requires RowFits(pc) && Located(n, pc) && m.Changed? && Wire(r) == Wire(n) + [m]
    requires r.inbox == n.inbox && !Busy(n) && !Busy(r)
    ensures Located(r, pc)
  {
    if OnlyChanged(Wire(n)) {
      WireGrows(Wire(n), m);
    } else {
      var p: nat :| Alone(Wire(n), p) && Expected(pc, Wire(n)[p]);
      AloneGrows(Wire(n), p, m);
    }
  }

  lemma LocatedHandle(cfg: Config, n: State, pc: Pc)
    requires Inv(cfg, n) && RowFits(pc) && AskOk(cfg, pc) && Located(n, pc) && n.phase.Handling?
    ensures Located(Apply(cfg, n, Handle), pc)
  {
    var r := Apply(cfg, n, Handle);
    WireOf(cfg, n, Handle);
    AnswerExpected(cfg, n, pc);
    RepliesAreDefined(cfg, n.slots, n.phase.request);
    var m := Response(cfg, n.slots, n.phase.request);
    if WriteTarget(cfg, n.phase.request).None? && Fits(m) {
      WireGrows(Wire(n), m);
      assert Wire(r)[|Wire(n)|] == m;
    } else {
      assert Wire(r) == Wire(n);
    }
  }

  // Node moves that do not look at slot i on the worker's behalf keep every
  // value of it covered.
  lemma CoveredNode(cfg: Config, n: State, step: Node.Step, i: nat, v: Value, from: nat)
    requires UniqueKeyrefs(cfg) && Inv(cfg, n) && Enabled(cfg, n, step) && !step.Send? && !step.Receive?
    requires i < |n.slots| && n.slots[i].observed && from <= |Wire(n)|
    requires step.Handle? ==> Switches(cfg, n.phase.request) != Some(i)
    requires Covered(n, i, cfg.keys[i].keyref, v, from)
    ensures Covered(Apply(cfg, n, step), i, cfg.keys[i].keyref, v, from)
  {
    var r, k := Apply(cfg, n, step), cfg.keys[i].keyref;
    WireOf(cfg, n, step);
    if Told(Wire(n), from, k) {
      var q :| from <= q < |Wire(n)| && Wire(n)[q] == Changed(k);
      assert Wire(r)[q] == Changed(k);
    } else if step.Visit? && n.phase.next == i && Reports(cfg, n, i) {
      assert Wire(r)[|Wire(n)|] == Changed(k);
    } else if Upcoming(n, i) {
      UpcomingNode(cfg, n, step, i);
    } else {
      ValueNode(cfg, n, step, i);
    }
  }

  lemma UpcomingNode(cfg: Config, n: State, step: Node.Step, i: nat)
    requires Inv(cfg, n) && Enabled(cfg, n, step) && !step.Send? && !step.Receive?
    requires i < |n.slots| && Upcoming(n, i)
    requires step.Handle? ==> Switches(cfg, n.phase.request) != Some(i)
    requires step.Visit? && n.phase.next == i ==> !Reports(cfg, n, i)
    ensures Upcoming(Apply(cfg, n, step), i)
  {
    var r := Apply(cfg, n, step);
    assert SlotOk(cfg, n.slots[i], i);
    if t :| 0 <= t < |n.setters| && n.setters[t] == Stored(i) {
      if !step.SetBump? || step.task != t {
        assert r.setters[t] == Stored(i);
      }
    }
  }

  // A value that is current stays so, or its replacement is upcoming.
  lemma ValueNode(cfg: Config, n: State, step: Node.Step, i: nat)
    requires Inv(cfg, n) && Enabled(cfg, n, step) && !step.Send? && !step.Receive?
    requires i < |n.slots|
    ensures var r := Apply(cfg, n, step); r.slots[i].value == n.slots[i].value || Upcoming(r, i)
  {
    var r := Apply(cfg, n, step);
    match step
    case SetBegin(task, slot, value) =>
      if slot == i {
        assert r.setters[task] == Stored(i);
      }
    case _ =>
  }

  // A reply that carries a value carries the current one, or one whose
  // replacement is upcoming.
  lemma NewReplyCovered(cfg: Config, n: State, step: Node.Step, i: nat, c: Client)
    requires UniqueKeyrefs(cfg) && Inv(cfg, n) && Enabled(cfg, n, step)
    requires step.Handle? || step.WriteNotify?
    requires RowFits(c.pc) && Outstanding(c.pc) == Some(n.phase.request)
    requires i < |n.slots| && Added(cfg, n, step) != [] && WillShow(c, cfg.keys[i].keyref, Added(cfg, n, step)[0])
    ensures Fresh(Apply(cfg, n, step), i, ShownBy(Added(cfg, n, step)[0]))
  {
    FindUnique(cfg, i);
    assert SlotOk(cfg, n.slots[i], i);
  }

  // While a request is handled, it is the worker's outstanding one.
  lemma HandledIsOutstanding(cfg: Config, s: System)
    requires Linked(cfg, s) && Busy(s.node)
    ensures Outstanding(s.client.pc) == Some(s.node.phase.request)
    ensures OnlyChanged(Wire(s.node))
  {
  }

  // The slot an OBSERVE of the worker switches is about to be read, and no
  // value of it is on the wire.
  lemma SwitchedIsReadNext(cfg: Config, s: System, i: nat)
    requires Linked(cfg, s) && s.node.phase.Handling? && Switches(cfg, s.node.phase.request) == Some(i)
    ensures s.client.pc == AwaitObserve(cfg.keys[i].keyref)
  {
    HandledIsOutstanding(cfg, s);
  }

  lemma StillObserved(cfg: Config, s: System, step: Node.Step, i: nat)
    requires Linked(cfg, s) && MayMove(cfg, s, NodeMove(step)) && i < |cfg.keys|
    ensures s.node.slots[i].observed ==> Apply(cfg, s.node, step).slots[i].observed
    ensures Apply(cfg, s.node, step).slots[i].observed && !s.node.slots[i].observed ==>
      step.Handle? && Switches(cfg, s.node.phase.request) == Some(i)
  {
    if step.Handle? {
      HandledIsOutstanding(cfg, s);
    }
  }

  lemma RepliesCoveredNode(cfg: Config, s: System, step: Node.Step, i: nat)
    requires UniqueKeyrefs(cfg) && Linked(cfg, s) && MayMove(cfg, s, NodeMove(step))
    requires i < |cfg.keys| && Tracked(cfg, Apply(cfg, s.node, step), i)
    ensures RepliesCovered(s.(node := Apply(cfg, s.node, step)), i, cfg.keys[i].keyref)
  {
    var n, r, k := s.node, Apply(cfg, s.node, step), cfg.keys[i].keyref;
    WireOf(cfg, n, step);
    StillObserved(cfg, s, step, i);
    forall p {:trigger Wire(r)[p]} | 0 <= p < |Wire(r)| && WillShow(s.client, k, Wire(r)[p])
      ensures Covered(r, i, k, ShownBy(Wire(r)[p]), p + 1)
    {
      if step.Handle? && Switches(cfg, n.phase.request) == Some(i) {
        SwitchedIsReadNext(cfg, s, i);
        assert false;
      } else if p < |Wire(n)| {
        assert Wire(r)[p] == Wire(n)[p];
        assert Tracked(cfg, n, i);
        CoveredNode(cfg, n, step, i, ShownBy(Wire(n)[p]), p + 1);
      } else {
        assert Wire(r)[p] == Added(cfg, n, step)[p - |Wire(n)|];
        assert step.Handle? || step.WriteNotify?;
        HandledIsOutstanding(cfg, s);
        NewReplyCovered(cfg, n, step, i, s.client);
      }
    }
  }

  lemma MirrorCoveredNode(cfg: Config, s: System, step: Node.Step, i: nat)
    requires UniqueKeyrefs(cfg) && Linked(cfg, s) && MayMove(cfg, s, NodeMove(step))
    requires i < |cfg.keys| && Tracked(cfg, Apply(cfg, s.node, step), i)
    ensures MirrorCovered(s.(node := Apply(cfg, s.node, step)), i, cfg.keys[i].keyref)
  {
    var n, k := s.node, cfg.keys[i].keyref;
    StillObserved(cfg, s, step, i);
    if step.Handle? && Switches(cfg, n.phase.request) == Some(i) {
      SwitchedIsReadNext(cfg, s, i);
    } else {
      assert Tracked(cfg, n, i);
      if k in s.client.mirror && Covered(n, i, k, s.client.mirror[k], 0) {
        CoveredNode(cfg, n, step, i, s.client.mirror[k], 0);
      }
    }
  }

  lemma RowsObservedNode(cfg: Config, s: System, step: Node.Step)
    requires UniqueKeyrefs(cfg) && Linked(cfg, s) && MayMove(cfg, s, NodeMove(step))
    ensures RowsObserved(cfg, s.(node := Apply(cfg, s.node, step)))
  {
    var n, r := s.node, Apply(cfg, s.node, step);
    WireOf(cfg, n, step);
    forall i | 0 <= i < |cfg.keys| && cfg.keys[i].perm.observable
      ensures cfg.keys[i].keyref < ObservedRows(cfg, s.client.pc) ==> r.slots[i].observed
      ensures s.client.pc == AwaitObserve(cfg.keys[i].keyref) && !OnlyChanged(Wire(r)) ==> r.slots[i].observed
    {
      StillObserved(cfg, s, step, i);
      if s.client.pc == AwaitObserve(cfg.keys[i].keyref) && OnlyChanged(Wire(n)) && !OnlyChanged(Wire(r)) {
        assert step.Handle? || step.WriteNotify?;
        HandledIsOutstanding(cfg, s);
        FindUnique(cfg, i);
      }
    }
  }

  lemma NodeMoveLinked(cfg: Config, s: System, step: Node.Step)
    requires UniqueKeyrefs(cfg) && Linked(cfg, s) && MayMove(cfg, s, NodeMove(step))
    ensures Linked(cfg, Moved(cfg, s, NodeMove(step)))
  {
    InvStep(cfg, s.node, step);
    LocatedNode(cfg, s.node, s.client.pc, step);
    RowsObservedNode(cfg, s, step);
    forall i | 0 <= i < |cfg.keys| && Tracked(cfg, Apply(cfg, s.node, step), i)
      ensures MirrorCovered(Moved(cfg, s, NodeMove(step)), i, cfg.keys[i].keyref)
      ensures RepliesCovered(Moved(cfg, s, NodeMove(step)), i, cfg.keys[i].keyref)
    {
      MirrorCoveredNode(cfg, s, step, i);
      RepliesCoveredNode(cfg, s, step, i);
    }
  }

  // ---- Worker moves ----

  lemma PermOfSlot(cfg: Config, i: nat)
    requires UniqueKeyrefs(cfg) && i < |cfg.keys| && cfg.keys[i].keyref < KeyCount(cfg.keys)
    ensures PermOf(cfg, cfg.keys[i].keyref) == cfg.keys[i].perm
  {
    FindUnique(cfg, i);
  }

  // Between requests no value is on the wire.
  lemma NothingOnTheWire(s: System, c: Client, i: nat, k: u16)
    requires OnlyChanged(Wire(s.node)) && i < |s.node.slots| && RowFits(c.pc)
    ensures RepliesCovered(s.(client := c), i, k)
  {
  }

  // The one command that makes the worker give up by itself.
  predicate Unencodable(move: Move)
  {
    move.ClientMove? && move.choice.WriteKey? && !Framed(Incoming.Write(move.choice.keyref, move.choice.value))
  }

  lemma ActFits(cfg: Config, c: Client, choice: Choice)
    requires May(c, choice) && AskOk(cfg, c.pc)
    ensures var after := Act(cfg, c, choice);
      && RowFits(after.pc) && (AskOk(cfg, after.pc) || after.pc.Down?)
      && (after.pc.Down? <==> Unencodable(ClientMove(choice)))
      && Outstanding(c.pc).None?
      && Asks(c, after) == Outstanding(after.pc)
      && (Asks(c, after).Some? ==> Framed(Asks(c, after).value))
      && (c.changed == [] ==> after.changed == [])
  {
  }

  lemma ActKeepsMirror(cfg: Config, s: System, choice: Choice, i: nat)
    requires UniqueKeyrefs(cfg) && Linked(cfg, s) && MayMove(cfg, s, ClientMove(choice)) && !Unencodable(ClientMove(choice))
    requires i < |cfg.keys| && Tracked(cfg, s.node, i)
    ensures RowFits(Act(cfg, s.client, choice).pc)
    ensures MirrorCovered(s.(client := Act(cfg, s.client, choice)), i, cfg.keys[i].keyref)
  {
    ActFits(cfg, s.client, choice);
    PermOfSlot(cfg, i);
    assert MirrorCovered(s, i, cfg.keys[i].keyref);
    if choice.Continue? && s.client.pc.Draining? {
      DrainKeepsMirror(cfg, s, i);
    }
  }

  lemma DrainKeepsMirror(cfg: Config, s: System, i: nat)
    requires UniqueKeyrefs(cfg) && Linked(cfg, s) && s.client.pc.Draining?
    requires i < |cfg.keys| && Tracked(cfg, s.node, i)
    ensures MirrorCovered(s.(client := Drain(cfg, s.client)), i, cfg.keys[i].keyref)
  {
    var c, k := s.client, cfg.keys[i].keyref;
    PermOfSlot(cfg, i);
    assert MirrorCovered(s, i, k);
    if c.pending != [] {
      var rest := c.pending[..|c.pending| - 1];
      assert c.pending == rest + [c.pending[|c.pending| - 1]];
    }
  }

  lemma ActKeepsRows(cfg: Config, s: System, choice: Choice)
    requires UniqueKeyrefs(cfg) && Linked(cfg, s) && MayMove(cfg, s, ClientMove(choice)) && !Unencodable(ClientMove(choice))
    ensures RowsObserved(cfg, s.(client := Act(cfg, s.client, choice)))
  {
    var c := Act(cfg, s.client, choice);
    ActFits(cfg, s.client, choice);
    forall i | 0 <= i < |cfg.keys| && cfg.keys[i].perm.observable
      ensures cfg.keys[i].keyref < ObservedRows(cfg, c.pc) ==> s.node.slots[i].observed
    {
      if cfg.keys[i].keyref < KeyCount(cfg.keys) {
        PermOfSlot(cfg, i);
      }
    }
  }

  lemma ActKeepsPending(cfg: Config, c: Client, choice: Choice)
    requires May(c, choice) && Distinct(c.pending) && Distinct(c.changed)
    ensures Distinct(Act(cfg, c, choice).pending) && Distinct(Act(cfg, c, choice).changed)
  {
  }

  // Sending changes nothing but the inbox.
  lemma SendOnly(cfg: Config, n: State, request: Incoming)
    requires Inv(cfg, n) && Framed(request)
    ensures var r := Apply(cfg, n, Send(request));
      && Inv(cfg, r) && Wire(r) == Wire(n) && r.slots == n.slots && r.setters == n.setters && r.phase == n.phase
  {
    InvStep(cfg, n, Send(request));
  }

  lemma ClientMoveLinked(cfg: Config, s: System, choice: Choice)
    requires UniqueKeyrefs(cfg) && Linked(cfg, s) && MayMove(cfg, s, ClientMove(choice)) && !Unencodable(ClientMove(choice))
    ensures Linked(cfg, Moved(cfg, s, ClientMove(choice)))
  {
    var c, r := Act(cfg, s.client, choice), Moved(cfg, s, ClientMove(choice));
    ActFits(cfg, s.client, choice);
    ActKeepsRows(cfg, s, choice);
    ActKeepsPending(cfg, s.client, choice);
    if Asks(s.client, c).Some? {
      SendOnly(cfg, s.node, Asks(s.client, c).value);
    }
    assert Wire(r.node) == Wire(s.node) && r.node.slots == s.node.slots;
    forall i | 0 <= i < |cfg.keys| && Tracked(cfg, r.node, i)
      ensures MirrorCovered(r, i, cfg.keys[i].keyref)
      ensures RepliesCovered(r, i, cfg.keys[i].keyref)
    {
      assert Tracked(cfg, s.node, i);
      ActKeepsMirror(cfg, s, choice, i);
      NothingOnTheWire(s, c, i, cfg.keys[i].keyref);
      SameCover(s.(client := c), r, i, cfg.keys[i].keyref);
    }
  }

  lemma SameCover(s: System, r: System, i: nat, k: u16)
    requires s.client == r.client && RowFits(s.client.pc)
    requires Wire(r.node) == Wire(s.node) && r.node.slots == s.node.slots
    requires r.node.setters == s.node.setters && r.node.phase == s.node.phase
    requires i < |s.node.slots| && MirrorCovered(s, i, k) && RepliesCovered(s, i, k)
    ensures MirrorCovered(r, i, k) && RepliesCovered(r, i, k)
  {
    assert forall v, from: nat :: Covered(s.node, i, k, v, from) == Covered(r.node, i, k, v, from);
  }

  // ---- Deliveries ----

  lemma WirePops(cfg: Config, n: State)
    requires |n.slots| == |cfg.keys| && n.outbox != []
    ensures var r := Apply(cfg, n, Receive);
      && Wire(n) == [n.outbox[0]] + Wire(r)
      && Wire(r) == Wire(n)[1..]
      && r.slots == n.slots && r.setters == n.setters && r.phase == n.phase && r.inbox == n.inbox
  {
    assert n.outbox == [n.outbox[0]] + n.outbox[1..];
  }

  // Taking the first frame off the wire: what covered a value from behind that
  // frame still does.
  lemma CoveredBehind(cfg: Config, n: State, i: nat, k: u16, v: Value, from: nat)
    requires |n.slots| == |cfg.keys| && n.outbox != [] && i < |n.slots|
    requires Covered(n, i, k, v, from) && (from == 0 ==> n.outbox[0] != Changed(k))
    ensures Covered(Apply(cfg, n, Receive), i, k, v, if from == 0 then 0 else from - 1)
  {
    var r := Apply(cfg, n, Receive);
    WirePops(cfg, n);
    if Told(Wire(n), from, k) {
      var q :| from <= q < |Wire(n)| && Wire(n)[q] == Changed(k);
      assert Wire(r)[q - 1] == Changed(k);
    } else if t :| 0 <= t < |n.setters| && n.setters[t] == Stored(i) {
      assert r.setters[t] == Stored(i);
    }
  }

  // The first frame is a CHANGED frame, or the expected reply.
  lemma FirstFrame(cfg: Config, s: System)
    requires Linked(cfg, s) && MayMove(cfg, s, Deliver)
    ensures var m := s.node.outbox[0];
      && Wire(s.node)[0] == m
      && (!m.Changed? ==> Outstanding(s.client.pc).Some? && Expected(s.client.pc, m) && Alone(Wire(s.node), 0)
                          && !Busy(s.node) && s.node.inbox == [])
  {
    WirePops(cfg, s.node);
  }

  lemma OnlyChangedPops(w: seq<Message>)
    requires w != [] && OnlyChanged(w)
    ensures OnlyChanged(w[1..])
  {
  }

  lemma AlonePops(w: seq<Message>, p: nat)
    requires Alone(w, p)
    ensures p == 0 ==> OnlyChanged(w[1..])
    ensures p > 0 ==> Alone(w[1..], p - 1) && w[1..][p - 1] == w[p]
  {
  }

  lemma DeliverLocated(cfg: Config, s: System)
    requires Linked(cfg, s) && MayMove(cfg, s, Deliver)
    ensures var c := OnMessage(s.client, s.node.outbox[0]);
      && RowFits(c.pc) && AskOk(cfg, c.pc)
      && Located(Apply(cfg, s.node, Receive), c.pc)
      && (Outstanding(c.pc).None? ==> c.changed == [])
  {
    var n, pc := s.node, s.client.pc;
    var r, m := Apply(cfg, n, Receive), n.outbox[0];
    WirePops(cfg, n);
    FirstFrame(cfg, s);
    if !m.Changed? {
      AlonePops(Wire(n), 0);
    } else if OnlyChanged(Wire(n)) {
      OnlyChangedPops(Wire(n));
    } else {
      var p: nat :| Alone(Wire(n), p) && Expected(pc, Wire(n)[p]);
      AlonePops(Wire(n), p);
      assert Expected(pc, Wire(r)[p - 1]);
    }
  }

  lemma DeliverReplies(cfg: Config, s: System, i: nat)
    requires UniqueKeyrefs(cfg) && Linked(cfg, s) && MayMove(cfg, s, Deliver)
    requires i < |cfg.keys| && Tracked(cfg, s.node, i)
    ensures RowFits(Moved(cfg, s, Deliver).client.pc)
    ensures RepliesCovered(Moved(cfg, s, Deliver), i, cfg.keys[i].keyref)
  {
    var n, r, k := s.node, Moved(cfg, s, Deliver), cfg.keys[i].keyref;
    WirePops(cfg, n);
    FirstFrame(cfg, s);
    DeliverLocated(cfg, s);
    forall p {:trigger Wire(r.node)[p]} | 0 <= p < |Wire(r.node)| && WillShow(r.client, k, Wire(r.node)[p])
      ensures Covered(r.node, i, k, ShownBy(Wire(r.node)[p]), p + 1)
    {
      assert Wire(r.node)[p] == Wire(n)[p + 1];
      assert n.outbox[0].Changed?;
      assert WillShow(s.client, k, Wire(n)[p + 1]);
      CoveredBehind(cfg, n, i, k, ShownBy(Wire(n)[p + 1]), p + 2);
    }
  }

  lemma ShownIsCovered(cfg: Config, s: System, i: nat)
    requires UniqueKeyrefs(cfg) && Linked(cfg, s) && MayMove(cfg, s, Deliver)
    requires i < |cfg.keys| && Tracked(cfg, s.node, i)
    requires WillShow(s.client, cfg.keys[i].keyref, s.node.outbox[0])
    ensures Covered(Apply(cfg, s.node, Receive), i, cfg.keys[i].keyref, ShownBy(s.node.outbox[0]), 0)
  {
    FirstFrame(cfg, s);
    assert WillShow(s.client, cfg.keys[i].keyref, Wire(s.node)[0]);
    CoveredBehind(cfg, s.node, i, cfg.keys[i].keyref, ShownBy(s.node.outbox[0]), 1);
  }

  lemma DeliverMirror(cfg: Config, s: System, i: nat)
    requires UniqueKeyrefs(cfg) && Linked(cfg, s) && MayMove(cfg, s, Deliver)
    requires i < |cfg.keys| && Tracked(cfg, s.node, i)
    ensures RowFits(Moved(cfg, s, Deliver).client.pc)
    ensures MirrorCovered(Moved(cfg, s, Deliver), i, cfg.keys[i].keyref)
  {
    var c, m, k := s.client, s.node.outbox[0], cfg.keys[i].keyref;
    FirstFrame(cfg, s);
    DeliverLocated(cfg, s);
    MergeKeepsDistinct(c.pending, c.changed);
    assert MirrorCovered(s, i, k);
    if WillShow(c, k, m) {
      ShownIsCovered(cfg, s, i);
    } else if m != Changed(k) && k in c.mirror && Covered(s.node, i, k, c.mirror[k], 0) {
      CoveredBehind(cfg, s.node, i, k, c.mirror[k], 0);
    }
  }

  lemma DeliverRows(cfg: Config, s: System)
    requires UniqueKeyrefs(cfg) && Linked(cfg, s) && MayMove(cfg, s, Deliver)
    ensures RowsObserved(cfg, Moved(cfg, s, Deliver))
  {
    var r := Moved(cfg, s, Deliver);
    WirePops(cfg, s.node);
    FirstFrame(cfg, s);
    DeliverLocated(cfg, s);
    forall i | 0 <= i < |cfg.keys| && cfg.keys[i].perm.observable
      ensures cfg.keys[i].keyref < ObservedRows(cfg, r.client.pc) ==> r.node.slots[i].observed
      ensures r.client.pc == AwaitObserve(cfg.keys[i].keyref) && !OnlyChanged(Wire(r.node)) ==> r.node.slots[i].observed
    {
      if OnlyChanged(Wire(s.node)) {
        OnlyChangedPops(Wire(s.node));
      }
    }
  }

  lemma DeliverKeepsDistinct(c: Client, m: Message)
    requires RowFits(c.pc) && Distinct(c.pending) && Distinct(c.changed)
    ensures Distinct(OnMessage(c, m).pending) && Distinct(OnMessage(c, m).changed)
  {
    MergeKeepsDistinct(c.pending, c.changed);
  }

  lemma DeliverLinked(cfg: Config, s: System)
    requires UniqueKeyrefs(cfg) && Linked(cfg, s) && MayMove(cfg, s, Deliver)
    ensures Linked(cfg, Moved(cfg, s, Deliver))
  {
    InvStep(cfg, s.node, Receive);
    DeliverLocated(cfg, s);
    DeliverRows(cfg, s);
    DeliverKeepsDistinct(s.client, s.node.outbox[0]);
    WirePops(cfg, s.node);
    forall i | 0 <= i < |cfg.keys| && Tracked(cfg, Moved(cfg, s, Deliver).node, i)
      ensures MirrorCovered(Moved(cfg, s, Deliver), i, cfg.keys[i].keyref)
      ensures RepliesCovered(Moved(cfg, s, Deliver), i, cfg.keys[i].keyref)
    {
      assert Tracked(cfg, s.node, i);
      DeliverMirror(cfg, s, i);
      DeliverReplies(cfg, s, i);
    }
  }

  // ---- Whole runs ----

  // The keys have been listed: the connection is quiet and nothing is observed.
  ghost predicate Begun(cfg: Config, s: System)
  {
    && Inv(cfg, s.node) && s.client == START
    && s.node.inbox == [] && !Busy(s.node) && Wire(s.node) == []
    && forall i :: 0 <= i < |s.node.slots| ==> !s.node.slots[i].observed
  }

  // A new connection is such a start.
  lemma ConnectedBegins(cfg: Config, s: System)
    requires Connected(cfg, s.node) && s.client == START
    ensures Begun(cfg, s)
  {
    InitialInv(cfg, s.node);
  }

  lemma BegunHealthy(cfg: Config, s: System)
    requires Begun(cfg, s)
    ensures Healthy(cfg, s)
  {
  }

  lemma MoveHealthy(cfg: Config, s: System, move: Move)
    requires UniqueKeyrefs(cfg) && Healthy(cfg, s) && MayMove(cfg, s, move)
    ensures Healthy(cfg, Moved(cfg, s, move))
    ensures Moved(cfg, s, move).client.pc.Down? <==> s.client.pc.Down? || Unencodable(move)
  {
    match move {
      case NodeMove(step) =>
        InvStep(cfg, s.node, step);
        if !s.client.pc.Down? {
          NodeMoveLinked(cfg, s, step);
        }
      case ClientMove(choice) =>
        ActFits(cfg, s.client, choice);
        if !Unencodable(move) {
          ClientMoveLinked(cfg, s, choice);
        }
      case Deliver => DeliverLinked(cfg, s);
    }
  }

  lemma {:induction false} HealthyOverPlays(cfg: Config, s: System, moves: seq<Move>)
    requires UniqueKeyrefs(cfg) && Healthy(cfg, s) && IsPlay(cfg, s, moves)
    ensures Healthy(cfg, Played(cfg, s, moves))
    ensures Played(cfg, s, moves).client.pc.Down? <==>
      s.client.pc.Down? || exists j :: 0 <= j < |moves| && Unencodable(moves[j])
    decreases |moves|
  {
    if moves != [] {
      MoveHealthy(cfg, s, moves[0]);
      HealthyOverPlays(cfg, Moved(cfg, s, moves[0]), moves[1..]);
    }
  }

  // Both channels are empty, the node is at rest and the worker waits for
  // unsolicited frames with nothing left to work off.
  predicate AllIdle(s: System)
  {
    AtRest(s.node) && s.node.outbox == [] && s.client.pc == Listening && s.client.pending == []
  }

  // The server's last look at the key missed a whole multiple of 2^32 updates.
  predicate Wrapped(slot: Slot)
  {
    slot.seenCount < slot.count && (slot.count - slot.seenCount) % GENERATIONS == 0
  }

  // Mirror convergence: in every run, whenever everything is idle, the mirrored
  // value of a readable and observable key is the node's, unless the key's
  // CHANGED was thrown away with a rejected WRITE and the key not read since, or
  // its generation wrapped all the way round between two looks.
  lemma MirrorConverges(cfg: Config, s0: System, moves: seq<Move>, i: nat)
    requires UniqueKeyrefs(cfg) && Begun(cfg, s0) && IsPlay(cfg, s0, moves)
    requires AllIdle(Played(cfg, s0, moves)) && i < |cfg.keys|
    requires cfg.keys[i].perm.readable && cfg.keys[i].perm.observable && cfg.keys[i].keyref != 0xFFFF
    ensures var s, k := Played(cfg, s0, moves), cfg.keys[i].keyref;
      || (k in s.client.mirror && s.client.mirror[k] == s.node.slots[i].value)
      || k in s.client.dropped
      || Wrapped(s.node.slots[i])
  {
    BegunHealthy(cfg, s0);
    HealthyOverPlays(cfg, s0, moves);
    IdleIsCovered(cfg, Played(cfg, s0, moves), i);
  }

  // At rest the server's last look at an observed key saw its generation.
  lemma IdleIsSeen(cfg: Config, n: State, i: nat)
    requires Inv(cfg, n) && AtRest(n) && i < |n.slots| && n.slots[i].observed
    ensures n.slots[i].gen == n.slots[i].seen
    ensures n.slots[i].count == n.slots[i].seenCount || Wrapped(n.slots[i])
  {
    assert !OnItsWay(n, i);
    assert SlotOk(cfg, n.slots[i], i);
    SameGeneration(n.slots[i].count, n.slots[i].seenCount);
  }

  lemma IdleIsCovered(cfg: Config, s: System, i: nat)
    requires Linked(cfg, s) && AllIdle(s) && i < |cfg.keys|
    requires cfg.keys[i].perm.readable && cfg.keys[i].perm.observable && cfg.keys[i].keyref != 0xFFFF
    ensures Tracked(cfg, s.node, i)
    ensures var k := cfg.keys[i].keyref;
      || (k in s.client.mirror && s.client.mirror[k] == s.node.slots[i].value)
      || k in s.client.dropped
      || Wrapped(s.node.slots[i])
  {
    assert Tracked(cfg, s.node, i);
    assert MirrorCovered(s, i, cfg.keys[i].keyref);
    assert Wire(s.node) == [];
    IdleIsSeen(cfg, s.node, i);
  }

  // No ERROR for a WRITE arrives while collected keyrefs wait to be merged.
  ghost predicate NothingThrownAway(cfg: Config, s: System, moves: seq<Move>)
    requires |s.node.slots| == |cfg.keys| && IsPlay(cfg, s, moves)
    decreases |moves|
  {
    moves != [] ==>
      && (moves[0].Deliver? && s.client.pc.AwaitWritten? && s.node.outbox[0].Failed? ==> s.client.changed == [])
      && NothingThrownAway(cfg, Moved(cfg, s, moves[0]), moves[1..])
  }

  lemma {:induction false} NothingDropped(cfg: Config, s: System, moves: seq<Move>)
    requires |s.node.slots| == |cfg.keys| && IsPlay(cfg, s, moves)
    requires NothingThrownAway(cfg, s, moves) && s.client.dropped == {}
    ensures Played(cfg, s, moves).client.dropped == {}
    decreases |moves|
  {
    if moves != [] {
      NothingDropped(cfg, Moved(cfg, s, moves[0]), moves[1..]);
    }
  }

  // With neither exception, the mirror of every readable and observable key is
  // exact whenever everything is idle.
  lemma MirrorIsExact(cfg: Config, s0: System, moves: seq<Move>, i: nat)
    requires UniqueKeyrefs(cfg) && Begun(cfg, s0) && IsPlay(cfg, s0, moves)
    requires NothingThrownAway(cfg, s0, moves) && AllIdle(Played(cfg, s0, moves)) && i < |cfg.keys|
    requires cfg.keys[i].perm.readable && cfg.keys[i].perm.observable && cfg.keys[i].keyref != 0xFFFF
    requires var slot := Played(cfg, s0, moves).node.slots[i]; slot.count - slot.seenCount < GENERATIONS
    ensures var s, k := Played(cfg, s0, moves), cfg.keys[i].keyref;
      k in s.client.mirror && s.client.mirror[k] == s.node.slots[i].value
  {
    MirrorConverges(cfg, s0, moves, i);
    NothingDropped(cfg, s0, moves);
  }

  // The worker never meets a frame it does not expect: it closes the connection
  // if and only if it is told to write a value that cannot be encoded. Its work
  // list never holds a keyref twice.
  lemma WorkerNeverSurprised(cfg: Config, s0: System, moves: seq<Move>)
    requires UniqueKeyrefs(cfg) && Begun(cfg, s0) && IsPlay(cfg, s0, moves)
    ensures var s := Played(cfg, s0, moves);
      && (s.client.pc.Down? <==> exists j :: 0 <= j < |moves| && Unencodable(moves[j]))
      && (!s.client.pc.Down? ==> Distinct(s.client.pending) && Distinct(s.client.changed))
      && (s.client.pc.Listening? ==> OnlyChanged(s.node.outbox))
  {
    BegunHealthy(cfg, s0);
    HealthyOverPlays(cfg, s0, moves);
    var s := Played(cfg, s0, moves);
    assert s.client.pc.Listening? ==> forall q :: 0 <= q < |s.node.outbox| ==> Wire(s.node)[q] == s.node.outbox[q];
  }
}
