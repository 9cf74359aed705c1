// What follow mode prints, print by print: against the frames it took, and
// against the history of the node.
module FollowPrints {
  import opened Bytes
  import opened Messages
  import opened Requests
  import opened Values
  import opened Node
  import opened NodeInvariant
  import opened NodeHistory
  import opened NodeReplies
  import opened NodeValues
  import opened Follow
  import opened WorkerLoop
  import Mirror

  // ---- In what was sent and taken ----

  predicate IsValue(m: Message)
  {
    m.Ordinarily? && m.response.Current?
  }

  function FramesTaken(trace: seq<Traffic>): (ms: seq<Message>)
  {
    if trace == [] then []
    else
      var last := trace[|trace| - 1];
      FramesTaken(trace[..|trace| - 1]) + (if last.Arrived? then [last.message] else [])
  }

  // The values of the VALUE frames taken, in order.
  function ValuesTaken(trace: seq<Traffic>): (vs: seq<Value>)
  {
    if trace == [] then []
    else
      var last := trace[|trace| - 1];
      ValuesTaken(trace[..|trace| - 1]) + (if last.Arrived? && IsValue(last.message) then [last.message.response.value] else [])
  }

  function Gets(trace: seq<Traffic>, k: u16): (n: nat)
  {
    if trace == [] then 0
    else Gets(trace[..|trace| - 1], k) + (if trace[|trace| - 1] == Sent(Incoming.Get(k)) then 1 else 0)
  }

  // The OBSERVE has been accepted, and every GET answered.
  predicate Listens(trace: seq<Traffic>, k: u16)
  {
    Arrived(Ordinarily(Okay)) in trace && Gets(trace, k) == |ValuesTaken(trace)|
  }

  // A GET is sent at once for every CHANGED of the key that is taken while the
  // follower listens, and for nothing else.
  ghost predicate GetsAnswerChanges(trace: seq<Traffic>, k: u16)
  {
    && (trace != [] ==> trace[0] == Sent(Incoming.Observe(k)))
    && forall p {:trigger trace[p]} :: 0 <= p < |trace| ==>
         (p + 1 < |trace| && trace[p + 1] == Sent(Incoming.Get(k)) <==>
           trace[p] == Arrived(Changed(k)) && Listens(trace[..p], k))
  }

  lemma TraceGrows(trace: seq<Traffic>, t: Traffic, k: u16)
    ensures var more := trace + [t];
      && FramesTaken(more) == FramesTaken(trace) + (if t.Arrived? then [t.message] else [])
      && ValuesTaken(more) == ValuesTaken(trace) + (if t.Arrived? && IsValue(t.message) then [t.message.response.value] else [])
      && Gets(more, k) == Gets(trace, k) + (if t == Sent(Incoming.Get(k)) then 1 else 0)
      && (forall u :: u in more <==> u in trace || u == t)
  {
    assert (trace + [t])[..|trace|] == trace;
  }

  // One item that neither asks for a GET nor is one.
  lemma GetsKeptByOne(trace: seq<Traffic>, t: Traffic, k: u16)
    requires trace != [] && GetsAnswerChanges(trace, k) && t != Sent(Incoming.Get(k))
    requires !(t == Arrived(Changed(k)) && Listens(trace, k))
    ensures GetsAnswerChanges(trace + [t], k)
  {
    var more := trace + [t];
    forall p {:trigger more[p]} | 0 <= p < |more|
      ensures p + 1 < |more| && more[p + 1] == Sent(Incoming.Get(k)) <==> more[p] == Arrived(Changed(k)) && Listens(more[..p], k)
    {
      if p < |trace| {
        assert more[p] == trace[p] && more[..p] == trace[..p];
      } else {
        assert more[..p] == trace;
      }
    }
  }

  // A CHANGED of the key while the follower listens, and the GET for it.
  lemma GetsKeptByTwo(trace: seq<Traffic>, k: u16)
    requires trace != [] && GetsAnswerChanges(trace, k) && Listens(trace, k)
    ensures GetsAnswerChanges(trace + [Arrived(Changed(k))] + [Sent(Incoming.Get(k))], k)
  {
    var more := trace + [Arrived(Changed(k))] + [Sent(Incoming.Get(k))];
    forall p {:trigger more[p]} | 0 <= p < |more|
      ensures p + 1 < |more| && more[p + 1] == Sent(Incoming.Get(k)) <==> more[p] == Arrived(Changed(k)) && Listens(more[..p], k)
    {
      if p < |trace| {
        assert more[p] == trace[p] && more[..p] == trace[..p];
      } else if p == |trace| {
        assert more[..p] == trace;
      }
    }
  }

  ghost predicate TraceOk(f: Follower, trace: seq<Traffic>, k: u16)
  {
    && f.printed == ValuesTaken(trace)
    && Gets(trace, k) == |f.printed| + (if f.pc.AwaitValue? then 1 else 0)
    && (f.pc.Resolved? <==> trace == [])
    && (Arrived(Ordinarily(Okay)) in trace <==> f.pc.Following? || f.pc.AwaitValue?)
    && GetsAnswerChanges(trace, k)
  }

  // The frames a follower meets.
  predicate Meets(f: Follower, m: Message)
  {
    match f.pc
    case AwaitOk => m == Ordinarily(Okay)
    case Following => m.Changed?
    case AwaitValue => m.Changed? || IsValue(m)
    case _ => false
  }

  lemma MeetsOnlyThese(cfg: Config, s: Session, i: nat)
    requires UniqueKeyrefs(cfg) && Healthy(cfg, s, i) && MayMove(cfg, s, Deliver)
    ensures Meets(s.follower, s.node.outbox[0])
  {
    FirstFrame(cfg, s, i);
  }

  lemma TraceTakes(f: Follower, trace: seq<Traffic>, k: u16, m: Message)
    requires TraceOk(f, trace, k) && Meets(f, m) && !(f.pc.Following? && m == Changed(k))
    ensures TraceOk(OnMessage(f, k, m), trace + [Arrived(m)], k)
    ensures OnMessage(f, k, m).pc.AwaitValue? ==> f.pc.AwaitValue?
  {
    TraceGrows(trace, Arrived(m), k);
    GetsKeptByOne(trace, Arrived(m), k);
  }

  lemma TraceAsks(f: Follower, trace: seq<Traffic>, k: u16)
    requires TraceOk(f, trace, k) && f.pc.Following?
    ensures OnMessage(f, k, Changed(k)) == f.(pc := AwaitValue)
    ensures TraceOk(f.(pc := AwaitValue), trace + [Arrived(Changed(k))] + [Sent(Incoming.Get(k))], k)
  {
    TraceGrows(trace, Arrived(Changed(k)), k);
    TraceGrows(trace + [Arrived(Changed(k))], Sent(Incoming.Get(k)), k);
    GetsKeptByTwo(trace, k);
  }

  lemma TraceMove(cfg: Config, s: Session, i: nat, move: Move)
    requires UniqueKeyrefs(cfg) && Healthy(cfg, s, i) && MayMove(cfg, s, move)
    requires TraceOk(s.follower, s.trace, cfg.keys[i].keyref)
    ensures var r := Moved(cfg, s, i, move); TraceOk(r.follower, r.trace, cfg.keys[i].keyref)
  {
    var k := cfg.keys[i].keyref;
    match move {
      case NodeMove(_) =>
      case SendObserve => TraceGrows([], Sent(Incoming.Observe(k)), k);
      case Deliver =>
        MeetsOnlyThese(cfg, s, i);
        if s.follower.pc.Following? && s.node.outbox[0] == Changed(k) {
          TraceAsks(s.follower, s.trace, k);
        } else {
          TraceTakes(s.follower, s.trace, k, s.node.outbox[0]);
        }
    }
  }

  // ---- In the history of the node ----

  predicate GivesValue(e: Event)
  {
    e.Reply? && IsValue(e.frame)
  }

  // The key was reported, and no value has been given since.
  predicate FreshlyReported(log: seq<Event>, k: u16)
  {
    exists a :: 0 <= a < |log| && log[a] == Notify(k) && forall b :: a < b < |log| ==> !GivesValue(log[b])
  }

  // Every value given answers a GET of the key, after a new report of it.
  ghost predicate ValuesAnswerReports(log: seq<Event>, k: u16)
  {
    forall b {:trigger log[b]} :: 0 <= b < |log| && GivesValue(log[b]) ==>
      log[b].request == Incoming.Get(k) && FreshlyReported(log[..b], k)
  }

  // A CHANGED of the key that no reply follows on the wire, and the GET sent for
  // one, are behind such a report.
  predicate Backed(s: Session, log: seq<Event>, k: u16)
  {
    var w := Wire(s.node);
    && (forall q {:trigger w[q]} :: 0 <= q < |w| && w[q] == Changed(k) && (forall r :: q < r < |w| ==> w[r].Changed?) ==>
          FreshlyReported(log, k))
    && (s.follower.pc.AwaitValue? && Mirror.OnlyChanged(w) ==> FreshlyReported(log, k))
  }

  lemma ReportGrows(log: seq<Event>, e: Event, k: u16)
    requires (FreshlyReported(log, k) && !GivesValue(e)) || e == Notify(k)
    ensures FreshlyReported(log + [e], k)
  {
    var more := log + [e];
    if e == Notify(k) {
      assert more[|log|] == Notify(k);
    } else {
      var a :| 0 <= a < |log| && log[a] == Notify(k) && forall b :: a < b < |log| ==> !GivesValue(log[b]);
      assert more[a] == Notify(k);
    }
  }

  lemma ValuesGrow(log: seq<Event>, e: Event, k: u16)
    requires ValuesAnswerReports(log, k)
    requires GivesValue(e) ==> e.request == Incoming.Get(k) && FreshlyReported(log, k)
    ensures ValuesAnswerReports(log + [e], k)
  {
    var more := log + [e];
    forall b {:trigger more[b]} | 0 <= b < |more| && GivesValue(more[b])
      ensures more[b].request == Incoming.Get(k) && FreshlyReported(more[..b], k)
    {
      if b < |log| {
        assert more[b] == log[b] && more[..b] == log[..b];
      } else {
        assert more[..b] == log;
      }
    }
  }

  lemma BackedNode(cfg: Config, s: Session, i: nat, step: Node.Step, log: seq<Event>)
    requires UniqueKeyrefs(cfg) && Healthy(cfg, s, i) && MayMove(cfg, s, NodeMove(step))
    requires Backed(s, log, cfg.keys[i].keyref) && ValuesAnswerReports(log, cfg.keys[i].keyref)
    ensures var after := LogAfter(cfg, s.node, step, log);
      Backed(s.(node := Apply(cfg, s.node, step)), after, cfg.keys[i].keyref) && ValuesAnswerReports(after, cfg.keys[i].keyref)
  {
    var n, r, k, e := s.node, Apply(cfg, s.node, step), cfg.keys[i].keyref, Recorded(cfg, s.node, step);
    var w, after := Wire(n), Wire(r);
    Mirror.WireOf(cfg, n, step);
    if e.None? {
      assert after == w;
    } else {
      if e.value.Reply? {
        ReplyIsOurs(cfg, s, i, step);
      }
      ValuesGrow(log, e.value, k);
      if (FreshlyReported(log, k) && !GivesValue(e.value)) || e.value == Notify(k) {
        ReportGrows(log, e.value, k);
      } else {
        BackedWithout(w, after, Mirror.Added(cfg, n, step), k);
      }
    }
  }

  // Where nothing was reported, neither is anything on the wire.
  lemma BackedWithout(w: seq<Message>, after: seq<Message>, added: seq<Message>, k: u16)
    requires after == w + added && |added| <= 1 && (added != [] ==> added[0] != Changed(k))
    ensures forall q :: 0 <= q < |after| && after[q] == Changed(k) && (forall r :: q < r < |after| ==> after[r].Changed?) ==>
      w[q] == Changed(k) && (forall r :: q < r < |w| ==> w[r].Changed?) && (added != [] ==> added[0].Changed?)
    ensures Mirror.OnlyChanged(after) ==> Mirror.OnlyChanged(w) && (added != [] ==> added[0].Changed?)
  {
    assert forall q :: 0 <= q < |w| ==> after[q] == w[q];
    if added != [] {
      assert after[|w|] == added[0];
    }
  }

  lemma ReplyIsOurs(cfg: Config, s: Session, i: nat, step: Node.Step)
    requires UniqueKeyrefs(cfg) && Healthy(cfg, s, i) && MayMove(cfg, s, NodeMove(step))
    requires Recorded(cfg, s.node, step).Some? && Recorded(cfg, s.node, step).value.Reply?
    ensures var e := Recorded(cfg, s.node, step).value;
      && Mirror.OnlyChanged(Wire(s.node)) && !e.frame.Changed?
      && (GivesValue(e) ==> s.follower.pc.AwaitValue? && e.request == Incoming.Get(cfg.keys[i].keyref))
  {
    HandledIsOurs(cfg, s, i);
    FindUnique(cfg, i);
    RepliesAreDefined(cfg, s.node.slots, s.node.phase.request);
  }

  lemma BackedDeliver(cfg: Config, s: Session, i: nat, log: seq<Event>)
    requires UniqueKeyrefs(cfg) && Healthy(cfg, s, i) && MayMove(cfg, s, Deliver)
    requires Backed(s, log, cfg.keys[i].keyref)
    ensures Backed(Moved(cfg, s, i, Deliver), log, cfg.keys[i].keyref)
  {
    var n, k, r := s.node, cfg.keys[i].keyref, Moved(cfg, s, i, Deliver);
    var w, after := Wire(n), Wire(r.node);
    Mirror.WirePops(cfg, n);
    FirstFrame(cfg, s, i);
    assert forall q :: 0 <= q < |after| ==> after[q] == w[q + 1];
    forall q {:trigger after[q]} | 0 <= q < |after| && after[q] == Changed(k) && (forall r :: q < r < |after| ==> after[r].Changed?)
      ensures FreshlyReported(log, k)
    {
      assert w[q + 1] == Changed(k);
      assert forall r :: q + 1 < r < |w| ==> w[r] == after[r - 1];
    }
    if r.follower.pc.AwaitValue? && Mirror.OnlyChanged(after) {
      assert w[0] == n.outbox[0];
      assert forall r :: 0 < r < |w| ==> w[r] == after[r - 1];
    }
  }

  // ---- Whole sessions ----

  ghost predicate Explained(cfg: Config, s: Session, i: nat, log: seq<Event>, before: Value)
    requires i < |s.node.slots| == |cfg.keys|
  {
    var k := cfg.keys[i].keyref;
    && Healthy(cfg, s, i)
    && TraceOk(s.follower, s.trace, k)
    && FramesTaken(s.trace) + Wire(s.node) == NodeReplies.Frames(log)
    && Remembered(s.node, log, before, i, k) && AllAnswersHeld(before, log, i, k)
    && Backed(s, log, k) && ValuesAnswerReports(log, k)
  }

  function LogOf(cfg: Config, s: Session, move: Move, log: seq<Event>): (r: seq<Event>)
    requires |s.node.slots| == |cfg.keys| && MayMove(cfg, s, move)
  {
    if move.NodeMove? then LogAfter(cfg, s.node, move.step, log) else log
  }

  // The frames taken, followed by those on the wire, are those decided.
  lemma TakenMove(cfg: Config, s: Session, i: nat, move: Move, log: seq<Event>)
    requires Healthy(cfg, s, i) && MayMove(cfg, s, move)
    requires FramesTaken(s.trace) + Wire(s.node) == NodeReplies.Frames(log)
    ensures var r := Moved(cfg, s, i, move);
      FramesTaken(r.trace) + Wire(r.node) == NodeReplies.Frames(LogOf(cfg, s, move, log))
  {
    var k, taken, w := cfg.keys[i].keyref, FramesTaken(s.trace), Wire(s.node);
    match move {
      case NodeMove(step) =>
        Mirror.WireOf(cfg, s.node, step);
        if Recorded(cfg, s.node, step).Some? {
          LogsGrow(log, Recorded(cfg, s.node, step).value);
        }
        Assoc(taken, w, Mirror.Added(cfg, s.node, step));
      case SendObserve => TraceGrows(s.trace, Sent(Incoming.Observe(k)), k);
      case Deliver =>
        var m := s.node.outbox[0];
        Mirror.WirePops(cfg, s.node);
        TraceGrows(s.trace, Arrived(m), k);
        TraceGrows(s.trace + [Arrived(m)], Sent(Incoming.Get(k)), k);
        Assoc(taken, [m], w[1..]);
        assert (taken + [m]) + [] == taken + [m];
    }
  }

  lemma ExplainedMove(cfg: Config, s: Session, i: nat, move: Move, log: seq<Event>, before: Value)
    requires UniqueKeyrefs(cfg) && |s.node.slots| == |cfg.keys| && i < |cfg.keys|
    requires Explained(cfg, s, i, log, before) && MayMove(cfg, s, move)
    ensures Explained(cfg, Moved(cfg, s, i, move), i, LogOf(cfg, s, move, log), before)
  {
    var k := cfg.keys[i].keyref;
    TraceMove(cfg, s, i, move);
    TakenMove(cfg, s, i, move, log);
    match move {
      case NodeMove(step) =>
        NodeMoveHealthy(cfg, s, i, step);
        BackedNode(cfg, s, i, step, log);
        RememberedStep(cfg, s.node, step, log, before, i);
        if Recorded(cfg, s.node, step).Some? {
          OneMoreAnswer(before, log, Recorded(cfg, s.node, step).value, i, k);
        }
      case SendObserve => ObserveHealthy(cfg, s, i);
      case Deliver =>
        DeliverHealthy(cfg, s, i);
        BackedDeliver(cfg, s, i, log);
    }
  }

  lemma LogFollows(cfg: Config, s: Session, i: nat, move: Move, front: seq<Event>, log: seq<Event>)
    requires |s.node.slots| == |cfg.keys| && i < |cfg.keys| && MayMove(cfg, s, move) && s.node.log == front + log
    ensures Moved(cfg, s, i, move).node.log == front + LogOf(cfg, s, move, log)
  {
    if move.NodeMove? {
      RecordedIsAppended(cfg, s.node, move.step);
    }
  }

  lemma {:induction false} ExplainedOverSessions(cfg: Config, s: Session, i: nat, moves: seq<Move>, front: seq<Event>,
                                                 log: seq<Event>, before: Value)
      returns (more: seq<Event>)
    requires UniqueKeyrefs(cfg) && |s.node.slots| == |cfg.keys| && i < |cfg.keys| && IsSession(cfg, s, i, moves)
    requires Explained(cfg, s, i, log, before) && s.node.log == front + log
    ensures Explained(cfg, Played(cfg, s, i, moves), i, more, before)
    ensures Played(cfg, s, i, moves).node.log == front + more
    decreases |moves|
  {
    if moves == [] {
      more := log;
    } else {
      ExplainedMove(cfg, s, i, moves[0], log, before);
      LogFollows(cfg, s, i, moves[0], front, log);
      more := ExplainedOverSessions(cfg, Moved(cfg, s, i, moves[0]), i, moves[1..], front, LogOf(cfg, s, moves[0], log), before);
    }
  }

  // The event that decided the n-th frame.
  lemma {:induction false} EventOfFrame(log: seq<Event>, n: nat) returns (b: nat)
    requires n < |NodeReplies.Frames(log)|
    ensures b < |log| && FramesOf(log[b]) == [NodeReplies.Frames(log)[n]] && |NodeReplies.Frames(log[..b])| == n
  {
    var init := Init(log);
    if n < |NodeReplies.Frames(init)| {
      b := EventOfFrame(init, n);
      assert init[..b] == log[..b];
    } else {
      b := |log| - 1;
    }
  }

  // The frame taken at a place of the trace is the one with that number.
  lemma {:induction false} NumberOfFrame(trace: seq<Traffic>, p: nat)
    requires p < |trace| && trace[p].Arrived?
    ensures var n := |FramesTaken(trace[..p])|;
      n < |FramesTaken(trace)| && FramesTaken(trace)[n] == trace[p].message
  {
    var init := trace[..|trace| - 1];
    if p < |init| {
      NumberOfFrame(init, p);
      assert init[..p] == trace[..p];
    }
  }

  // The VALUE frame with number n, which carries v: the node decided on it when
  // slot i held v, after it had reported the key, with no other value given in
  // between.
  ghost predicate DecidedAfterReport(log: seq<Event>, before: Value, i: nat, k: u16, n: nat, v: Value)
  {
    exists a, b ::
      && 0 <= a < b < |log|
      && log[a] == Notify(k)
      && log[b] == Reply(Incoming.Get(k), Ordinarily(Current(v)))
      && (forall c :: a < c < b ==> !GivesValue(log[c]))
      && |NodeReplies.Frames(log[..b])| == n
      && v == Held(before, log[..b], i)
  }

  lemma ValueIsDecided(cfg: Config, s: Session, i: nat, log: seq<Event>, before: Value, p: nat)
    requires i < |s.node.slots| == |cfg.keys| && Explained(cfg, s, i, log, before)
    requires p < |s.trace| && s.trace[p].Arrived? && IsValue(s.trace[p].message)
    ensures DecidedAfterReport(log, before, i, cfg.keys[i].keyref, |FramesTaken(s.trace[..p])|, s.trace[p].message.response.value)
  {
    var n, k, v := |FramesTaken(s.trace[..p])|, cfg.keys[i].keyref, s.trace[p].message.response.value;
    NumberOfFrame(s.trace, p);
    assert NodeReplies.Frames(log)[n] == s.trace[p].message;
    var b := EventOfFrame(log, n);
    assert GivesValue(log[b]);
    assert AnswersHeld(before, log[..b], i, k, log[b]);
    var a :| 0 <= a < b && log[..b][a] == Notify(k) && forall c :: a < c < b ==> !GivesValue(log[..b][c]);
    assert log[a] == Notify(k);
    assert forall c :: a < c < b ==> log[..b][c] == log[c];
  }

  // In every session: what is printed is the values of the VALUE frames taken,
  // in order, one for each GET but the one still unanswered. A GET is sent at
  // once for every CHANGED of the key that is taken while none is unanswered,
  // and for nothing else. The frames taken are the first ones the node decided
  // on. And each value was held by the slot when the node answered that GET,
  // which was after it reported the key anew.
  lemma PrintsAnswerChanges(cfg: Config, s0: Session, i: nat, moves: seq<Move>)
    requires UniqueKeyrefs(cfg) && Followable(cfg, i) && Begun(cfg, s0) && IsSession(cfg, s0, i, moves)
    ensures var s, k := Played(cfg, s0, i, moves), cfg.keys[i].keyref;
      && s.follower.printed == ValuesTaken(s.trace)
      && Gets(s.trace, k) == |s.follower.printed| + (if s.follower.pc.AwaitValue? then 1 else 0)
      && GetsAnswerChanges(s.trace, k)
    ensures var s, k := Played(cfg, s0, i, moves), cfg.keys[i].keyref;
      && s0.node.log <= s.node.log
      && var log := s.node.log[|s0.node.log|..];
         && FramesTaken(s.trace) + Wire(s.node) == NodeReplies.Frames(log)
         && forall p :: 0 <= p < |s.trace| && s.trace[p].Arrived? && IsValue(s.trace[p].message) ==>
              DecidedAfterReport(log, s0.node.slots[i].value, i, k, |FramesTaken(s.trace[..p])|, s.trace[p].message.response.value)
  {
    var front, before := s0.node.log, s0.node.slots[i].value;
    assert front == front + [];
    var more := ExplainedOverSessions(cfg, s0, i, moves, front, [], before);
    var s := Played(cfg, s0, i, moves);
    assert s.node.log[|front|..] == more;
    forall p | 0 <= p < |s.trace| && s.trace[p].Arrived? && IsValue(s.trace[p].message)
      ensures DecidedAfterReport(more, before, i, cfg.keys[i].keyref, |FramesTaken(s.trace[..p])|, s.trace[p].message.response.value)
    {
      ValueIsDecided(cfg, s, i, more, before, p);
    }
  }

  // Before a CHANGED of the key was taken, nothing is printed.
  lemma NothingPrintedBeforeAChange(cfg: Config, s0: Session, i: nat, moves: seq<Move>)
    requires UniqueKeyrefs(cfg) && Followable(cfg, i) && Begun(cfg, s0) && IsSession(cfg, s0, i, moves)
    ensures var s := Played(cfg, s0, i, moves);
      Arrived(Changed(cfg.keys[i].keyref)) !in s.trace ==> s.follower.printed == []
  {
    PrintsAnswerChanges(cfg, s0, i, moves);
    var s, k := Played(cfg, s0, i, moves), cfg.keys[i].keyref;
    if Arrived(Changed(k)) !in s.trace {
      NoGetsWithout(s.trace, s.trace, k);
    }
  }

  lemma {:induction false} NoGetsWithout(trace: seq<Traffic>, front: seq<Traffic>, k: u16)
    requires GetsAnswerChanges(trace, k) && front <= trace && Arrived(Changed(k)) !in trace
    ensures Gets(front, k) == 0
  {
    if front != [] {
      var p := |front| - 1;
      NoGetsWithout(trace, front[..p], k);
      if p > 0 {
        assert trace[p - 1] in trace;
      }
    }
  }

  // Any other message than the awaited one and CHANGED ends follow mode.
  lemma QuitsOnAnythingElse(f: Follower, k: u16, m: Message)
    requires f.pc.AwaitOk? || f.pc.Following? || f.pc.AwaitValue?
    ensures OnMessage(f, k, m).pc.Quit? <==>
      !m.Changed? && !(f.pc.AwaitOk? && m == Ordinarily(Okay)) && !(f.pc.AwaitValue? && IsValue(m))
    ensures f.pc.AwaitOk? && m == Ordinarily(Okay) ==> OnMessage(f, k, m) == f.(pc := Following)
    ensures m.Changed? && !(f.pc.Following? && m.keyref == k) ==> OnMessage(f, k, m) == f
  {
  }
}
