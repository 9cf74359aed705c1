// Pipelined requests from bytes to bytes, under every interleaving with tasks
// that set keys.
module Pipelining {
  import opened Bytes
  import opened Messages
  import opened Requests
  import opened Values
  import opened Node
  import opened NodeInvariant
  import opened NodeHistory
  import opened NodeReplies
  import opened NodeFraming
  import opened Polls

  // The requests among the operations, in order.
  function AskedIn(ops: seq<Op>): (requests: seq<Incoming>)
  {
    if ops == [] then []
    else
      var before := AskedIn(ops[..|ops| - 1]);
      if ops[|ops| - 1].Ask? then before + [ops[|ops| - 1].request] else before
  }

  lemma AskedSnoc(ops: seq<Op>, op: Op)
    ensures AskedIn(ops + [op]) == if op.Ask? then AskedIn(ops) + [op.request] else AskedIn(ops)
  {
    assert (ops + [op])[..|ops|] == ops;
  }

  // The request whose effect has been had and which is not answered.
  function Pending(s: State): (requests: seq<Incoming>)
  {
    if s.phase.Writing? || s.phase.Stopped? then [s.phase.request] else []
  }

  ghost predicate AsksAgree(cfg: Config, s: State)
  {
    AskedIn(Ops(cfg, s.log)) == Answered(s.log) + Pending(s)
  }

  // The request whose effect an event is, and the one it answers.
  function AskOf(cfg: Config, e: Event): (requests: seq<Incoming>)
  {
    var ops := OpsOf(cfg, e);
    if ops != [] && ops[0].Ask? then [ops[0].request] else []
  }

  function AnsweredBy(e: Event): (requests: seq<Incoming>)
  {
    if e.Reply? then [e.request] else []
  }

  lemma EventPending(cfg: Config, s: State, step: Node.Step)
    requires Inv(cfg, s) && Enabled(cfg, s, step)
    ensures var e, r := Recorded(cfg, s, step), Apply(cfg, s, step);
      if e.Some? then Pending(s) + AskOf(cfg, e.value) == AnsweredBy(e.value) + Pending(r) else Pending(r) == Pending(s)
  {
  }

  lemma AskedGrows(cfg: Config, log: seq<Event>, e: Event)
    ensures AskedIn(Ops(cfg, log + [e])) == AskedIn(Ops(cfg, log)) + AskOf(cfg, e)
    ensures Answered(log + [e]) == Answered(log) + AnsweredBy(e)
  {
    OpsGrow(cfg, log, e);
    LogsGrow(log, e);
    var ops, more := Ops(cfg, log), OpsOf(cfg, e);
    if more == [] {
      assert ops + more == ops;
    } else {
      AskedSnoc(ops, more[0]);
    }
  }

  lemma AsksStep(cfg: Config, s: State, step: Node.Step)
    requires Inv(cfg, s) && Enabled(cfg, s, step) && AsksAgree(cfg, s)
    ensures AsksAgree(cfg, Apply(cfg, s, step))
  {
    RecordedIsAppended(cfg, s, step);
    EventPending(cfg, s, step);
    var e, r := Recorded(cfg, s, step), Apply(cfg, s, step);
    if e.Some? {
      AskedGrows(cfg, s.log, e.value);
      Assoc(Answered(s.log), Pending(s), AskOf(cfg, e.value));
      Assoc(Answered(s.log), AnsweredBy(e.value), Pending(r));
    }
  }

  lemma {:induction false} AsksOverRuns(cfg: Config, s: State, steps: seq<Node.Step>)
    requires Inv(cfg, s) && AsksAgree(cfg, s) && IsRun(cfg, s, steps)
    ensures AsksAgree(cfg, After(cfg, s, steps))
    decreases |steps|
  {
    if steps != [] {
      AsksStep(cfg, s, steps[0]);
      InvStep(cfg, s, steps[0]);
      AsksOverRuns(cfg, Apply(cfg, s, steps[0]), steps[1..]);
    }
  }

  // Every frame delivered, or still to be, is one a client can read.
  lemma {:induction false} DeliveredAreFrames(cfg: Config, s: State, steps: seq<Node.Step>)
    requires ConfigText(cfg) && Inv(cfg, s) && FramesOk(s) && IsRun(cfg, s, steps)
    ensures AllNodeFrames(Received(cfg, s, steps) + Wire(After(cfg, s, steps)))
    decreases |steps|
  {
    if steps == [] {
      assert [] + Wire(s) == Wire(s);
    } else {
      var r := Apply(cfg, s, steps[0]);
      FramesOkStep(cfg, s, steps[0]);
      InvStep(cfg, s, steps[0]);
      DeliveredAreFrames(cfg, r, steps[1..]);
      var taken, rest, wire := TakenBy(s, steps[0]), Received(cfg, r, steps[1..]), Wire(After(cfg, s, steps));
      Assoc(taken, rest, wire);
      assert forall j :: 0 <= j < |rest + wire| ==> (taken + (rest + wire))[|taken| + j] == (rest + wire)[j];
      assert forall j :: 0 <= j < |taken + (rest + wire)| && j >= |taken| ==>
        (taken + (rest + wire))[j] == (rest + wire)[j - |taken|];
    }
  }

  // The client sends the bytes of any list of requests. In every run the bytes
  // that come back read as frames which, with CHANGED erased, are the answers of
  // the sequential node to the first of those requests, in order, under the
  // run's order of local sets; to all of them when the node is at rest. The node
  // stops short of that only where an answer does not fit a frame, which no
  // request brings about when the node's texts are short enough.
  lemma PipelinedBytes(cfg: Config, s0: State, steps: seq<Node.Step>, maxStr: nat, ms: seq<Message>)
    requires UniqueKeyrefs(cfg) && ConfigText(cfg) && SlotsText(s0.slots) && Connected(cfg, s0) && IsRun(cfg, s0, steps)
    requires AllRequests(ms) && Sends(steps) == ReadAll(maxStr, EncodeAll(ms))
    ensures var s, tab, vals0 := After(cfg, s0, steps), Keytab(cfg), DenseValues(cfg, s0.slots);
      var bytes, ops := EncodeAll(Received(cfg, s0, steps) + Wire(s)), Ops(cfg, s.log);
      && WithoutChanged(ReadMessages(bytes)) + Owed(s) == Answers(InfoOf(cfg), tab, vals0, ops)
      && AskedIn(ops) <= IncomingAll(maxStr, ms)
      && |AskedIn(ops)| == |WithoutChanged(ReadMessages(bytes))| + |Owed(s)|
      && (s.phase.Waiting? && s.inbox == [] ==> AskedIn(ops) == IncomingAll(maxStr, ms) && Owed(s) == [])
      && (Sendable(cfg, s0.slots) && SetsFit(cfg, steps) ==> !s.phase.Stopped?)
  {
    var s := After(cfg, s0, steps);
    PipelineSplits(maxStr, ms);
    InitialInv(cfg, s0);
    RunsAreSequential(cfg, s0, steps);
    RepliesReadBack(cfg, s0, steps);
    AsksOverRuns(cfg, s0, steps);
    AsksArePrefix(cfg, s0, steps);
    if Sendable(cfg, s0.slots) && SetsFit(cfg, steps) {
      SendableOverRuns(cfg, s0, steps);
    }
  }

  lemma RepliesReadBack(cfg: Config, s0: State, steps: seq<Node.Step>)
    requires ConfigText(cfg) && SlotsText(s0.slots) && Connected(cfg, s0) && IsRun(cfg, s0, steps)
    ensures var s := After(cfg, s0, steps);
      var read := ReadMessages(EncodeAll(Received(cfg, s0, steps) + Wire(s)));
      WithoutChanged(read) == Replies(s.log) && |Replies(s.log)| == |Answered(s.log)|
  {
    InitialInv(cfg, s0);
    OneReplyPerRequestInOrder(cfg, s0, steps);
    DeliveredAreFrames(cfg, s0, steps);
    FramesAreReadBack(Received(cfg, s0, steps) + Wire(After(cfg, s0, steps)));
  }

  lemma AsksArePrefix(cfg: Config, s0: State, steps: seq<Node.Step>)
    requires Connected(cfg, s0) && IsRun(cfg, s0, steps) && AsksAgree(cfg, After(cfg, s0, steps))
    ensures var s := After(cfg, s0, steps);
      && AskedIn(Ops(cfg, s.log)) <= Sends(steps)
      && (s.phase.Waiting? && s.inbox == [] ==> AskedIn(Ops(cfg, s.log)) == Sends(steps) && Owed(s) == [])
      && |AskedIn(Ops(cfg, s.log))| == |Answered(s.log)| + |Owed(s)|
  {
    var s := After(cfg, s0, steps);
    RequestsOverRuns(cfg, s0, steps);
    assert Requested(s) == Sends(steps);
    assert s.phase.Handling? || Requested(s) == Answered(s.log) + Pending(s) + s.inbox;
  }
}
