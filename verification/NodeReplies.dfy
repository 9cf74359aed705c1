// The server's answers against a sequential reference over a dense key table.
module NodeReplies {
  import opened Bytes
  import opened Opcodes
  import opened Messages
  import opened Requests
  import opened Values
  import opened Node
  import opened NodeInvariant
  import opened NodeHistory

  // ---- The reference: one entry per keyref, void where no key is registered ----

  datatype Entry = Entry(perm: Perm, name: seq<byte>, ktype: KeyType)

  function EntryAt(cfg: Config, k: u16): (e: Entry)
  {
    match FindSlot(cfg.keys, k)
    case Some(i) => Entry(cfg.keys[i].perm, cfg.keys[i].name, cfg.keys[i].ktype)
    case None => Entry(NO_PERM, [], BoolType)
  }

  function Keytab(cfg: Config): (tab: seq<Entry>)
    ensures |tab| == KeyCount(cfg.keys)
  {
    seq(KeyCount(cfg.keys), k requires 0 <= k < KeyCount(cfg.keys) => EntryAt(cfg, k))
  }

  function DenseValues(cfg: Config, slots: seq<Slot>): (vals: seq<Value>)
    requires |slots| == |cfg.keys|
    ensures |vals| == KeyCount(cfg.keys)
  {
    seq(KeyCount(cfg.keys), k requires 0 <= k < KeyCount(cfg.keys) => ValueAt(cfg, slots, k))
  }

  function ValueAt(cfg: Config, slots: seq<Slot>, k: u16): (v: Value)
    requires |slots| == |cfg.keys|
  {
    match FindSlot(cfg.keys, k)
    case Some(i) => slots[i].value
    case None => Bool(false)
  }

  // What a WRITE stores, by the table.
  function TableWrite(tab: seq<Entry>, request: Incoming): (r: Option<Value>)
  {
    if request.Write? && request.keyref < |tab| && tab[request.keyref].perm.writable
    then Accept(tab[request.keyref].ktype, request.value)
    else None
  }

  datatype Info = Info(nodeId: seq<byte>, caps: seq<byte>)

  // The answer the protocol prescribes, from the table and the values alone.
  function TableReply(info: Info, tab: seq<Entry>, vals: seq<Value>, request: Incoming): (m: Message)
    requires |vals| == |tab| < 0x1_0000
  {
    match request
    case Ping => Ordinarily(Okay)
    case Identify => Ordinarily(Identified(info.nodeId))
    case GetCaps => CapsGiven(info.caps)
    case GetKeytabLen => Ordinarily(KeytabLen(|tab|))
    case _ =>
      if request.keyref >= |tab| then Failed(ERROR_UNKNOWN_KEYREF)
      else EntryReply(tab[request.keyref], vals[request.keyref], request)
  }

  function EntryReply(e: Entry, value: Value, request: Incoming): (m: Message)
  {
    match request
    case GetKey(_) => Ordinarily(Key(Flags(e.perm), e.name))
    case Get(_) => if e.perm.readable then Ordinarily(Current(value)) else Failed(ERROR_NOT_ALLOWED)
    case Write(_, w) =>
      if !e.perm.writable then Failed(ERROR_NOT_ALLOWED)
      else (match Accept(e.ktype, w)
            case Some(v) => Ordinarily(Written(v))
            case None => Failed(ERROR_TYPE_MISMATCH))
    case Observe(_) => if e.perm.observable then Ordinarily(Okay) else Failed(ERROR_NOT_ALLOWED)
    case _ => Ordinarily(Okay)
  }

  function InfoOf(cfg: Config): (info: Info)
  {
    Info(cfg.nodeId, CapsString(cfg))
  }

  // A sequential node: one operation after the other.
  datatype Op = SetKey(keyref: u16, value: Value) | Ask(request: Incoming)

  function ValuesAfter(tab: seq<Entry>, vals: seq<Value>, ops: seq<Op>): (r: seq<Value>)
    requires |vals| == |tab|
    ensures |r| == |tab|
  {
    if ops == [] then vals
    else
      var before := ValuesAfter(tab, vals, ops[..|ops| - 1]);
      match ops[|ops| - 1]
      case SetKey(k, v) => if k < |tab| then before[k := v] else before
      case Ask(request) =>
        match TableWrite(tab, request)
        case Some(v) => before[request.keyref := v]
        case None => before
  }

  function Answers(info: Info, tab: seq<Entry>, vals: seq<Value>, ops: seq<Op>): (ms: seq<Message>)
    requires |vals| == |tab| < 0x1_0000
  {
    if ops == [] then []
    else
      var init := ops[..|ops| - 1];
      var before := Answers(info, tab, vals, init);
      match ops[|ops| - 1]
      case SetKey(_, _) => before
      case Ask(request) => before + [TableReply(info, tab, ValuesAfter(tab, vals, init), request)]
  }

  // Whether the answer can be sent, from the table and the values alone: only a
  // node id, a name or a value can be too long, and only a value invalid.
  predicate TableFits(info: Info, tab: seq<Entry>, vals: seq<Value>, request: Incoming)
    requires |vals| == |tab| < 0x1_0000
  {
    match request
    case Identify => |info.nodeId| <= 65533
    case GetKey(k) => k < |tab| ==> |tab[k].name| <= 65532
    case Get(k) => k < |tab| && tab[k].perm.readable ==> ValueFits(vals[k])
    case Write(_, _) => TableWrite(tab, request).Some? ==> ValueFits(TableWrite(tab, request).value)
    case _ => true
  }

  // ---- The code's search over slots agrees with the table ----

  lemma ResponseIsTableReply(cfg: Config, slots: seq<Slot>, request: Incoming)
    requires |slots| == |cfg.keys|
    ensures Response(cfg, slots, request) ==
      TableReply(InfoOf(cfg), Keytab(cfg), DenseValues(cfg, slots), request)
    ensures Fits(Response(cfg, slots, request)) <==>
      TableFits(InfoOf(cfg), Keytab(cfg), DenseValues(cfg, slots), request)
  {
  }

  lemma WriteTargetIsTableWrite(cfg: Config, slots: seq<Slot>, request: Incoming)
    requires |slots| == |cfg.keys|
    ensures WriteTarget(cfg, request).Some? <==> TableWrite(Keytab(cfg), request).Some?
    ensures WriteTarget(cfg, request).Some? ==>
      var (i, v) := WriteTarget(cfg, request).value;
      && TableWrite(Keytab(cfg), request) == Some(v)
      && i < |cfg.keys| && cfg.keys[i].keyref == request.keyref
      && request.keyref < KeyCount(cfg.keys)
      && Response(cfg, slots, request) == Ordinarily(Written(v))
  {
  }

  // Every reply is the request's defined response, or ERROR with a code the
  // protocol lists for that request.
  function RequestOpcode(request: Incoming): (op: byte)
  {
    match request
    case Ping => PING
    case Identify => IDENTIFY
    case GetCaps => GETCAPS
    case GetKeytabLen => GETKEYTABLEN
    case GetKey(_) => GETKEY
    case Get(_) => GET
    case Write(_, _) => WRITE
    case Observe(_) => OBSERVE
    case Unobserve(_) => UNOBSERVE
  }

  function ListedCodes(request: Incoming): (codes: set<byte>)
  {
    match request
    case GetKey(_) => {1}
    case Get(_) => {1, 2}
    case Write(_, _) => {1, 2, 3}
    case Observe(_) => {1, 2}
    case Unobserve(_) => {1}
    case _ => {}
  }

  predicate IsDefinedReply(request: Incoming, m: Message)
  {
    if m.Failed? then m.code in ListedCodes(request)
    else if request.GetCaps? then OpcodeOf(m) == CAPS
    else ExpectedOrdinaryResponse(RequestOpcode(request)) == Some(OpcodeOf(m))
  }

  lemma RepliesAreDefined(cfg: Config, slots: seq<Slot>, request: Incoming)
    requires |slots| == |cfg.keys|
    ensures IsDefinedReply(request, Response(cfg, slots, request))
  {
  }

  // ---- The order in which operations take effect ----

  // A set takes effect when it stores its value, a WRITE when it does, and any
  // other request when it is answered.
  function OpsOf(cfg: Config, e: Event): (ops: seq<Op>)
  {
    match e
    case Store(i, v, Local) => if i < |cfg.keys| then [SetKey(cfg.keys[i].keyref, v)] else []
    case Store(_, _, ByWrite(request)) => [Ask(request)]
    case Reply(request, _) => if WriteTarget(cfg, request).Some? then [] else [Ask(request)]
    case Refuse(request, _) => if WriteTarget(cfg, request).Some? then [] else [Ask(request)]
    case _ => []
  }

  function Ops(cfg: Config, log: seq<Event>): (ops: seq<Op>)
  {
    if log == [] then [] else Ops(cfg, Init(log)) + OpsOf(cfg, Last(log))
  }

  function Replies(log: seq<Event>): (ms: seq<Message>)
  {
    if log == [] then []
    else if Last(log).Reply? then Replies(Init(log)) + [Last(log).frame]
    else Replies(Init(log))
  }

  function Answered(log: seq<Event>): (requests: seq<Incoming>)
  {
    if log == [] then []
    else if Last(log).Reply? then Answered(Init(log)) + [Last(log).request]
    else Answered(Init(log))
  }

  function Frames(log: seq<Event>): (ms: seq<Message>)
  {
    if log == [] then []
    else Frames(Init(log)) + FramesOf(Last(log))
  }

  function FramesOf(e: Event): (ms: seq<Message>)
  {
    match e
    case Reply(_, frame) => [frame]
    case Notify(k) => [Changed(k)]
    case _ => []
  }

  // The answer to a WRITE that is stored but not yet answered, or the one that
  // did not fit a frame.
  function Owed(s: State): (ms: seq<Message>)
  {
    match s.phase
    case Writing(_, value, _) => [Ordinarily(Written(value))]
    case Stopped(_, frame) => [frame]
    case _ => []
  }

  // The node behaves like the sequential one so far.
  ghost predicate Linear(cfg: Config, vals0: seq<Value>, s: State)
  {
    && |vals0| == |Keytab(cfg)|
    && Inv(cfg, s)
    && WriteAgrees(s)
    && ValuesAfter(Keytab(cfg), vals0, Ops(cfg, s.log)) == DenseValues(cfg, s.slots)
    && Answers(InfoOf(cfg), Keytab(cfg), vals0, Ops(cfg, s.log)) == Replies(s.log) + Owed(s)
  }

  lemma OpsGrow(cfg: Config, log: seq<Event>, e: Event)
    ensures Ops(cfg, log + [e]) == Ops(cfg, log) + OpsOf(cfg, e)
    ensures Replies(log + [e]) == if e.Reply? then Replies(log) + [e.frame] else Replies(log)
  {
    Grown(log, e);
  }

  lemma OneMoreOp(info: Info, tab: seq<Entry>, vals: seq<Value>, ops: seq<Op>, op: Op)
    requires |vals| == |tab| < 0x1_0000
    ensures var before := ValuesAfter(tab, vals, ops);
      && ValuesAfter(tab, vals, ops + [op]) ==
         (match op
          case SetKey(k, v) => if k < |tab| then before[k := v] else before
          case Ask(request) =>
            match TableWrite(tab, request)
            case Some(v) => before[request.keyref := v]
            case None => before)
      && Answers(info, tab, vals, ops + [op]) ==
         Answers(info, tab, vals, ops) +
         (if op.Ask? then [TableReply(info, tab, before, op.request)] else [])
  {
    assert (ops + [op])[..|ops|] == ops;
  }

  // Storing into a slot is storing at its keyref.
  lemma StoreIsDense(cfg: Config, slots: seq<Slot>, i: nat, v: Value)
    requires UniqueKeyrefs(cfg) && |slots| == |cfg.keys| && i < |slots|
    ensures var k := cfg.keys[i].keyref;
      DenseValues(cfg, slots[i := slots[i].(value := v)]) ==
      if k < KeyCount(cfg.keys) then DenseValues(cfg, slots)[k := v] else DenseValues(cfg, slots)
  {
    var k, r := cfg.keys[i].keyref, slots[i := slots[i].(value := v)];
    forall x: u16 | x < KeyCount(cfg.keys)
      ensures ValueAt(cfg, r, x) == if x == k then v else ValueAt(cfg, slots, x)
    {
      FindUnique(cfg, i);
    }
  }

  lemma SameValues(cfg: Config, a: seq<Slot>, b: seq<Slot>)
    requires |a| == |b| == |cfg.keys|
    requires forall i :: 0 <= i < |a| ==> a[i].value == b[i].value
    ensures DenseValues(cfg, a) == DenseValues(cfg, b)
  {
  }

  // Steps that neither store a value nor answer a request.
  predicate IsQuiet(step: Node.Step)
  {
    !step.SetBegin? && !step.Handle? && !step.WriteNotify?
  }

  lemma QuietLog(cfg: Config, s: State, step: Node.Step)
    requires |s.slots| == |cfg.keys| && Enabled(cfg, s, step) && IsQuiet(step)
    ensures var r := Apply(cfg, s, step);
      Ops(cfg, r.log) == Ops(cfg, s.log) && Replies(r.log) == Replies(s.log)
  {
    RecordedIsAppended(cfg, s, step);
    if Recorded(cfg, s, step).Some? {
      OpsGrow(cfg, s.log, Recorded(cfg, s, step).value);
    }
  }

  lemma QuietValues(cfg: Config, s: State, step: Node.Step)
    requires |s.slots| == |cfg.keys| && Enabled(cfg, s, step) && IsQuiet(step)
    ensures var r := Apply(cfg, s, step);
      Owed(r) == Owed(s) && forall i :: 0 <= i < |s.slots| ==> s.slots[i].value == r.slots[i].value
  {
  }

  lemma LinearQuiet(cfg: Config, vals0: seq<Value>, s: State, step: Node.Step)
    requires Linear(cfg, vals0, s) && Enabled(cfg, s, step) && IsQuiet(step)
    ensures Linear(cfg, vals0, Apply(cfg, s, step))
  {
    InvStep(cfg, s, step);
    WriteStep(cfg, s, step);
    QuietLog(cfg, s, step);
    QuietValues(cfg, s, step);
    SameValues(cfg, s.slots, Apply(cfg, s, step).slots);
  }

  lemma LinearSet(cfg: Config, vals0: seq<Value>, s: State, step: Node.Step)
    requires UniqueKeyrefs(cfg) && Linear(cfg, vals0, s) && Enabled(cfg, s, step) && step.SetBegin?
    ensures Linear(cfg, vals0, Apply(cfg, s, step))
  {
    InvStep(cfg, s, step);
    WriteStep(cfg, s, step);
    OpsGrow(cfg, s.log, Store(step.slot, step.value, Local));
    OneMoreOp(InfoOf(cfg), Keytab(cfg), vals0, Ops(cfg, s.log), SetKey(cfg.keys[step.slot].keyref, step.value));
    StoreIsDense(cfg, s.slots, step.slot, step.value);
  }

  lemma LinearHandle(cfg: Config, vals0: seq<Value>, s: State)
    requires UniqueKeyrefs(cfg) && Linear(cfg, vals0, s) && s.phase.Handling?
    ensures Linear(cfg, vals0, Apply(cfg, s, Handle))
  {
    var request := s.phase.request;
    InvStep(cfg, s, Handle);
    WriteStep(cfg, s, Handle);
    OpsGrow(cfg, s.log, Recorded(cfg, s, Handle).value);
    OneMoreOp(InfoOf(cfg), Keytab(cfg), vals0, Ops(cfg, s.log), Ask(request));
    HandleIsTable(cfg, s);
    var e := Recorded(cfg, s, Handle).value;
    Assoc(Replies(s.log), if e.Reply? then [e.frame] else [], Owed(Apply(cfg, s, Handle)));
    assert Replies(s.log) + Owed(s) == Replies(s.log);
    assert Replies(s.log) + [] == Replies(s.log);
  }

  // The one answer and the one store of a request are the table's.
  lemma HandleIsTable(cfg: Config, s: State)
    requires UniqueKeyrefs(cfg) && |s.slots| == |cfg.keys| && s.phase.Handling?
    ensures var r, request, tab := Apply(cfg, s, Handle), s.phase.request, Keytab(cfg);
      var vals := DenseValues(cfg, s.slots);
      var e := Recorded(cfg, s, Handle).value;
      && OpsOf(cfg, e) == [Ask(request)]
      && (if e.Reply? then [e.frame] else []) + Owed(r) == [TableReply(InfoOf(cfg), tab, vals, request)]
      && DenseValues(cfg, r.slots) ==
         (match TableWrite(tab, request) case Some(v) => vals[request.keyref := v] case None => vals)
  {
    var request := s.phase.request;
    ResponseIsTableReply(cfg, s.slots, request);
    WriteTargetIsTableWrite(cfg, s.slots, request);
    if WriteTarget(cfg, request).Some? {
      var (i, v) := WriteTarget(cfg, request).value;
      StoreIsDense(cfg, s.slots, i, v);
    } else {
      SameValues(cfg, s.slots, SlotsAfter(cfg, s.slots, request));
    }
  }

  lemma LinearWritten(cfg: Config, vals0: seq<Value>, s: State)
    requires UniqueKeyrefs(cfg) && Linear(cfg, vals0, s) && Enabled(cfg, s, WriteNotify)
    ensures Linear(cfg, vals0, Apply(cfg, s, WriteNotify))
  {
    InvStep(cfg, s, WriteNotify);
    WriteStep(cfg, s, WriteNotify);
    OpsGrow(cfg, s.log, Recorded(cfg, s, WriteNotify).value);
    assert Ops(cfg, Apply(cfg, s, WriteNotify).log) == Ops(cfg, s.log);
  }

  lemma {:induction false} LinearOverRuns(cfg: Config, vals0: seq<Value>, s: State, steps: seq<Node.Step>)
    requires UniqueKeyrefs(cfg) && Linear(cfg, vals0, s) && IsRun(cfg, s, steps)
    ensures Linear(cfg, vals0, After(cfg, s, steps))
    decreases |steps|
  {
    if steps != [] {
      var step := steps[0];
      if step.SetBegin? {
        LinearSet(cfg, vals0, s, step);
      } else if step.Handle? {
        LinearHandle(cfg, vals0, s);
      } else if step.WriteNotify? {
        LinearWritten(cfg, vals0, s);
      } else {
        LinearQuiet(cfg, vals0, s, step);
      }
      LinearOverRuns(cfg, vals0, Apply(cfg, s, step), steps[1..]);
    }
  }

  // In every run the answers are those of the sequential node that carries out
  // the sets and requests in the order in which they took effect; it ends with
  // the same values. The last answer is not sent when its WRITE is still being
  // counted, or when it does not fit a frame and has stopped the node.
  lemma RunsAreSequential(cfg: Config, s0: State, steps: seq<Node.Step>)
    requires UniqueKeyrefs(cfg) && Connected(cfg, s0) && IsRun(cfg, s0, steps)
    ensures var s, tab, vals0 := After(cfg, s0, steps), Keytab(cfg), DenseValues(cfg, s0.slots);
      && Answers(InfoOf(cfg), tab, vals0, Ops(cfg, s.log)) == Replies(s.log) + Owed(s)
      && ValuesAfter(tab, vals0, Ops(cfg, s.log)) == DenseValues(cfg, s.slots)
      && (s.phase.Stopped? ==> Owed(s) == [s.phase.frame] && !Fits(s.phase.frame))
  {
    InitialInv(cfg, s0);
    LinearOverRuns(cfg, DenseValues(cfg, s0.slots), s0, steps);
  }

  // ---- One reply per request, in order ----

  function Sends(steps: seq<Node.Step>): (requests: seq<Incoming>)
  {
    if steps == [] then []
    else (if steps[0].Send? then [steps[0].request] else []) + Sends(steps[1..])
  }

  function Received(cfg: Config, s: State, steps: seq<Node.Step>): (ms: seq<Message>)
    requires |s.slots| == |cfg.keys| && IsRun(cfg, s, steps)
    decreases |steps|
  {
    if steps == [] then []
    else TakenBy(s, steps[0]) + Received(cfg, Apply(cfg, s, steps[0]), steps[1..])
  }

  // Requests in the order they were sent: answered, being handled or refused,
  // waiting.
  function Requested(s: State): (requests: seq<Incoming>)
  {
    Answered(s.log)
    + (if s.phase.Handling? || s.phase.Writing? || s.phase.Stopped? then [s.phase.request] else [])
    + s.inbox
  }

  // Frames decided but not yet delivered.
  function Wire(s: State): (ms: seq<Message>)
  {
    s.outbox + (if s.phase.Emitting? then [s.phase.frame] else [])
  }

  lemma LogsGrow(log: seq<Event>, e: Event)
    ensures Answered(log + [e]) == Answered(log) + (if e.Reply? then [e.request] else [])
    ensures Frames(log + [e]) == Frames(log) + FramesOf(e)
  {
    Grown(log, e);
  }

  lemma RequestedStep(cfg: Config, s: State, step: Node.Step)
    requires |s.slots| == |cfg.keys| && Enabled(cfg, s, step)
    ensures Requested(Apply(cfg, s, step)) == Requested(s) + (if step.Send? then [step.request] else [])
  {
    RecordedIsAppended(cfg, s, step);
    if Recorded(cfg, s, step).Some? {
      LogsGrow(s.log, Recorded(cfg, s, step).value);
    }
    if step.TakeRequest? {
      assert s.inbox == [s.inbox[0]] + s.inbox[1..];
    }
  }

  function TakenBy(s: State, step: Node.Step): (ms: seq<Message>)
    requires step.Receive? ==> s.outbox != []
  {
    if step.Receive? then [s.outbox[0]] else []
  }

  // A step puts on the wire the frame it records, and takes from it what it
  // delivers.
  lemma WireMoves(cfg: Config, s: State, step: Node.Step)
    requires |s.slots| == |cfg.keys| && Enabled(cfg, s, step)
    ensures var e := Recorded(cfg, s, step);
      TakenBy(s, step) + Wire(Apply(cfg, s, step)) == Wire(s) + (if e.Some? then FramesOf(e.value) else [])
  {
    if step.Receive? {
      assert s.outbox == [s.outbox[0]] + s.outbox[1..];
    }
  }

  // `done` has been delivered and what is on the wire follows it.
  lemma WireStep(cfg: Config, s: State, step: Node.Step, done: seq<Message>)
    requires |s.slots| == |cfg.keys| && Enabled(cfg, s, step)
    requires done + Wire(s) == Frames(s.log)
    ensures done + TakenBy(s, step) + Wire(Apply(cfg, s, step)) == Frames(Apply(cfg, s, step).log)
  {
    WireMoves(cfg, s, step);
    RecordedIsAppended(cfg, s, step);
    var e, r := Recorded(cfg, s, step), Apply(cfg, s, step);
    var added := if e.Some? then FramesOf(e.value) else [];
    if e.Some? {
      LogsGrow(s.log, e.value);
    }
    MoveAlong(done, TakenBy(s, step), Wire(s), Wire(r), added, Frames(r.log));
  }

  lemma MoveAlong(done: seq<Message>, taken: seq<Message>, wire: seq<Message>, wire': seq<Message>,
                  added: seq<Message>, all: seq<Message>)
    requires taken + wire' == wire + added && all == (done + wire) + added
    ensures done + taken + wire' == all
  {
    Assoc(done, taken, wire');
    Assoc(done, wire, added);
  }

  lemma {:induction false} RequestsOverRuns(cfg: Config, s: State, steps: seq<Node.Step>)
    requires |s.slots| == |cfg.keys| && IsRun(cfg, s, steps)
    ensures Requested(After(cfg, s, steps)) == Requested(s) + Sends(steps)
    decreases |steps|
  {
    if steps != [] {
      RequestedStep(cfg, s, steps[0]);
      RequestsOverRuns(cfg, Apply(cfg, s, steps[0]), steps[1..]);
      Assoc(Requested(s), if steps[0].Send? then [steps[0].request] else [], Sends(steps[1..]));
    }
  }

  lemma {:induction false} FramesOverRuns(cfg: Config, s: State, steps: seq<Node.Step>, done: seq<Message>)
    requires |s.slots| == |cfg.keys| && IsRun(cfg, s, steps)
    requires done + Wire(s) == Frames(s.log)
    ensures done + Received(cfg, s, steps) + Wire(After(cfg, s, steps)) == Frames(After(cfg, s, steps).log)
    decreases |steps|
  {
    if steps != [] {
      var step := steps[0];
      WireStep(cfg, s, step, done);
      var more := TakenBy(s, step);
      FramesOverRuns(cfg, Apply(cfg, s, step), steps[1..], done + more);
      var rest := Received(cfg, Apply(cfg, s, step), steps[1..]);
      Assoc(done, more, rest);
    }
  }

  function WithoutChanged(ms: seq<Message>): (r: seq<Message>)
  {
    if ms == [] then []
    else if ms[|ms| - 1].Changed? then WithoutChanged(ms[..|ms| - 1])
    else WithoutChanged(ms[..|ms| - 1]) + [ms[|ms| - 1]]
  }

  // No reply is a CHANGED frame, so erasing those leaves the replies. What is
  // sent fits a frame, and what is refused does not.
  predicate RepliesDefined(log: seq<Event>)
  {
    && (forall p :: 0 <= p < |log| && log[p].Reply? ==> IsDefinedReply(log[p].request, log[p].frame) && Fits(log[p].frame))
    && (forall p :: 0 <= p < |log| && log[p].Refuse? ==> !Fits(log[p].frame))
  }

  lemma RepliesDefinedStep(cfg: Config, s: State, step: Node.Step)
    requires Sound(cfg, s) && Enabled(cfg, s, step) && RepliesDefined(s.log)
    ensures RepliesDefined(Apply(cfg, s, step).log)
  {
    RecordedIsAppended(cfg, s, step);
    if step.Handle? {
      RepliesAreDefined(cfg, s.slots, s.phase.request);
    } else if step.WriteNotify? {
      assert s.phase.request.Write?;
    }
  }

  lemma {:induction false} DefinedOverRuns(cfg: Config, s: State, steps: seq<Node.Step>)
    requires Inv(cfg, s) && RepliesDefined(s.log) && IsRun(cfg, s, steps)
    ensures RepliesDefined(After(cfg, s, steps).log)
    decreases |steps|
  {
    if steps != [] {
      InvStep(cfg, s, steps[0]);
      RepliesDefinedStep(cfg, s, steps[0]);
      DefinedOverRuns(cfg, Apply(cfg, s, steps[0]), steps[1..]);
    }
  }

  lemma {:induction false} ErasingChangedLeavesReplies(log: seq<Event>)
    requires RepliesDefined(log)
    ensures WithoutChanged(Frames(log)) == Replies(log)
    ensures |Replies(log)| == |Answered(log)|
  {
    if log != [] {
      assert forall p :: 0 <= p < |log| - 1 ==> Init(log)[p] == log[p];
      ErasingChangedLeavesReplies(Init(log));
      var e := Last(log);
      assert e == log[|log| - 1];
      if e.Reply? {
        assert Frames(log)[..|Frames(log)| - 1] == Frames(Init(log));
        assert !e.frame.Changed?;
      } else if e.Notify? {
        assert Frames(log)[..|Frames(log)| - 1] == Frames(Init(log));
      } else {
        assert Frames(log) == Frames(Init(log));
      }
    }
  }

  // Pipelining: in every run, the frames put on the wire with CHANGED erased
  // are one reply for each request answered so far, these requests are the
  // first ones sent, and each reply is a defined one for its request that fits a
  // frame. A node that has stopped was asked next for one that does not.
  lemma OneReplyPerRequestInOrder(cfg: Config, s0: State, steps: seq<Node.Step>)
    requires Connected(cfg, s0) && IsRun(cfg, s0, steps)
    ensures var s := After(cfg, s0, steps);
      && WithoutChanged(Received(cfg, s0, steps) + Wire(s)) == Replies(s.log)
      && |Replies(s.log)| == |Answered(s.log)|
      && Answered(s.log) <= Sends(steps)
      && (s.phase.Waiting? && s.inbox == [] ==> Answered(s.log) == Sends(steps))
      && (s.phase.Stopped? ==> Answered(s.log) + [s.phase.request] <= Sends(steps) && !Fits(s.phase.frame))
      && RepliesDefined(s.log)
  {
    var s := After(cfg, s0, steps);
    InitialInv(cfg, s0);
    InvHoldsOverRuns(cfg, s0, steps);
    RequestsOverRuns(cfg, s0, steps);
    FramesOverRuns(cfg, s0, steps, []);
    assert Requested(s) == Sends(steps);
    DefinedOverRuns(cfg, s0, steps);
    ErasingChangedLeavesReplies(s.log);
    assert [] + Received(cfg, s0, steps) == Received(cfg, s0, steps);
  }
}
