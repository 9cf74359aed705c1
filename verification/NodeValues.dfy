// What the history of a connection shows of the stored values: a key holds what
// was stored last, a GET is answered with what the key holds, and a WRITE with
// what it stored.
module NodeValues {
  import opened Bytes
  import opened Messages
  import opened Requests
  import opened Values
  import opened Node
  import opened NodeInvariant
  import opened NodeHistory

  // The value of the latest store to slot i, by whomever, or what it held before.
  function Held(before: Value, log: seq<Event>, i: nat): (v: Value)
  {
    if log == [] then before
    else if Last(log).Store? && Last(log).slot == i then Last(log).value
    else Held(before, Init(log), i)
  }

  function AnswerIn(k: u16, e: Event): (v: Option<Value>)
  {
    match e
    case Reply(Get(x), Ordinarily(Current(v))) => if x == k then Some(v) else None
    case Reply(Write(x, _), Ordinarily(Written(v))) => if x == k then Some(v) else None
    case _ => None
  }

  // The value in the latest VALUE or WRITTEN for key k.
  function LastAnswer(log: seq<Event>, k: u16): (v: Option<Value>)
  {
    if log == [] then None
    else if AnswerIn(k, Last(log)).Some? then AnswerIn(k, Last(log))
    else LastAnswer(Init(log), k)
  }

  // The value of slot i as one who saw the WRITEs and the answers of its key
  // knows it: the latest one written or given, unless the slot was set locally
  // since. A WRITE counts from its store, not from its later answer.
  function LastKnown(log: seq<Event>, i: nat, k: u16): (v: Option<Value>)
  {
    if log == [] then None
    else match Last(log)
      case Store(j, v, source) =>
        if j != i then LastKnown(Init(log), i, k) else if source.Local? then None else Some(v)
      case Reply(Get(x), Ordinarily(Current(v))) => if x == k then Some(v) else LastKnown(Init(log), i, k)
      case _ => LastKnown(Init(log), i, k)
  }

  lemma HistoriesGrow(log: seq<Event>, e: Event, before: Value, i: nat, k: u16)
    ensures Held(before, log + [e], i) == if e.Store? && e.slot == i then e.value else Held(before, log, i)
    ensures LastAnswer(log + [e], k) == if AnswerIn(k, e).Some? then AnswerIn(k, e) else LastAnswer(log, k)
    ensures LastKnown(log + [e], i, k) ==
      if e.Store? && e.slot == i then (if e.source.Local? then None else Some(e.value))
      else if e.Reply? && e.request == Incoming.Get(k) && AnswerIn(k, e).Some? then AnswerIn(k, e)
      else LastKnown(log, i, k)
  {
    Grown(log, e);
  }

  // ---- What every step keeps ----

  // Slot i, which holds key k, given the events since it held `before`.
  predicate Remembered(s: State, log: seq<Event>, before: Value, i: nat, k: u16)
    requires i < |s.slots|
  {
    && s.slots[i].value == Held(before, log, i)
    && (LastKnown(log, i, k).Some? ==> s.slots[i].value == LastKnown(log, i, k).value)
    && (LastKnown(log, i, k).Some? ==> LastAnswer(log, k) == LastKnown(log, i, k) || WritesSlot(s, i))
    && (LastKnown(log, i, k).Some? && WritesSlot(s, i) ==> LastKnown(log, i, k).value == s.phase.value)
  }

  predicate WritesSlot(s: State, i: nat)
  {
    s.phase.Writing? && StageSlot(s.phase.stage) == Some(i)
  }

  function StageSlot(stage: Stage): (i: Option<nat>)
  {
    match stage
    case Idle => None
    case Stored(i) => Some(i)
    case Bumped(i) => Some(i)
    case Woken(i) => Some(i)
  }

  // The answer a step gives is the value that is stored, or that was written.
  predicate AnswersHeld(before: Value, log: seq<Event>, i: nat, k: u16, e: Event)
  {
    match e
    case Reply(Get(x), Ordinarily(Current(v))) => x == k ==> v == Held(before, log, i)
    case _ => true
  }

  function LogAfter(cfg: Config, s: State, step: Node.Step, log: seq<Event>): (r: seq<Event>)
    requires |s.slots| == |cfg.keys| && Enabled(cfg, s, step)
  {
    if Recorded(cfg, s, step).Some? then log + [Recorded(cfg, s, step).value] else log
  }

  lemma RememberedStep(cfg: Config, s: State, step: Node.Step, log: seq<Event>, before: Value, i: nat)
    requires UniqueKeyrefs(cfg) && Inv(cfg, s) && Enabled(cfg, s, step) && i < |s.slots|
    requires Remembered(s, log, before, i, cfg.keys[i].keyref)
    ensures Remembered(Apply(cfg, s, step), LogAfter(cfg, s, step, log), before, i, cfg.keys[i].keyref)
    ensures Recorded(cfg, s, step).Some? ==>
      AnswersHeld(before, log, i, cfg.keys[i].keyref, Recorded(cfg, s, step).value)
  {
    if Recorded(cfg, s, step).Some? {
      HistoriesGrow(log, Recorded(cfg, s, step).value, before, i, cfg.keys[i].keyref);
    }
    match step
    case Handle => RememberedHandle(cfg, s, log, before, i);
    case _ =>
  }

  lemma RememberedHandle(cfg: Config, s: State, log: seq<Event>, before: Value, i: nat)
    requires UniqueKeyrefs(cfg) && Inv(cfg, s) && Enabled(cfg, s, Handle) && i < |s.slots|
    requires Remembered(s, log, before, i, cfg.keys[i].keyref)
    ensures Remembered(Apply(cfg, s, Handle), LogAfter(cfg, s, Handle, log), before, i, cfg.keys[i].keyref)
    ensures AnswersHeld(before, log, i, cfg.keys[i].keyref, Recorded(cfg, s, Handle).value)
  {
    HistoriesGrow(log, Recorded(cfg, s, Handle).value, before, i, cfg.keys[i].keyref);
    FindUnique(cfg, i);
  }

  // ---- Whole runs ----

  ghost predicate AllAnswersHeld(before: Value, log: seq<Event>, i: nat, k: u16)
  {
    forall p :: 0 <= p < |log| ==> AnswersHeld(before, log[..p], i, k, log[p])
  }

  lemma OneMoreAnswer(before: Value, log: seq<Event>, e: Event, i: nat, k: u16)
    requires AllAnswersHeld(before, log, i, k) && AnswersHeld(before, log, i, k, e)
    ensures AllAnswersHeld(before, log + [e], i, k)
  {
    var more := log + [e];
    forall p | 0 <= p < |more|
      ensures AnswersHeld(before, more[..p], i, k, more[p])
    {
      if p < |log| {
        assert more[..p] == log[..p] && more[p] == log[p];
        assert AnswersHeld(before, log[..p], i, k, log[p]);
      } else {
        assert more[..p] == log;
      }
    }
  }

  // The events of a run, from a state after which `log` has happened.
  ghost function Happened(cfg: Config, s: State, steps: seq<Node.Step>, log: seq<Event>): (r: seq<Event>)
    requires |s.slots| == |cfg.keys| && IsRun(cfg, s, steps)
    decreases |steps|
  {
    if steps == [] then log else Happened(cfg, Apply(cfg, s, steps[0]), steps[1..], LogAfter(cfg, s, steps[0], log))
  }

  lemma {:induction false} HappenedIsTheLog(cfg: Config, s: State, steps: seq<Node.Step>, log: seq<Event>, front: seq<Event>)
    requires |s.slots| == |cfg.keys| && IsRun(cfg, s, steps) && s.log == front + log
    ensures After(cfg, s, steps).log == front + Happened(cfg, s, steps, log)
    decreases |steps|
  {
    if steps != [] {
      RecordedIsAppended(cfg, s, steps[0]);
      HappenedIsTheLog(cfg, Apply(cfg, s, steps[0]), steps[1..], LogAfter(cfg, s, steps[0], log), front);
    }
  }

  lemma {:induction false} RememberedOverRuns(cfg: Config, s: State, steps: seq<Node.Step>, log: seq<Event>, before: Value, i: nat)
    requires UniqueKeyrefs(cfg) && Inv(cfg, s) && IsRun(cfg, s, steps) && i < |s.slots|
    requires Remembered(s, log, before, i, cfg.keys[i].keyref) && AllAnswersHeld(before, log, i, cfg.keys[i].keyref)
    ensures var more := Happened(cfg, s, steps, log);
      && Remembered(After(cfg, s, steps), more, before, i, cfg.keys[i].keyref)
      && AllAnswersHeld(before, more, i, cfg.keys[i].keyref)
    decreases |steps|
  {
    if steps != [] {
      InvStep(cfg, s, steps[0]);
      RememberedStep(cfg, s, steps[0], log, before, i);
      if Recorded(cfg, s, steps[0]).Some? {
        OneMoreAnswer(before, log, Recorded(cfg, s, steps[0]).value, i, cfg.keys[i].keyref);
      }
      RememberedOverRuns(cfg, Apply(cfg, s, steps[0]), steps[1..], LogAfter(cfg, s, steps[0], log), before, i);
    }
  }

  // In every run a key holds what was stored last, and every VALUE sent for it
  // is what it held when the GET was answered.
  lemma RunsHoldTheLastStore(cfg: Config, s0: State, steps: seq<Node.Step>, i: nat)
    requires UniqueKeyrefs(cfg) && Inv(cfg, s0) && IsRun(cfg, s0, steps) && i < |s0.slots|
    ensures var s, before, k := After(cfg, s0, steps), s0.slots[i].value, cfg.keys[i].keyref;
      && |s0.log| <= |s.log|
      && s.slots[i].value == Held(before, s.log[|s0.log|..], i)
      && forall p, v :: |s0.log| <= p < |s.log| && s.log[p] == Reply(Incoming.Get(k), Ordinarily(Current(v))) ==>
           v == Held(before, s.log[|s0.log|..p], i)
  {
    var more := Happened(cfg, s0, steps, []);
    assert s0.log == s0.log + [];
    HappenedIsTheLog(cfg, s0, steps, [], s0.log);
    RememberedOverRuns(cfg, s0, steps, [], s0.slots[i].value, i);
    AnswersBehind(s0.log, more, s0.slots[i].value, i, cfg.keys[i].keyref);
  }

  lemma AnswersBehind(front: seq<Event>, more: seq<Event>, before: Value, i: nat, k: u16)
    requires AllAnswersHeld(before, more, i, k)
    ensures var log, n := front + more, |front|;
      && log[n..] == more
      && forall p, v :: n <= p < |log| && log[p] == Reply(Incoming.Get(k), Ordinarily(Current(v))) ==> v == Held(before, log[n..p], i)
  {
    var log, n := front + more, |front|;
    forall p, v | n <= p < |log| && log[p] == Reply(Incoming.Get(k), Ordinarily(Current(v)))
      ensures v == Held(before, log[n..p], i)
    {
      assert log[n..p] == more[..p - n];
      assert AnswersHeld(before, more[..p - n], i, k, more[p - n]);
    }
  }
}
