// What the history of a connection always shows: which CHANGED frames appear,
// where, and how many.
module NodeHistory {
  import opened Bytes
  import opened Messages
  import opened Requests
  import opened Values
  import opened Node
  import opened NodeInvariant
  import Caps

  function Last(log: seq<Event>): (e: Event)
    requires log != []
  {
    log[|log| - 1]
  }

  function Init(log: seq<Event>): (r: seq<Event>)
    requires log != []
  {
    log[..|log| - 1]
  }

  lemma Grown(log: seq<Event>, e: Event)
    ensures Init(log + [e]) == log && Last(log + [e]) == e
  {
  }

  function Decided(request: Incoming, frame: Message): (e: Event)
  {
    if Fits(frame) then Reply(request, frame) else Refuse(request, frame)
  }

  // Every step records at most one event.
  function Recorded(cfg: Config, s: State, step: Node.Step): (e: Option<Event>)
    requires |s.slots| == |cfg.keys| && Enabled(cfg, s, step)
  {
    match step
    case SetBegin(_, slot, value) => Some(Store(slot, value, Local))
    case SetBump(task) => Some(Bump(s.setters[task].slot, Local))
    case Handle =>
      (match WriteTarget(cfg, s.phase.request)
       case Some(target) => Some(Store(target.0, target.1, ByWrite(s.phase.request)))
       case None => Some(Decided(s.phase.request, Response(cfg, s.slots, s.phase.request))))
    case WriteBump => Some(Bump(s.phase.stage.slot, ByWrite(s.phase.request)))
    case WriteNotify => Some(Decided(s.phase.request, Ordinarily(Written(s.phase.value))))
    case Visit => if Reports(cfg, s, s.phase.next) then Some(Notify(cfg.keys[s.phase.next].keyref)) else None
    case _ => None
  }

  lemma RecordedIsAppended(cfg: Config, s: State, step: Node.Step)
    requires |s.slots| == |cfg.keys| && Enabled(cfg, s, step)
    ensures Apply(cfg, s, step).log ==
      if Recorded(cfg, s, step).Some? then s.log + [Recorded(cfg, s, step).value] else s.log
  {
  }

  // The answers that switch observation of a key on and off.
  function Observed(k: u16): (e: Event)
  {
    Reply(Incoming.Observe(k), Ordinarily(Okay))
  }

  function Unobserved(k: u16): (e: Event)
  {
    Reply(Incoming.Unobserve(k), Ordinarily(Okay))
  }

  // ---- Observation ----

  // Is the key observed, going by the answers the client was given?
  predicate ObservedBy(log: seq<Event>, k: u16)
  {
    if log == [] then false
    else if Last(log) == Observed(k) then true
    else if Last(log) == Unobserved(k) then false
    else ObservedBy(Init(log), k)
  }

  // The server's observation flags are what the client was told.
  predicate ObservationAgrees(cfg: Config, s: State)
    requires |s.slots| == |cfg.keys|
  {
    && (forall i :: 0 <= i < |s.slots| ==> (s.slots[i].observed <==> ObservedBy(s.log, cfg.keys[i].keyref)))
    && (forall i :: 0 <= i < |s.slots| && s.slots[i].observed ==> cfg.keys[i].keyref < KeyCount(cfg.keys))
  }

  // A CHANGED frame at position p is allowed by everything before it.
  ghost predicate NotifyAllowed(cfg: Config, log: seq<Event>, p: nat)
    requires p < |log|
  {
    log[p].Notify? ==>
      && ObservedBy(log[..p], log[p].keyref)
      && log[p].keyref < KeyCount(cfg.keys)
      && HasObservable(cfg)
      && OpenWrite(log[..p]).None?
  }

  // ---- WRITE answers ----

  // The WRITE that is stored and not yet answered.
  function OpenWrite(log: seq<Event>): (r: Option<(Incoming, Value)>)
  {
    if log == [] then None
    else match Last(log)
      case Store(_, value, ByWrite(request)) => Some((request, value))
      case Reply(_, _) => None
      case Refuse(_, _) => None
      case _ => OpenWrite(Init(log))
  }

  predicate WriteAgrees(s: State)
  {
    OpenWrite(s.log) == if s.phase.Writing? then Some((s.phase.request, s.phase.value)) else None
  }

  // An answer given while a WRITE is open is the WRITTEN frame of that WRITE; it
  // always fits a frame, and no other WRITE is stored meanwhile.
  ghost predicate AnswersOpenWrite(log: seq<Event>, p: nat)
    requires p < |log|
  {
    && (log[p].Store? && log[p].source.ByWrite? ==> OpenWrite(log[..p]).None?)
    && (log[p].Refuse? ==> OpenWrite(log[..p]).None?)
    && (log[p].Reply? && OpenWrite(log[..p]).Some? ==>
      log[p] == Reply(OpenWrite(log[..p]).value.0, Ordinarily(Written(OpenWrite(log[..p]).value.1))))
  }

  // ---- Updates not yet reported ----

  // Updates of slot i counted since the client was last told of the key, or
  // last asked to be.
  function Unreported(log: seq<Event>, i: nat, k: u16): (n: nat)
  {
    if log == [] then 0
    else if Last(log) == Observed(k) || Last(log) == Notify(k) then 0
    else Unreported(Init(log), i, k) + (if Last(log).Bump? && Last(log).slot == i then 1 else 0)
  }

  // Updates of slot i and CHANGED frames for it since the latest OBSERVE.
  function Updates(log: seq<Event>, i: nat, k: u16): (n: nat)
  {
    if log == [] || Last(log) == Observed(k) then 0
    else Updates(Init(log), i, k) + (if Last(log).Bump? && Last(log).slot == i then 1 else 0)
  }

  function Notifies(log: seq<Event>, k: u16): (n: nat)
  {
    if log == [] || Last(log) == Observed(k) then 0
    else Notifies(Init(log), k) + (if Last(log) == Notify(k) then 1 else 0)
  }

  predicate CountsAgree(cfg: Config, s: State, i: nat)
    requires i < |s.slots| == |cfg.keys|
  {
    var k, slot := cfg.keys[i].keyref, s.slots[i];
    && (slot.observed ==> slot.count - slot.seenCount == Unreported(s.log, i, k))
    && (slot.observed ==> Notifies(s.log, k) + Unreported(s.log, i, k) <= Updates(s.log, i, k))
    && Notifies(s.log, k) <= Updates(s.log, i, k)
  }

  ghost predicate History(cfg: Config, s: State)
  {
    && Inv(cfg, s)
    && ObservationAgrees(cfg, s)
    && WriteAgrees(s)
    && (forall i :: 0 <= i < |s.slots| ==> CountsAgree(cfg, s, i))
    && (forall p :: 0 <= p < |s.log| ==> NotifyAllowed(cfg, s.log, p))
    && (forall p :: 0 <= p < |s.log| ==> AnswersOpenWrite(s.log, p))
  }

  // ---- One step ----

  lemma InvStep(cfg: Config, s: State, step: Node.Step)
    requires Inv(cfg, s) && Enabled(cfg, s, step)
    ensures Inv(cfg, Apply(cfg, s, step))
  {
    SoundStep(cfg, s, step);
    NoLostChangeStep(cfg, s, step);
  }

  // Only answers and reports touch the record of observation.
  lemma RecordsKept(cfg: Config, s: State, step: Node.Step, i: nat)
    requires |s.slots| == |cfg.keys| && Enabled(cfg, s, step) && i < |s.slots|
    requires !step.Handle? && !step.Visit?
    ensures var r := Apply(cfg, s, step);
      && r.slots[i].observed == s.slots[i].observed
      && r.slots[i].seenCount == s.slots[i].seenCount
  {
  }

  // What Handle does to the record of slot i, and to the log.
  lemma HandleRecord(cfg: Config, s: State, i: nat)
    requires UniqueKeyrefs(cfg) && |s.slots| == |cfg.keys| && s.phase.Handling? && i < |s.slots|
    ensures var r, k := Apply(cfg, s, Handle), cfg.keys[i].keyref;
      var e := Recorded(cfg, s, Handle).value;
      if e == Observed(k) then
        r.slots[i] == Look(s.slots[i], true) && k < KeyCount(cfg.keys)
      else if e == Unobserved(k) then
        r.slots[i] == Look(s.slots[i], false)
      else
        r.slots[i] == s.slots[i].(value := r.slots[i].value)
  {
    var request := s.phase.request;
    FindUnique(cfg, i);
    if WriteTarget(cfg, request).None? && Switches(cfg, request).Some? {
      assert cfg.keys[Switches(cfg, request).value].keyref == request.keyref;
    }
  }

  lemma FindUnique(cfg: Config, i: nat)
    requires UniqueKeyrefs(cfg) && i < |cfg.keys|
    ensures FindSlot(cfg.keys, cfg.keys[i].keyref) == Some(i)
  {
    assert FindSlot(cfg.keys, cfg.keys[i].keyref).Some?;
  }

  lemma ObservationStep(cfg: Config, s: State, step: Node.Step)
    requires UniqueKeyrefs(cfg) && Sound(cfg, s) && Enabled(cfg, s, step)
    requires ObservationAgrees(cfg, s)
    ensures ObservationAgrees(cfg, Apply(cfg, s, step))
  {
    var r := Apply(cfg, s, step);
    RecordedIsAppended(cfg, s, step);
    if Recorded(cfg, s, step).Some? {
      Grown(s.log, Recorded(cfg, s, step).value);
    }
    forall i | 0 <= i < |r.slots|
      ensures r.slots[i].observed <==> ObservedBy(r.log, cfg.keys[i].keyref)
      ensures r.slots[i].observed ==> cfg.keys[i].keyref < KeyCount(cfg.keys)
    {
      if step.Handle? {
        HandleRecord(cfg, s, i);
      } else if !step.Visit? {
        RecordsKept(cfg, s, step, i);
        assert step.WriteNotify? ==> s.phase.request.Write?;
      }
    }
  }

  lemma WriteStep(cfg: Config, s: State, step: Node.Step)
    requires Sound(cfg, s) && Enabled(cfg, s, step) && WriteAgrees(s)
    ensures WriteAgrees(Apply(cfg, s, step))
  {
    RecordedIsAppended(cfg, s, step);
    var e := Recorded(cfg, s, step);
    if e.Some? {
      OpenWriteGrows(s.log, e.value);
    }
    match step
    case Handle => WriteHandled(cfg, s);
    case _ =>
  }

  lemma OpenWriteGrows(log: seq<Event>, e: Event)
    ensures OpenWrite(log + [e]) ==
      match e
      case Store(_, value, ByWrite(request)) => Some((request, value))
      case Reply(_, _) => None
      case Refuse(_, _) => None
      case _ => OpenWrite(log)
  {
    Grown(log, e);
  }

  lemma WriteHandled(cfg: Config, s: State)
    requires Sound(cfg, s) && s.phase.Handling? && WriteAgrees(s)
    ensures WriteAgrees(Apply(cfg, s, Handle))
  {
    OpenWriteGrows(s.log, Recorded(cfg, s, Handle).value);
  }

  lemma CountsStep(cfg: Config, s: State, step: Node.Step, i: nat)
    requires UniqueKeyrefs(cfg) && Sound(cfg, s) && Enabled(cfg, s, step)
    requires i < |s.slots| && CountsAgree(cfg, s, i)
    ensures CountsAgree(cfg, Apply(cfg, s, step), i)
  {
    if step.Handle? {
      HandleCounts(cfg, s, i);
    } else if step.Visit? {
      VisitCounts(cfg, s, i);
    } else {
      RecordedIsAppended(cfg, s, step);
      if Recorded(cfg, s, step).Some? {
        CountsGrow(s.log, Recorded(cfg, s, step).value, i, cfg.keys[i].keyref);
      }
      RecordsKept(cfg, s, step, i);
    }
  }

  lemma CountsGrow(log: seq<Event>, e: Event, i: nat, k: u16)
    ensures var more, one := log + [e], if e.Bump? && e.slot == i then 1 else 0;
      if e == Observed(k) then Unreported(more, i, k) == Updates(more, i, k) == Notifies(more, k) == 0
      else
        && Updates(more, i, k) == Updates(log, i, k) + one
        && Notifies(more, k) == Notifies(log, k) + (if e == Notify(k) then 1 else 0)
        && Unreported(more, i, k) == if e == Notify(k) then 0 else Unreported(log, i, k) + one
  {
    Grown(log, e);
  }

  lemma HandleCounts(cfg: Config, s: State, i: nat)
    requires UniqueKeyrefs(cfg) && Sound(cfg, s) && s.phase.Handling?
    requires i < |s.slots| && CountsAgree(cfg, s, i)
    ensures CountsAgree(cfg, Apply(cfg, s, Handle), i)
  {
    RecordedIsAppended(cfg, s, Handle);
    CountsGrow(s.log, Recorded(cfg, s, Handle).value, i, cfg.keys[i].keyref);
    HandleRecord(cfg, s, i);
  }

  lemma VisitCounts(cfg: Config, s: State, i: nat)
    requires UniqueKeyrefs(cfg) && Sound(cfg, s) && Enabled(cfg, s, Visit)
    requires i < |s.slots| && CountsAgree(cfg, s, i)
    ensures CountsAgree(cfg, Apply(cfg, s, Visit), i)
  {
    var j := s.phase.next;
    assert SlotOk(cfg, s.slots[j], j);
    if Reports(cfg, s, j) {
      CountsGrow(s.log, Notify(cfg.keys[j].keyref), i, cfg.keys[i].keyref);
      assert j != i ==> cfg.keys[j].keyref != cfg.keys[i].keyref;
      if j == i {
        assert s.slots[i].count != s.slots[i].seenCount;
      }
    }
  }

  lemma EventsStep(cfg: Config, s: State, step: Node.Step)
    requires UniqueKeyrefs(cfg) && History(cfg, s) && Enabled(cfg, s, step)
    ensures var r := Apply(cfg, s, step);
      forall p :: 0 <= p < |r.log| ==> NotifyAllowed(cfg, r.log, p) && AnswersOpenWrite(r.log, p)
  {
    var r := Apply(cfg, s, step);
    RecordedIsAppended(cfg, s, step);
    forall p | 0 <= p < |r.log|
      ensures NotifyAllowed(cfg, r.log, p) && AnswersOpenWrite(r.log, p)
    {
      if p < |s.log| {
        assert r.log[..p] == s.log[..p] && r.log[p] == s.log[p];
        assert NotifyAllowed(cfg, s.log, p) && AnswersOpenWrite(s.log, p);
      } else {
        assert r.log[..p] == s.log;
        NewEvent(cfg, s, step);
      }
    }
  }

  lemma NewEvent(cfg: Config, s: State, step: Node.Step)
    requires UniqueKeyrefs(cfg) && History(cfg, s) && Enabled(cfg, s, step) && Recorded(cfg, s, step).Some?
    ensures var e := Recorded(cfg, s, step).value;
      && (e.Notify? ==> ObservedBy(s.log, e.keyref) && e.keyref < KeyCount(cfg.keys) && HasObservable(cfg) && OpenWrite(s.log).None?)
      && (e.Store? && e.source.ByWrite? ==> OpenWrite(s.log).None?)
      && (e.Refuse? ==> OpenWrite(s.log).None?)
      && (e.Reply? && OpenWrite(s.log).Some? ==>
            e == Reply(OpenWrite(s.log).value.0, Ordinarily(Written(OpenWrite(s.log).value.1))))
  {
    if step.Visit? {
      var i := s.phase.next;
      assert s.slots[i].observed <==> ObservedBy(s.log, cfg.keys[i].keyref);
    }
  }

  lemma HistoryStep(cfg: Config, s: State, step: Node.Step)
    requires UniqueKeyrefs(cfg) && History(cfg, s) && Enabled(cfg, s, step)
    ensures History(cfg, Apply(cfg, s, step))
  {
    InvStep(cfg, s, step);
    ObservationStep(cfg, s, step);
    WriteStep(cfg, s, step);
    EventsStep(cfg, s, step);
    forall i | 0 <= i < |s.slots|
      ensures CountsAgree(cfg, Apply(cfg, s, step), i)
    {
      CountsStep(cfg, s, step, i);
    }
  }

  // ---- Whole runs ----

  lemma {:induction false} HistoryHoldsOverRuns(cfg: Config, s: State, steps: seq<Node.Step>)
    requires UniqueKeyrefs(cfg) && History(cfg, s) && IsRun(cfg, s, steps)
    ensures History(cfg, After(cfg, s, steps))
    decreases |steps|
  {
    if steps != [] {
      HistoryStep(cfg, s, steps[0]);
      HistoryHoldsOverRuns(cfg, Apply(cfg, s, steps[0]), steps[1..]);
    }
  }

  lemma FromConnection(cfg: Config, s0: State, steps: seq<Node.Step>)
    requires UniqueKeyrefs(cfg) && Connected(cfg, s0) && IsRun(cfg, s0, steps)
    ensures History(cfg, After(cfg, s0, steps))
  {
    InitialInv(cfg, s0);
    HistoryHoldsOverRuns(cfg, s0, steps);
  }

  // Emission safety: in every run, a CHANGED frame follows the OK of an OBSERVE
  // that no answered UNOBSERVE has revoked, names a key in range, and is sent
  // only by a node whose caps end in the change marker.
  lemma ChangedOnlyWhileObserved(cfg: Config, s0: State, steps: seq<Node.Step>, p: nat)
    requires UniqueKeyrefs(cfg) && Connected(cfg, s0) && IsRun(cfg, s0, steps)
    requires p < |After(cfg, s0, steps).log| && After(cfg, s0, steps).log[p].Notify?
    ensures var log := After(cfg, s0, steps).log;
      var k := log[p].keyref;
      && k < KeyCount(cfg.keys)
      && Caps.SupportsChanged(CapsString(cfg))
      && (exists q :: 0 <= q < p && log[q] == Observed(k)
           && forall r :: q < r < p ==> log[r] != Unobserved(k))
  {
    FromConnection(cfg, s0, steps);
    var log := After(cfg, s0, steps).log;
    assert NotifyAllowed(cfg, log, p);
    var q := LatestObserve(log[..p], log[p].keyref);
    assert log[..p][q] == log[q];
    assert forall r :: q < r < p ==> log[..p][r] == log[r];
  }

  lemma {:induction false} LatestObserve(log: seq<Event>, k: u16) returns (q: nat)
    requires ObservedBy(log, k)
    ensures q < |log| && log[q] == Observed(k)
    ensures forall r :: q < r < |log| ==> log[r] != Unobserved(k)
  {
    if Last(log) == Observed(k) {
      q := |log| - 1;
    } else {
      q := LatestObserve(Init(log), k);
      assert Init(log)[q] == log[q];
      assert forall r :: q < r < |log| - 1 ==> Init(log)[r] == log[r];
    }
  }

  // The WRITTEN frame of a WRITE comes before every CHANGED frame that follows
  // the update it made.
  lemma WrittenPrecedesChanged(cfg: Config, s0: State, steps: seq<Node.Step>, p: nat, q: nat)
    requires UniqueKeyrefs(cfg) && Connected(cfg, s0) && IsRun(cfg, s0, steps)
    requires p < q < |After(cfg, s0, steps).log|
    requires var log := After(cfg, s0, steps).log;
      log[p].Store? && log[p].source.ByWrite? && log[q].Notify?
    ensures var log := After(cfg, s0, steps).log;
      exists r :: p < r < q && log[r] == Reply(log[p].source.request, Ordinarily(Written(log[p].value)))
  {
    FromConnection(cfg, s0, steps);
    var log := After(cfg, s0, steps).log;
    assert NotifyAllowed(cfg, log, q);
    assert log[..p + 1][..p] == log[..p] && Last(log[..p + 1]) == log[p];
    assert AnswersOpenWrite(log, p);
    var r := FirstAnswer(log, p, q);
    assert AnswersOpenWrite(log, r);
  }

  // The first answer after a WRITE was stored, which closes it.
  lemma {:induction false} FirstAnswer(log: seq<Event>, p: nat, q: nat) returns (r: nat)
    requires p < q <= |log| && log[p].Store? && log[p].source.ByWrite?
    requires OpenWrite(log[..p + 1]) == Some((log[p].source.request, log[p].value))
    requires OpenWrite(log[..q]).None?
    requires forall x :: 0 <= x < |log| ==> AnswersOpenWrite(log, x)
    ensures p < r < q && log[r].Reply?
    ensures OpenWrite(log[..r]) == Some((log[p].source.request, log[p].value))
  {
    r := p + 1;
    while r < q && !log[r].Reply?
      invariant p < r <= q
      invariant OpenWrite(log[..r]) == Some((log[p].source.request, log[p].value))
    {
      assert AnswersOpenWrite(log, r);
      assert Init(log[..r + 1]) == log[..r] && Last(log[..r + 1]) == log[r];
      r := r + 1;
    }
  }

  // Coalescing: since the latest OBSERVE of a key there are never more CHANGED
  // frames for it than updates of it, generation wraparound or not.
  lemma NeverMoreChangedThanUpdates(cfg: Config, s0: State, steps: seq<Node.Step>, i: nat)
    requires UniqueKeyrefs(cfg) && Connected(cfg, s0) && IsRun(cfg, s0, steps) && i < |cfg.keys|
    ensures var s, k := After(cfg, s0, steps), cfg.keys[i].keyref;
      Notifies(s.log, k) <= Updates(s.log, i, k)
  {
    FromConnection(cfg, s0, steps);
    assert CountsAgree(cfg, After(cfg, s0, steps), i);
  }

  // At rest, what an observed key has left unreported is a multiple of 2^32
  // updates; so if it is fewer than that, every update is followed by a CHANGED
  // frame or absorbed by a later OBSERVE.
  lemma AtRestEverythingIsReported(cfg: Config, s0: State, steps: seq<Node.Step>, i: nat)
    requires UniqueKeyrefs(cfg) && Connected(cfg, s0) && IsRun(cfg, s0, steps) && i < |cfg.keys|
    requires var s := After(cfg, s0, steps); AtRest(s) && s.slots[i].observed
    ensures var log, k := After(cfg, s0, steps).log, cfg.keys[i].keyref;
      && Unreported(log, i, k) % GENERATIONS == 0
      && (Unreported(log, i, k) < GENERATIONS <==> EveryUpdateReported(log, i, k))
  {
    FromConnection(cfg, s0, steps);
    AtRestNothingIsPending(cfg, s0, steps, i);
    var s, k := After(cfg, s0, steps), cfg.keys[i].keyref;
    assert CountsAgree(cfg, s, i);
    UnreportedMeaning(s.log, i, k);
    if Unreported(s.log, i, k) < GENERATIONS {
      assert Unreported(s.log, i, k) == 0;
    }
  }

  ghost predicate EveryUpdateReported(log: seq<Event>, i: nat, k: u16)
  {
    forall p :: 0 <= p < |log| && log[p].Bump? && log[p].slot == i ==> ReportedAfter(log, p, k)
  }

  ghost predicate ReportedAfter(log: seq<Event>, p: nat, k: u16)
  {
    exists q :: p < q < |log| && (log[q] == Notify(k) || log[q] == Observed(k))
  }

  lemma {:induction false} UnreportedMeaning(log: seq<Event>, i: nat, k: u16)
    ensures Unreported(log, i, k) == 0 <==> EveryUpdateReported(log, i, k)
  {
    if log != [] {
      var init, e := Init(log), Last(log);
      UnreportedMeaning(init, i, k);
      if e == Observed(k) || e == Notify(k) {
        forall p | 0 <= p < |log| && log[p].Bump? && log[p].slot == i
          ensures ReportedAfter(log, p, k)
        {
          assert p < |log| - 1 < |log|;
        }
      } else if e.Bump? && e.slot == i {
        assert !ReportedAfter(log, |log| - 1, k);
      } else {
        forall p | 0 <= p < |init| && init[p].Bump? && init[p].slot == i
          ensures ReportedAfter(init, p, k) <==> ReportedAfter(log, p, k)
        {
          assert forall q :: 0 <= q < |init| ==> init[q] == log[q];
        }
      }
    }
  }

  // The places at or behind q with a CHANGED of key k, and with an update of
  // slot i.
  function NotifiesFrom(log: seq<Event>, q: nat, k: u16): (places: set<nat>)
  {
    set p: nat | q <= p < |log| && log[p] == Notify(k)
  }

  function BumpsFrom(log: seq<Event>, q: nat, i: nat): (places: set<nat>)
  {
    set p: nat | q <= p < |log| && log[p].Bump? && log[p].slot == i
  }

  // The counts are those of the places behind the latest OBSERVE, and for what is
  // unreported behind the latest OBSERVE or CHANGED.
  lemma {:induction false} CountsMeaning(log: seq<Event>, i: nat, k: u16) returns (q: nat, u: nat)
    ensures q <= u <= |log|
    ensures (q == 0 || log[q - 1] == Observed(k)) && forall p :: q <= p < |log| ==> log[p] != Observed(k)
    ensures (u == 0 || log[u - 1] == Observed(k) || log[u - 1] == Notify(k)) && forall p :: u <= p < |log| ==> log[p] != Notify(k)
    ensures Notifies(log, k) == |NotifiesFrom(log, q, k)|
    ensures Updates(log, i, k) == |BumpsFrom(log, q, i)|
    ensures Unreported(log, i, k) == |BumpsFrom(log, u, i)|
  {
    if log == [] {
      q, u := 0, 0;
    } else {
      var init, e, n := Init(log), Last(log), |log| - 1;
      q, u := CountsMeaning(init, i, k);
      OneMorePlace(log, q, i, k);
      OneMorePlace(log, u, i, k);
      if e == Observed(k) {
        q := |log|;
      }
      if e == Observed(k) || e == Notify(k) {
        u := |log|;
      }
    }
  }

  lemma OneMorePlace(log: seq<Event>, q: nat, i: nat, k: u16)
    requires log != [] && q < |log|
    ensures |NotifiesFrom(log, q, k)| == |NotifiesFrom(Init(log), q, k)| + (if Last(log) == Notify(k) then 1 else 0)
    ensures |BumpsFrom(log, q, i)| == |BumpsFrom(Init(log), q, i)| + (if Last(log).Bump? && Last(log).slot == i then 1 else 0)
  {
    var n := |log| - 1;
    assert NotifiesFrom(log, q, k) == NotifiesFrom(Init(log), q, k) + (if Last(log) == Notify(k) then {n} else {});
    assert BumpsFrom(log, q, i) == BumpsFrom(Init(log), q, i) + (if Last(log).Bump? && Last(log).slot == i then {n} else {});
  }

  // ---- One CHANGED frame per key and flush ----

  function Reported(log: seq<Event>, k: u16): (n: nat)
  {
    multiset(log)[Notify(k)]
  }

  function VisitsLeft(s: State, i: nat): (n: nat)
  {
    if WillVisit(s, i) then 1 else 0
  }

  predicate StartsTurn(step: Node.Step)
  {
    step.TakeRequest? || step.TakeNotification?
  }

  lemma ReportUsesUpVisit(cfg: Config, s: State, step: Node.Step, i: nat)
    requires UniqueKeyrefs(cfg) && |s.slots| == |cfg.keys| && i < |cfg.keys|
    requires Enabled(cfg, s, step) && !StartsTurn(step)
    ensures var r, k := Apply(cfg, s, step), cfg.keys[i].keyref;
      Reported(r.log, k) + VisitsLeft(r, i) <= Reported(s.log, k) + VisitsLeft(s, i)
  {
    RecordedIsAppended(cfg, s, step);
  }

  // Between two turns of the server loop, however the setters interleave, a key
  // is reported at most once.
  lemma {:induction false} AtMostOncePerTurn(cfg: Config, s: State, steps: seq<Node.Step>, i: nat)
    requires UniqueKeyrefs(cfg) && |s.slots| == |cfg.keys| && i < |cfg.keys| && IsRun(cfg, s, steps)
    requires forall j :: 0 <= j < |steps| ==> !StartsTurn(steps[j])
    ensures var r, k := After(cfg, s, steps), cfg.keys[i].keyref;
      Reported(r.log, k) + VisitsLeft(r, i) <= Reported(s.log, k) + VisitsLeft(s, i) <= Reported(s.log, k) + 1
    decreases |steps|
  {
    if steps != [] {
      ReportUsesUpVisit(cfg, s, steps[0], i);
      AtMostOncePerTurn(cfg, Apply(cfg, s, steps[0]), steps[1..], i);
    }
  }
}
