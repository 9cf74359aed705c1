// What every step of the node keeps: no change is lost on its way to a CHANGED
// frame.
module NodeInvariant {
  import opened Bytes
  import opened Messages
  import opened Requests
  import opened Values
  import opened Node

  predicate SlotOk(cfg: Config, slot: Slot, i: nat)
    requires i < |cfg.keys|
  {
    && slot.gen == slot.count % GENERATIONS
    && slot.seen == slot.seenCount % GENERATIONS
    && slot.seenCount <= slot.count
    && (slot.observed ==> cfg.keys[i].perm.observable)
  }

  predicate PhaseOk(cfg: Config, s: State)
    requires |s.slots| == |cfg.keys|
  {
    match s.phase
    case Handling(request) => Framed(request)
    case Writing(request, value, stage) =>
      && !stage.Idle? && StageOk(cfg, stage) && ValueFits(value)
      && WriteTarget(cfg, request) == Some((stage.slot, value))
      && (!stage.Stored? ==> s.slots[stage.slot].seenCount < s.slots[stage.slot].count)
    case Emitting(frame, resume) => resume <= |cfg.keys| && Fits(frame)
    case Flushing(next) => next <= |cfg.keys|
    case Stopped(_, frame) => !Fits(frame)
    case Waiting => true
  }

  predicate Sound(cfg: Config, s: State)
  {
    && |s.slots| == |cfg.keys|
    && (forall i :: 0 <= i < |s.slots| ==> SlotOk(cfg, s.slots[i], i))
    && (forall t :: 0 <= t < |s.setters| ==> StageOk(cfg, s.setters[t]))
    && (forall q :: 0 <= q < |s.inbox| ==> Framed(s.inbox[q]))
    && PhaseOk(cfg, s)
  }

  // A task has counted its update of slot i and not yet signalled the server.
  predicate AboutToSignal(stage: Stage, i: nat)
  {
    stage == Bumped(i) || stage == Woken(i)
  }

  predicate SetterAboutToSignal(s: State, i: nat)
  {
    exists t :: 0 <= t < |s.setters| && AboutToSignal(s.setters[t], i)
  }

  // The server will look at slot i before it next waits.
  predicate WillVisit(s: State, i: nat)
  {
    match s.phase
    case Waiting => false
    case Handling(_) => true
    case Writing(_, _, _) => true
    case Emitting(_, resume) => resume <= i
    case Flushing(next) => next <= i
    case Stopped(_, _) => false
  }

  predicate OnItsWay(s: State, i: nat)
  {
    s.notifier || SetterAboutToSignal(s, i) || WillVisit(s, i)
  }

  predicate NoLostChange(s: State)
  {
    !s.phase.Stopped? ==>
      forall i :: 0 <= i < |s.slots| && s.slots[i].observed && s.slots[i].gen != s.slots[i].seen ==> OnItsWay(s, i)
  }

  predicate Inv(cfg: Config, s: State)
  {
    Sound(cfg, s) && NoLostChange(s)
  }

  lemma InitialInv(cfg: Config, s: State)
    requires Connected(cfg, s)
    ensures Inv(cfg, s)
  {
  }

  lemma SoundStep(cfg: Config, s: State, step: Step)
    requires Sound(cfg, s) && Enabled(cfg, s, step)
    ensures Sound(cfg, Apply(cfg, s, step))
  {
    var r := Apply(cfg, s, step);
    SettersSound(cfg, s, step);
    InboxSound(cfg, s, step);
    PhaseSound(cfg, s, step);
    forall i | 0 <= i < |r.slots|
      ensures SlotOk(cfg, r.slots[i], i)
    {
      SlotSound(cfg, s, step, i);
    }
  }

  lemma SlotSound(cfg: Config, s: State, step: Step, i: nat)
    requires Sound(cfg, s) && Enabled(cfg, s, step) && i < |s.slots|
    ensures SlotOk(cfg, Apply(cfg, s, step).slots[i], i)
  {
    SlotMove(cfg, s, step, i);
    MoveKeepsOk(cfg, s.slots[i], Apply(cfg, s, step).slots[i], i);
  }

  // What a step can do to a slot: store a value, count an update, or look.
  predicate SlotMoves(cfg: Config, a: Slot, b: Slot, i: nat)
    requires i < |cfg.keys|
  {
    || b == a.(value := b.value)
    || b == Advance(a)
    || (b == Look(a, b.observed) && (b.observed ==> cfg.keys[i].perm.observable))
  }

  lemma SlotMove(cfg: Config, s: State, step: Step, i: nat)
    requires |s.slots| == |cfg.keys| && Enabled(cfg, s, step) && i < |s.slots|
    ensures SlotMoves(cfg, s.slots[i], Apply(cfg, s, step).slots[i], i)
  {
  }

  lemma MoveKeepsOk(cfg: Config, a: Slot, b: Slot, i: nat)
    requires i < |cfg.keys| && SlotOk(cfg, a, i) && SlotMoves(cfg, a, b, i)
    ensures SlotOk(cfg, b, i)
  {
  }

  lemma SettersSound(cfg: Config, s: State, step: Step)
    requires Sound(cfg, s) && Enabled(cfg, s, step)
    ensures var r := Apply(cfg, s, step);
      forall t :: 0 <= t < |r.setters| ==> StageOk(cfg, r.setters[t])
  {
  }

  lemma InboxSound(cfg: Config, s: State, step: Step)
    requires Sound(cfg, s) && Enabled(cfg, s, step)
    ensures var r := Apply(cfg, s, step);
      forall q :: 0 <= q < |r.inbox| ==> Framed(r.inbox[q])
  {
  }

  // What a framed WRITE stores fits a frame again.
  lemma FramedWriteFits(cfg: Config, request: Incoming)
    requires Framed(request) && WriteTarget(cfg, request).Some?
    ensures ValueFits(WriteTarget(cfg, request).value.1) && TextOk(WriteTarget(cfg, request).value.1)
  {
  }

  lemma PhaseSound(cfg: Config, s: State, step: Step)
    requires Sound(cfg, s) && Enabled(cfg, s, step)
    ensures PhaseOk(cfg, Apply(cfg, s, step))
  {
    if step.Handle? && WriteTarget(cfg, s.phase.request).Some? {
      FramedWriteFits(cfg, s.phase.request);
    }
    if step.WriteBump? {
      assert SlotOk(cfg, s.slots[s.phase.stage.slot], s.phase.stage.slot);
    }
  }

  // A slot whose record did not change keeps its way to the client when the
  // step leaves the signals and the server's route in place.
  lemma NoLostChangeStep(cfg: Config, s: State, step: Step)
    requires Inv(cfg, s) && Enabled(cfg, s, step)
    ensures NoLostChange(Apply(cfg, s, step))
  {
    var r := Apply(cfg, s, step);
    forall i | !r.phase.Stopped? && 0 <= i < |r.slots| && r.slots[i].observed && r.slots[i].gen != r.slots[i].seen
      ensures OnItsWay(r, i)
    {
      match step
      case SetBegin(task, slot, value) => KeepSetter(s, r, i, task);
      case SetBump(task) =>
        if s.setters[task].slot == i {
          assert AboutToSignal(r.setters[task], i);
        } else {
          KeepSetter(s, r, i, task);
        }
      case SetWake(task) =>
        if s.setters[task] == Bumped(i) {
          assert AboutToSignal(r.setters[task], i);
        } else {
          KeepSetter(s, r, i, task);
        }
      case SetNotify(task) =>
        if s.setters[task] != Woken(i) {
          KeepSetter(s, r, i, task);
        }
      case Handle => HandleKeeps(cfg, s, i);
      case _ =>
    }
  }

  // A task other than the moving one still stands about to signal.
  lemma KeepSetter(s: State, r: State, i: nat, task: nat)
    requires i < |s.slots|
    requires task < |s.setters| && |r.setters| == |s.setters|
    requires forall t :: 0 <= t < |s.setters| && t != task ==> r.setters[t] == s.setters[t]
    requires !AboutToSignal(s.setters[task], i)
    ensures SetterAboutToSignal(s, i) ==> SetterAboutToSignal(r, i)
  {
    if SetterAboutToSignal(s, i) {
      var t :| 0 <= t < |s.setters| && AboutToSignal(s.setters[t], i);
      assert AboutToSignal(r.setters[t], i);
    }
  }

  lemma HandleKeeps(cfg: Config, s: State, i: nat)
    requires Inv(cfg, s) && s.phase.Handling? && i < |s.slots|
    ensures var r := Apply(cfg, s, Handle);
      !r.phase.Stopped? && r.slots[i].observed && r.slots[i].gen != r.slots[i].seen ==> OnItsWay(r, i)
  {
    var r := Apply(cfg, s, Handle);
    if r.slots[i].observed {
      assert SlotOk(cfg, s.slots[i], i);
      assert HasObservable(cfg) by {
        SoundStep(cfg, s, Handle);
        assert SlotOk(cfg, r.slots[i], i);
        assert cfg.keys[i].perm.observable;
      }
    }
  }

  lemma {:induction false} InvHoldsOverRuns(cfg: Config, s: State, steps: seq<Step>)
    requires Inv(cfg, s) && IsRun(cfg, s, steps)
    ensures Inv(cfg, After(cfg, s, steps))
    decreases |steps|
  {
    if steps != [] {
      SoundStep(cfg, s, steps[0]);
      NoLostChangeStep(cfg, s, steps[0]);
      InvHoldsOverRuns(cfg, Apply(cfg, s, steps[0]), steps[1..]);
    }
  }

  // Nothing is moving: the server waits, it has not been signalled, and no
  // task is in the middle of an update.
  predicate AtRest(s: State)
  {
    && s.phase == Waiting && !s.notifier && s.inbox == []
    && (forall t :: 0 <= t < |s.setters| ==> s.setters[t] == Idle)
  }

  // In every reachable state at rest, the server's last look at an observed
  // key saw its current generation. The true counts then agree exactly when
  // fewer than 2^32 updates separate them; otherwise they differ by a multiple
  // of 2^32.
  lemma AtRestNothingIsPending(cfg: Config, s0: State, steps: seq<Step>, i: nat)
    requires Connected(cfg, s0) && IsRun(cfg, s0, steps)
    requires AtRest(After(cfg, s0, steps)) && i < |cfg.keys|
    requires After(cfg, s0, steps).slots[i].observed
    ensures var slot := After(cfg, s0, steps).slots[i];
      && slot.gen == slot.seen
      && (slot.count - slot.seenCount) % GENERATIONS == 0
      && (slot.seenCount == slot.count <==> slot.count - slot.seenCount < GENERATIONS)
  {
    InitialInv(cfg, s0);
    InvHoldsOverRuns(cfg, s0, steps);
    var s := After(cfg, s0, steps);
    assert !OnItsWay(s, i);
    assert SlotOk(cfg, s.slots[i], i);
    SameGeneration(s.slots[i].count, s.slots[i].seenCount);
  }

  lemma SameGeneration(a: nat, b: nat)
    requires b <= a
    ensures a % GENERATIONS == b % GENERATIONS <==> (a - b) % GENERATIONS == 0
    ensures a - b < GENERATIONS ==> (a % GENERATIONS == b % GENERATIONS <==> a == b)
  {
    var d := a - b;
    assert a == b + d;
  }

  // A look misses pending updates exactly when their number is a multiple of
  // 2^32.
  lemma VisitMissesExactlyOnWrap(cfg: Config, s: State)
    requires Inv(cfg, s) && Enabled(cfg, s, Visit) && s.slots[s.phase.next].observed
    ensures var slot := s.slots[s.phase.next];
      Apply(cfg, s, Visit).phase.Emitting? <==> (slot.count - slot.seenCount) % GENERATIONS != 0
  {
    var i := s.phase.next;
    assert SlotOk(cfg, s.slots[i], i);
    SameGeneration(s.slots[i].count, s.slots[i].seenCount);
  }

  // ---- What raises the notifier ----

  predicate OfObservable(cfg: Config, stage: Stage)
  {
    match stage
    case Idle => false
    case Stored(i) => i < |cfg.keys| && cfg.keys[i].perm.observable
    case Bumped(i) => i < |cfg.keys| && cfg.keys[i].perm.observable
    case Woken(i) => i < |cfg.keys| && cfg.keys[i].perm.observable
  }

  // No update of an observable key is under way, and none has been signalled.
  predicate NothingToSignal(cfg: Config, s: State)
  {
    && !s.notifier
    && (forall t :: 0 <= t < |s.setters| ==> !OfObservable(cfg, s.setters[t]))
    && (s.phase.Writing? ==> !OfObservable(cfg, s.phase.stage))
  }

  // A step that stores a value in an observable key.
  predicate StoresObservable(cfg: Config, s: State, step: Step)
    requires |s.slots| == |cfg.keys| && Enabled(cfg, s, step)
  {
    match step
    case SetBegin(_, slot, _) => cfg.keys[slot].perm.observable
    case Handle =>
      (match WriteTarget(cfg, s.phase.request)
       case Some(target) => cfg.keys[target.0].perm.observable
       case None => false)
    case _ => false
  }

  ghost predicate StoresNoObservable(cfg: Config, s: State, steps: seq<Step>)
    requires |s.slots| == |cfg.keys| && IsRun(cfg, s, steps)
    decreases |steps|
  {
    steps != [] ==> !StoresObservable(cfg, s, steps[0]) && StoresNoObservable(cfg, Apply(cfg, s, steps[0]), steps[1..])
  }

  // Only updates of observable keys wake the server: without one it is never
  // signalled, whatever else happens.
  lemma {:induction false} OnlyObservableWakes(cfg: Config, s: State, steps: seq<Step>)
    requires |s.slots| == |cfg.keys| && IsRun(cfg, s, steps) && StoresNoObservable(cfg, s, steps)
    requires NothingToSignal(cfg, s)
    ensures NothingToSignal(cfg, After(cfg, s, steps))
    decreases |steps|
  {
    if steps != [] {
      OnlyObservableWakes(cfg, Apply(cfg, s, steps[0]), steps[1..]);
    }
  }
}
