// One turn of the server loop that no other task interrupts, as a function of
// the key slots, and as a run of the node's small steps.
module Turns {
  import opened Bytes
  import opened Messages
  import opened Requests
  import opened Values
  import opened Node
  import opened NodeInvariant
  import NodeReplies

  function Handled(cfg: Config, slots: seq<Slot>, request: Incoming): (r: seq<Slot>)
    requires |slots| == |cfg.keys|
    ensures |r| == |slots|
  {
    match WriteTarget(cfg, request)
    case Some(target) => slots[target.0 := Advance(slots[target.0].(value := target.1))]
    case None => SlotsAfter(cfg, slots, request)
  }

  predicate Due(cfg: Config, slots: seq<Slot>, i: nat)
    requires i < |slots| == |cfg.keys|
  {
    slots[i].observed && cfg.keys[i].perm.observable && slots[i].gen != slots[i].seen
  }

  // The slots after a flush of the keys from `from` on, and what it sends.
  function Flushed(cfg: Config, slots: seq<Slot>, from: nat): (r: (seq<Slot>, seq<Message>))
    requires |slots| == |cfg.keys| && from <= |slots|
    ensures |r.0| == |slots|
    decreases |slots| - from
  {
    if from == |slots| then (slots, [])
    else if Due(cfg, slots, from) then
      var rest := Flushed(cfg, slots[from := Look(slots[from], true)], from + 1);
      (rest.0, [Changed(cfg.keys[from].keyref)] + rest.1)
    else Flushed(cfg, slots, from + 1)
  }

  // A flush reports every due key exactly once, and leaves nothing due.
  lemma {:induction false} FlushReportsExactlyTheDue(cfg: Config, slots: seq<Slot>, from: nat, k: u16)
    requires |slots| == |cfg.keys| && from <= |slots| && UniqueKeyrefs(cfg)
    ensures var r := Flushed(cfg, slots, from);
      && (forall i :: from <= i < |slots| ==> !Due(cfg, r.0, i))
      && (forall i :: 0 <= i < from ==> r.0[i] == slots[i])
      && multiset(r.1)[Changed(k)] == (if exists i :: from <= i < |slots| && cfg.keys[i].keyref == k && Due(cfg, slots, i) then 1 else 0)
    decreases |slots| - from
  {
    if from < |slots| {
      var next := if Due(cfg, slots, from) then slots[from := Look(slots[from], true)] else slots;
      FlushReportsExactlyTheDue(cfg, next, from + 1, k);
      assert forall i :: from < i < |slots| ==> Due(cfg, next, i) == Due(cfg, slots, i);
      var rest := Flushed(cfg, next, from + 1).1;
      if Due(cfg, slots, from) {
        assert multiset([Changed(cfg.keys[from].keyref)] + rest) == multiset{Changed(cfg.keys[from].keyref)} + multiset(rest);
      }
    }
  }

  predicate NothingDue(cfg: Config, slots: seq<Slot>)
    requires |slots| == |cfg.keys|
  {
    forall i :: 0 <= i < |slots| ==> !Due(cfg, slots, i)
  }

  // A turn ends with nothing due, so that being woken again sends nothing.
  lemma {:induction false} FlushLeavesNothingDue(cfg: Config, slots: seq<Slot>, from: nat)
    requires |slots| == |cfg.keys| && from <= |slots| && forall i :: 0 <= i < from ==> !Due(cfg, slots, i)
    ensures NothingDue(cfg, Flushed(cfg, slots, from).0)
    decreases |slots| - from
  {
    if from < |slots| {
      var next := if Due(cfg, slots, from) then slots[from := Look(slots[from], true)] else slots;
      assert forall i :: 0 <= i < from ==> !Due(cfg, slots, i) && next[i] == slots[i];
      FlushLeavesNothingDue(cfg, next, from + 1);
    }
  }

  lemma TurnLeavesNothingDue(cfg: Config, slots: seq<Slot>)
    requires |slots| == |cfg.keys|
    ensures NothingDue(cfg, Flushed(cfg, slots, FlushFrom(cfg)).0)
  {
    FlushLeavesNothingDue(cfg, slots, FlushFrom(cfg));
  }

  lemma {:induction false} SpuriousFlush(cfg: Config, slots: seq<Slot>, from: nat)
    requires |slots| == |cfg.keys| && from <= |slots| && NothingDue(cfg, slots)
    ensures Flushed(cfg, slots, from) == (slots, [])
    decreases |slots| - from
  {
    if from < |slots| {
      assert !Due(cfg, slots, from);
      SpuriousFlush(cfg, slots, from + 1);
    }
  }

  // Bounded memory is faithful: a server whose string buffer is as long as the
  // longest string any of its keys can hold answers a WRITE, and moves its
  // keys, as if it had kept the whole string.
  lemma BoundedMemoryIsFaithful(cfg: Config, slots: seq<Slot>, maxStr: nat, k: u16, v: Value)
    requires |slots| == |cfg.keys| && forall i :: 0 <= i < |cfg.keys| ==> MaxStrLen(cfg.keys[i].ktype) <= maxStr
    ensures var kept, whole := Incoming.Write(k, Shrink(maxStr, v)), Incoming.Write(k, Delivered(v));
      && Response(cfg, slots, kept) == Response(cfg, slots, whole)
      && Handled(cfg, slots, kept) == Handled(cfg, slots, whole)
  {
    match FindSlot(cfg.keys, k)
    case None =>
    case Some(i) => SameAccepted(cfg.keys[i].ktype, maxStr, v);
  }

  lemma SameAccepted(t: KeyType, maxStr: nat, v: Value)
    requires MaxStrLen(t) <= maxStr
    ensures Accept(t, Shrink(maxStr, v)) == Accept(t, Delivered(v))
  {
    ShrinkingIsFaithful(t, maxStr, v);
  }

  // ---- As steps of the node ----

  function FlushSteps(cfg: Config, slots: seq<Slot>, from: nat): (steps: seq<Node.Step>)
    requires |slots| == |cfg.keys| && from <= |slots|
    decreases |slots| - from
  {
    if from == |slots| then [FlushDone]
    else if Due(cfg, slots, from) then
      [Visit] + ([Emit] + FlushSteps(cfg, slots[from := Look(slots[from], true)], from + 1))
    else [Visit] + FlushSteps(cfg, slots, from + 1)
  }

  // The state a turn leaves, the log aside.
  predicate Left(s: State, r: State, slots: seq<Slot>, sent: seq<Message>, inbox: seq<Incoming>, notifier: bool)
  {
    && r.slots == slots && r.outbox == s.outbox + sent && r.inbox == inbox && r.notifier == notifier
    && r.setters == s.setters && r.phase == Waiting
  }

  lemma OneStep(cfg: Config, s: State, step: Node.Step, rest: seq<Node.Step>)
    requires |s.slots| == |cfg.keys| && Enabled(cfg, s, step) && IsRun(cfg, Apply(cfg, s, step), rest)
    ensures IsRun(cfg, s, [step] + rest)
    ensures After(cfg, s, [step] + rest) == After(cfg, Apply(cfg, s, step), rest)
  {
    assert ([step] + rest)[1..] == rest;
  }

  lemma {:induction false} FlushRuns(cfg: Config, s: State)
    requires |s.slots| == |cfg.keys| && s.phase.Flushing? && s.phase.next <= |s.slots|
    ensures FlushLeaves(cfg, s)
    decreases |s.slots| - s.phase.next
  {
    var from := s.phase.next;
    if from == |s.slots| {
      OneStep(cfg, s, FlushDone, []);
      assert [FlushDone] + [] == [FlushDone];
    } else if Due(cfg, s.slots, from) {
      FlushRuns(cfg, Apply(cfg, Apply(cfg, s, Visit), Emit));
      DueVisited(cfg, s);
    } else {
      FlushRuns(cfg, Apply(cfg, s, Visit));
      OneStep(cfg, s, Visit, FlushSteps(cfg, s.slots, from + 1));
    }
  }

  // The flush runs to its end from here.
  ghost predicate FlushLeaves(cfg: Config, s: State)
    requires |s.slots| == |cfg.keys| && s.phase.Flushing? && s.phase.next <= |s.slots|
  {
    var steps, end := FlushSteps(cfg, s.slots, s.phase.next), Flushed(cfg, s.slots, s.phase.next);
    IsRun(cfg, s, steps) && Left(s, After(cfg, s, steps), end.0, end.1, s.inbox, s.notifier)
  }

  lemma DueVisited(cfg: Config, s: State)
    requires |s.slots| == |cfg.keys| && s.phase.Flushing? && s.phase.next < |s.slots|
    requires Due(cfg, s.slots, s.phase.next) && FlushLeaves(cfg, Apply(cfg, Apply(cfg, s, Visit), Emit))
    ensures FlushLeaves(cfg, s)
  {
    var from, visited := s.phase.next, Apply(cfg, s, Visit);
    var sent := Apply(cfg, visited, Emit);
    var rest := FlushSteps(cfg, sent.slots, from + 1);
    OneStep(cfg, visited, Emit, rest);
    OneStep(cfg, s, Visit, [Emit] + rest);
    Assoc(s.outbox, [Changed(cfg.keys[from].keyref)], Flushed(cfg, sent.slots, from + 1).1);
  }

  // From the reply on, and from the handling on.
  function ReplySteps(cfg: Config, slots: seq<Slot>): (steps: seq<Node.Step>)
    requires |slots| == |cfg.keys|
  {
    [Emit] + FlushSteps(cfg, slots, FlushFrom(cfg))
  }

  function HandledSteps(cfg: Config, slots: seq<Slot>, request: Incoming): (steps: seq<Node.Step>)
    requires |slots| == |cfg.keys|
  {
    var reply := ReplySteps(cfg, Handled(cfg, slots, request));
    if WriteTarget(cfg, request).Some? then [WriteBump] + ([WriteWake] + ([WriteNotify] + reply)) else reply
  }

  function RequestSteps(cfg: Config, slots: seq<Slot>, request: Incoming): (steps: seq<Node.Step>)
    requires |slots| == |cfg.keys|
  {
    [TakeRequest] + ([Handle] + HandledSteps(cfg, slots, request))
  }

  // The notifier after a request: an accepted WRITE of an observable key raises
  // it.
  function NotifierAfter(cfg: Config, notifier: bool, request: Incoming): (r: bool)
  {
    notifier || (WriteTarget(cfg, request).Some? && cfg.keys[WriteTarget(cfg, request).value.0].perm.observable)
  }

  function TurnSent(cfg: Config, slots: seq<Slot>, request: Incoming): (ms: seq<Message>)
    requires |slots| == |cfg.keys|
  {
    [Response(cfg, slots, request)] + Flushed(cfg, Handled(cfg, slots, request), FlushFrom(cfg)).1
  }

  // From taking a request to waiting again.
  lemma RequestRuns(cfg: Config, s: State)
    requires |s.slots| == |cfg.keys| && s.phase.Waiting? && s.inbox != []
    requires Fits(Response(cfg, s.slots, s.inbox[0]))
    ensures var request, steps := s.inbox[0], RequestSteps(cfg, s.slots, s.inbox[0]);
      && IsRun(cfg, s, steps)
      && Left(s, After(cfg, s, steps), Flushed(cfg, Handled(cfg, s.slots, request), FlushFrom(cfg)).0,
              TurnSent(cfg, s.slots, request), s.inbox[1..], NotifierAfter(cfg, s.notifier, request))
  {
    var request := s.inbox[0];
    var taken := Apply(cfg, s, TakeRequest);
    if WriteTarget(cfg, request).Some? {
      WriteRuns(cfg, s, taken, request);
    } else {
      Answers(cfg, s, Apply(cfg, taken, Handle), request);
    }
    OneStep(cfg, taken, Handle, HandledSteps(cfg, s.slots, request));
    OneStep(cfg, s, TakeRequest, [Handle] + HandledSteps(cfg, s.slots, request));
  }

  // A response that does not fit stops the node with nothing sent.
  lemma RefusalRuns(cfg: Config, s: State)
    requires |s.slots| == |cfg.keys| && s.phase.Waiting? && s.inbox != []
    requires Framed(s.inbox[0]) && !Fits(Response(cfg, s.slots, s.inbox[0]))
    ensures var request, steps := s.inbox[0], [TakeRequest] + ([Handle] + []);
      && IsRun(cfg, s, steps)
      && After(cfg, s, steps).phase == Stopped(request, Response(cfg, s.slots, request))
      && After(cfg, s, steps).slots == Handled(cfg, s.slots, request) == s.slots
      && After(cfg, s, steps).outbox == s.outbox
  {
    var request := s.inbox[0];
    if WriteTarget(cfg, request).Some? {
      NodeReplies.WriteTargetIsTableWrite(cfg, s.slots, request);
      FramedWriteFits(cfg, request);
    }
    OneStep(cfg, Apply(cfg, s, TakeRequest), Handle, []);
    OneStep(cfg, s, TakeRequest, [Handle] + []);
  }

  // The steps of an accepted WRITE, up to waiting again.
  lemma WriteRuns(cfg: Config, s: State, taken: State, request: Incoming)
    requires |s.slots| == |cfg.keys| && WriteTarget(cfg, request).Some? && taken.phase == Handling(request)
    requires Fits(Response(cfg, s.slots, request))
    requires taken.slots == s.slots && taken.outbox == s.outbox && taken.setters == s.setters && taken.notifier == s.notifier
    ensures var handled, steps := Apply(cfg, taken, Handle), HandledSteps(cfg, s.slots, request);
      && IsRun(cfg, handled, steps)
      && Left(s, After(cfg, handled, steps), Flushed(cfg, Handled(cfg, s.slots, request), FlushFrom(cfg)).0,
              TurnSent(cfg, s.slots, request), taken.inbox, NotifierAfter(cfg, s.notifier, request))
  {
    var handled := Apply(cfg, taken, Handle);
    var bumped := Apply(cfg, handled, WriteBump);
    var woken := Apply(cfg, bumped, WriteWake);
    var notified := Apply(cfg, woken, WriteNotify);
    var reply := ReplySteps(cfg, Handled(cfg, s.slots, request));
    NodeReplies.WriteTargetIsTableWrite(cfg, s.slots, request);
    Answers(cfg, s, notified, request);
    OneStep(cfg, woken, WriteNotify, reply);
    OneStep(cfg, bumped, WriteWake, [WriteNotify] + reply);
    OneStep(cfg, handled, WriteBump, [WriteWake] + ([WriteNotify] + reply));
  }

  // Sending the reply, and the flush behind it.
  lemma Answers(cfg: Config, s: State, r: State, request: Incoming)
    requires |s.slots| == |cfg.keys| && r.slots == Handled(cfg, s.slots, request)
    requires r.phase == Emitting(Response(cfg, s.slots, request), FlushFrom(cfg)) && r.outbox == s.outbox && r.setters == s.setters
    ensures var steps := ReplySteps(cfg, r.slots);
      && IsRun(cfg, r, steps)
      && Left(s, After(cfg, r, steps), Flushed(cfg, r.slots, FlushFrom(cfg)).0, TurnSent(cfg, s.slots, request), r.inbox, r.notifier)
  {
    var sent := Apply(cfg, r, Emit);
    FlushRuns(cfg, sent);
    OneStep(cfg, r, Emit, FlushSteps(cfg, r.slots, FlushFrom(cfg)));
    Assoc(s.outbox, [Response(cfg, s.slots, request)], Flushed(cfg, r.slots, FlushFrom(cfg)).1);
  }

  // From taking the notification to waiting again.
  lemma NotificationRuns(cfg: Config, s: State)
    requires |s.slots| == |cfg.keys| && s.phase.Waiting? && HasObservable(cfg) && s.notifier
    ensures var steps := [TakeNotification] + FlushSteps(cfg, s.slots, 0);
      && IsRun(cfg, s, steps)
      && Left(s, After(cfg, s, steps), Flushed(cfg, s.slots, 0).0, Flushed(cfg, s.slots, 0).1, s.inbox, false)
  {
    var taken := Apply(cfg, s, TakeNotification);
    FlushRuns(cfg, taken);
    OneStep(cfg, s, TakeNotification, FlushSteps(cfg, s.slots, 0));
  }
}
