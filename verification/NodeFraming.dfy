// When the node's responses fit their frames, so that no request can stop it,
// and that everything it sends is encodable.
module NodeFraming {
  import opened Bytes
  import opened Errors
  import opened Messages
  import opened Frames
  import opened Requests
  import opened Utf8Stream
  import opened Values
  import opened Node
  import opened NodeInvariant
  import opened NodeHistory
  import opened Polls
  import opened ServerLoop

  // ---- The condition, on the configuration and the stored values ----

  predicate KeySendable(cfg: Config, slots: seq<Slot>, i: nat)
    requires i < |slots| == |cfg.keys|
  {
    cfg.keys[i].keyref < KeyCount(cfg.keys) ==>
      && |cfg.keys[i].name| <= 65532
      && (cfg.keys[i].perm.readable ==> ValueFits(slots[i].value))
  }

  predicate Sendable(cfg: Config, slots: seq<Slot>)
    requires |slots| == |cfg.keys|
  {
    |cfg.nodeId| <= 65533 && forall i :: 0 <= i < |slots| ==> KeySendable(cfg, slots, i)
  }

  // It holds exactly when every request that can come in a frame has a response
  // that fits one.
  lemma SendableExactlyWhenResponsesFit(cfg: Config, slots: seq<Slot>)
    requires UniqueKeyrefs(cfg) && |slots| == |cfg.keys|
    ensures Sendable(cfg, slots) <==> forall request :: Framed(request) ==> Fits(Response(cfg, slots, request))
  {
    if Sendable(cfg, slots) {
      forall request | Framed(request)
        ensures Fits(Response(cfg, slots, request))
      {
        SendableFits(cfg, slots, request);
      }
    } else {
      var request := Unsendable(cfg, slots);
    }
  }

  lemma SendableFits(cfg: Config, slots: seq<Slot>, request: Incoming)
    requires |slots| == |cfg.keys| && Sendable(cfg, slots) && Framed(request)
    ensures Fits(Response(cfg, slots, request))
  {
    if WriteTarget(cfg, request).Some? {
      FramedWriteFits(cfg, request);
    } else if request.GetKey? || request.Get? {
      var found := FindSlot(cfg.keys, request.keyref);
      assert found.Some? ==> KeySendable(cfg, slots, found.value);
    }
  }

  // A request whose response does not fit, when the condition fails.
  lemma Unsendable(cfg: Config, slots: seq<Slot>) returns (request: Incoming)
    requires UniqueKeyrefs(cfg) && |slots| == |cfg.keys| && !Sendable(cfg, slots)
    ensures Framed(request) && !Fits(Response(cfg, slots, request)) && WriteTarget(cfg, request).None?
  {
    if |cfg.nodeId| > 65533 {
      request := Incoming.Identify;
    } else {
      var i :| 0 <= i < |slots| && !KeySendable(cfg, slots, i);
      FindUnique(cfg, i);
      request := if |cfg.keys[i].name| > 65532 then Incoming.GetKey(cfg.keys[i].keyref) else Incoming.Get(cfg.keys[i].keyref);
    }
  }

  // ---- Over whole runs ----

  // A local set that a later GET can answer: validation alone admits strings of
  // up to 65535 bytes.
  predicate SetFits(cfg: Config, step: Node.Step)
  {
    step.SetBegin? && step.slot < |cfg.keys| ==>
      (cfg.keys[step.slot].perm.readable && cfg.keys[step.slot].keyref < KeyCount(cfg.keys) ==> ValueFits(step.value))
  }

  predicate SetsFit(cfg: Config, steps: seq<Node.Step>)
  {
    forall j :: 0 <= j < |steps| ==> SetFits(cfg, steps[j])
  }

  lemma SendableStep(cfg: Config, s: State, step: Node.Step)
    requires Inv(cfg, s) && Enabled(cfg, s, step) && SetFits(cfg, step)
    requires Sendable(cfg, s.slots) && !s.phase.Stopped?
    ensures Sendable(cfg, Apply(cfg, s, step).slots) && !Apply(cfg, s, step).phase.Stopped?
  {
    var r := Apply(cfg, s, step);
    if step.Handle? {
      SendableFits(cfg, s.slots, s.phase.request);
      if WriteTarget(cfg, s.phase.request).Some? {
        FramedWriteFits(cfg, s.phase.request);
      }
    }
    forall i | 0 <= i < |r.slots|
      ensures KeySendable(cfg, r.slots, i)
    {
      assert KeySendable(cfg, s.slots, i);
    }
  }

  lemma {:induction false} SendableOverRuns(cfg: Config, s: State, steps: seq<Node.Step>)
    requires Inv(cfg, s) && IsRun(cfg, s, steps) && SetsFit(cfg, steps)
    requires Sendable(cfg, s.slots) && !s.phase.Stopped?
    ensures Sendable(cfg, After(cfg, s, steps).slots) && !After(cfg, s, steps).phase.Stopped?
    decreases |steps|
  {
    if steps != [] {
      SendableStep(cfg, s, steps[0]);
      InvStep(cfg, s, steps[0]);
      SendableOverRuns(cfg, Apply(cfg, s, steps[0]), steps[1..]);
    }
  }

  ghost predicate CannotStop(cfg: Config, s0: State)
    requires |s0.slots| == |cfg.keys|
  {
    forall steps :: IsRun(cfg, s0, steps) && SetsFit(cfg, steps) ==> !After(cfg, s0, steps).phase.Stopped?
  }

  // No run whose local sets fit stops the node if and only if, when the client
  // connects, the node id has at most 65533 bytes, every name below the count at
  // most 65532, and every readable value below it validates with at most 65532.
  lemma NeverStopsExactlyWhenSendable(cfg: Config, s0: State)
    requires UniqueKeyrefs(cfg) && Connected(cfg, s0)
    ensures CannotStop(cfg, s0) <==> Sendable(cfg, s0.slots)
  {
    InitialInv(cfg, s0);
    if Sendable(cfg, s0.slots) {
      forall steps | IsRun(cfg, s0, steps) && SetsFit(cfg, steps)
        ensures !After(cfg, s0, steps).phase.Stopped?
      {
        SendableOverRuns(cfg, s0, steps);
      }
    } else {
      var request := Unsendable(cfg, s0.slots);
      AskedToStop(cfg, s0, request);
    }
  }

  lemma AskedToStop(cfg: Config, s: State, request: Incoming)
    requires |s.slots| == |cfg.keys| && s.phase.Waiting? && s.inbox == []
    requires Framed(request) && !Fits(Response(cfg, s.slots, request)) && WriteTarget(cfg, request).None?
    ensures exists steps :: IsRun(cfg, s, steps) && SetsFit(cfg, steps) && After(cfg, s, steps).phase.Stopped?
  {
    var sent := Apply(cfg, s, Send(request));
    var taken := Apply(cfg, sent, TakeRequest);
    var stopped := Apply(cfg, taken, Handle);
    var steps := [Send(request), TakeRequest, Handle];
    assert steps[1..] == [TakeRequest, Handle] && steps[1..][1..] == [Handle] && steps[1..][1..][1..] == [];
    assert IsRun(cfg, taken, [Handle]) && After(cfg, taken, [Handle]) == stopped;
    assert IsRun(cfg, sent, [TakeRequest, Handle]) && After(cfg, sent, [TakeRequest, Handle]) == stopped by {
      assert [TakeRequest, Handle][1..] == [Handle];
    }
    assert IsRun(cfg, s, steps) && After(cfg, s, steps) == stopped;
  }

  // ---- What is sent is encodable ----

  // What the program's types and the definitions of keys guarantee of texts.
  predicate ConfigText(cfg: Config)
  {
    IsWireString(cfg.nodeId) && forall i :: 0 <= i < |cfg.keys| ==> IsWireString(cfg.keys[i].name)
  }

  predicate SlotsText(slots: seq<Slot>)
  {
    forall i :: 0 <= i < |slots| ==> TextOk(slots[i].value)
  }

  predicate FramesOk(s: State)
  {
    && SlotsText(s.slots)
    && (s.phase.Writing? ==> TextOk(s.phase.value))
    && (s.phase.Emitting? ==> NodeFrame(s.phase.frame))
    && AllNodeFrames(s.outbox)
  }

  lemma ResponseIsFrame(cfg: Config, slots: seq<Slot>, request: Incoming)
    requires ConfigText(cfg) && |slots| == |cfg.keys| && SlotsText(slots)
    requires Framed(request) && Fits(Response(cfg, slots, request))
    ensures NodeFrame(Response(cfg, slots, request))
  {
    var m := Response(cfg, slots, request);
    EmptyNameIsText();
    if WriteTarget(cfg, request).Some? {
      FramedWriteFits(cfg, request);
    }
    EncodableExactlyWhenItFits(cfg, m);
  }

  lemma EmptyNameIsText()
    ensures IsWireString([])
  {
  }

  lemma FramesOkStep(cfg: Config, s: State, step: Node.Step)
    requires ConfigText(cfg) && Inv(cfg, s) && FramesOk(s) && Enabled(cfg, s, step)
    ensures FramesOk(Apply(cfg, s, step))
  {
    if step.Handle? {
      if WriteTarget(cfg, s.phase.request).Some? {
        FramedWriteFits(cfg, s.phase.request);
      } else if Fits(Response(cfg, s.slots, s.phase.request)) {
        ResponseIsFrame(cfg, s.slots, s.phase.request);
      }
    } else if step.WriteNotify? {
      EncodableExactlyWhenItFits(cfg, Ordinarily(Written(s.phase.value)));
    } else if step.Emit? {
      assert forall j :: 0 <= j < |s.outbox| ==> (s.outbox + [s.phase.frame])[j] == s.outbox[j];
    }
  }

  lemma {:induction false} FramesOkOverRuns(cfg: Config, s: State, steps: seq<Node.Step>)
    requires ConfigText(cfg) && Inv(cfg, s) && FramesOk(s) && IsRun(cfg, s, steps)
    ensures FramesOk(After(cfg, s, steps))
    decreases |steps|
  {
    if steps != [] {
      FramesOkStep(cfg, s, steps[0]);
      InvStep(cfg, s, steps[0]);
      FramesOkOverRuns(cfg, Apply(cfg, s, steps[0]), steps[1..]);
    }
  }
}
