// The two exceptions to mirror convergence do occur: runs that end idle with a
// stale mirror.
module MirrorLimits {
  import opened Bytes
  import opened Messages
  import opened Requests
  import opened Values
  import opened Node
  import opened NodeInvariant
  import opened NodeReplies
  import opened Worker
  import opened Mirror

  // There is a run from s to t.
  ghost predicate Leads(cfg: Config, s: System, t: System)
  {
    |s.node.slots| == |cfg.keys| && exists moves :: IsPlay(cfg, s, moves) && Played(cfg, s, moves) == t
  }

  lemma Stay(cfg: Config, s: System)
    requires |s.node.slots| == |cfg.keys|
    ensures Leads(cfg, s, s)
  {
    assert IsPlay(cfg, s, []) && Played(cfg, s, []) == s;
  }

  lemma {:induction false} Join(cfg: Config, s: System, a: seq<Move>, b: seq<Move>)
    requires |s.node.slots| == |cfg.keys| && IsPlay(cfg, s, a) && IsPlay(cfg, Played(cfg, s, a), b)
    ensures IsPlay(cfg, s, a + b) && Played(cfg, s, a + b) == Played(cfg, Played(cfg, s, a), b)
    decreases |a|
  {
    if a == [] {
      assert a + b == b;
    } else {
      Join(cfg, Moved(cfg, s, a[0]), a[1..], b);
      assert (a + b)[0] == a[0] && (a + b)[1..] == a[1..] + b;
    }
  }

  lemma Then(cfg: Config, s: System, t: System, u: System)
    requires Leads(cfg, s, t) && Leads(cfg, t, u)
    ensures Leads(cfg, s, u)
  {
    var a :| IsPlay(cfg, s, a) && Played(cfg, s, a) == t;
    var b :| IsPlay(cfg, t, b) && Played(cfg, t, b) == u;
    Join(cfg, s, a, b);
  }

  // One more move at the end of a run.
  lemma Extend(cfg: Config, s: System, t: System, move: Move)
    requires Leads(cfg, s, t) && |t.node.slots| == |cfg.keys| && MayMove(cfg, t, move)
    ensures Leads(cfg, s, Moved(cfg, t, move))
  {
    var u := Moved(cfg, t, move);
    assert IsPlay(cfg, u, []);
    assert [move][1..] == [];
    assert IsPlay(cfg, t, [move]) && Played(cfg, t, [move]) == u;
    Then(cfg, s, t, u);
  }

  // ---- Stretches of a run that happen without interruption ----

  // The server has decided on its answer to `request`.
  function Answering(cfg: Config, s: System, request: Incoming): (r: System)
    requires |s.node.slots| == |cfg.keys|
  {
    var frame := Response(cfg, s.node.slots, request);
    s.(node := s.node.(
      slots := SlotsAfter(cfg, s.node.slots, request),
      inbox := [],
      phase := Emitting(frame, 0),
      log := s.node.log + [Reply(request, frame)]))
  }

  // The frame goes out and nothing is left to report.
  function Sent(s: System): (r: System)
    requires s.node.phase.Emitting?
  {
    s.(node := s.node.(outbox := s.node.outbox + [s.node.phase.frame], phase := Waiting))
  }

  lemma Answers1(cfg: Config, s: System, request: Incoming)
    requires |s.node.slots| == |cfg.keys| && HasObservable(cfg)
    requires s.node.phase == Waiting && s.node.inbox == [request] && WriteTarget(cfg, request).None?
    requires Fits(Response(cfg, s.node.slots, request))
    ensures Leads(cfg, s, Answering(cfg, s, request))
  {
    Stay(cfg, s);
    var s1 := Moved(cfg, s, NodeMove(TakeRequest));
    Extend(cfg, s, s, NodeMove(TakeRequest));
    Extend(cfg, s, s1, NodeMove(Handle));
    assert Moved(cfg, s1, NodeMove(Handle)) == Answering(cfg, s, request);
  }

  lemma Sends1(cfg: Config, s: System)
    requires |cfg.keys| == 1 && |s.node.slots| == 1
    requires s.node.phase.Emitting? && s.node.phase.resume == 0 && s.node.slots[0].gen == s.node.slots[0].seen
    ensures Leads(cfg, s, Sent(s))
  {
    var s1 := Moved(cfg, s, NodeMove(Emit));
    Step1(cfg, s, NodeMove(Emit));
    PassesOver(cfg, s1);
    Then(cfg, s, s1, Sent(s));
  }

  lemma Step1(cfg: Config, s: System, move: Move)
    requires |s.node.slots| == |cfg.keys| && MayMove(cfg, s, move)
    ensures Leads(cfg, s, Moved(cfg, s, move))
  {
    Stay(cfg, s);
    Extend(cfg, s, s, move);
  }

  // A flush over the one key when it is not due.
  lemma PassesOver(cfg: Config, s: System)
    requires |cfg.keys| == 1 && |s.node.slots| == 1
    requires s.node.phase == Flushing(0) && s.node.slots[0].gen == s.node.slots[0].seen
    ensures Leads(cfg, s, s.(node := s.node.(phase := Waiting)))
  {
    var s1 := Moved(cfg, s, NodeMove(Visit));
    Step1(cfg, s, NodeMove(Visit));
    Extend(cfg, s, s1, NodeMove(FlushDone));
    assert Moved(cfg, s1, NodeMove(FlushDone)) == s.(node := s.node.(phase := Waiting));
  }

  // The server takes the one waiting request, answers it and finds nothing to
  // report.
  lemma Serves(cfg: Config, s: System, request: Incoming)
    requires |cfg.keys| == 1 && |s.node.slots| == 1 && HasObservable(cfg)
    requires s.node.phase == Waiting && s.node.inbox == [request] && WriteTarget(cfg, request).None?
    requires Fits(Response(cfg, s.node.slots, request))
    requires var slot := SlotsAfter(cfg, s.node.slots, request)[0]; slot.gen == slot.seen
    ensures Leads(cfg, s, Sent(Answering(cfg, s, request)))
  {
    Answers1(cfg, s, request);
    Sends1(cfg, Answering(cfg, s, request));
    Then(cfg, s, Answering(cfg, s, request), Sent(Answering(cfg, s, request)));
  }

  // A task sets key 0 from start to end.
  lemma Sets(cfg: Config, s: System, value: Value) returns (log: seq<Event>)
    requires |cfg.keys| == 1 && |s.node.slots| == 1 && cfg.keys[0].perm.observable
    requires s.node.setters == [Stage.Idle] && Accept(cfg.keys[0].ktype, Delivered(value)).Some? && TextOk(value)
    ensures Leads(cfg, s, AfterSet(s, value, log))
  {
    Stay(cfg, s);
    var s1 := Moved(cfg, s, NodeMove(SetBegin(0, 0, value)));
    Extend(cfg, s, s, NodeMove(SetBegin(0, 0, value)));
    var s2 := Moved(cfg, s1, NodeMove(SetBump(0)));
    Extend(cfg, s, s1, NodeMove(SetBump(0)));
    var s3 := Moved(cfg, s2, NodeMove(SetWake(0)));
    Extend(cfg, s, s2, NodeMove(SetWake(0)));
    var s4 := Moved(cfg, s3, NodeMove(SetNotify(0)));
    Extend(cfg, s, s3, NodeMove(SetNotify(0)));
    log := s4.node.log;
    assert s4 == AfterSet(s, value, log);
  }

  function AfterSet(s: System, value: Value, log: seq<Event>): (r: System)
    requires |s.node.slots| == 1
  {
    s.(node := s.node.(slots := [Advance(s.node.slots[0].(value := value))], notifier := true, log := log))
  }

  // Setting key 0 to the same value any number of times in a row.
  lemma {:induction false} SetsRepeatedly(cfg: Config, s: System, value: Value, times: nat) returns (log: seq<Event>)
    requires |cfg.keys| == 1 && |s.node.slots| == 1 && cfg.keys[0].perm.observable
    requires s.node.setters == [Stage.Idle] && Accept(cfg.keys[0].ktype, Delivered(value)).Some? && TextOk(value)
    requires s.node.slots[0].gen == s.node.slots[0].count % GENERATIONS
    ensures Leads(cfg, s, AfterSets(s, value, times, log))
  {
    if times == 0 {
      Stay(cfg, s);
      log := s.node.log;
    } else {
      var before := SetsRepeatedly(cfg, s, value, times - 1);
      var t := AfterSets(s, value, times - 1, before);
      log := Sets(cfg, t, value);
      OneMoreSet(s, value, times, before, log);
      Then(cfg, s, t, AfterSets(s, value, times, log));
    }
  }

  lemma OneMoreSet(s: System, value: Value, times: nat, before: seq<Event>, log: seq<Event>)
    requires |s.node.slots| == 1 && times > 0
    requires s.node.slots[0].gen == s.node.slots[0].count % GENERATIONS
    ensures AfterSet(AfterSets(s, value, times - 1, before), value, log) == AfterSets(s, value, times, log)
  {
  }

  function AfterSets(s: System, value: Value, times: nat, log: seq<Event>): (r: System)
    requires |s.node.slots| == 1
  {
    if times == 0 then s.(node := s.node.(log := log))
    else
      var slot := s.node.slots[0];
      s.(node := s.node.(
        slots := [slot.(value := value, gen := (slot.count + times) % GENERATIONS, count := slot.count + times)],
        notifier := true,
        log := log))
  }

  // ---- One key that a worker has read and goes on listening to ----

  const ONE_KEY := Config([], [KeyConfig(0, [], Perm(true, true, true), I64Type)])

  const ZERO := Slot(I64(0), 0, 0, false, 0, 0)

  const STARTED := System(State([ZERO], false, [Stage.Idle], Waiting, [], [], []), START)

  // The worker has observed and read the key and is listening.
  function Listener(log: seq<Event>): (s: System)
  {
    System(State([ZERO.(observed := true)], false, [Stage.Idle], Waiting, [], [], log),
           Client(Listening, [], [], map[0 := I64(0)], {}))
  }

  lemma OneKeyFacts()
    ensures HasObservable(ONE_KEY) && KeyCount(ONE_KEY.keys) == 1 && UniqueKeyrefs(ONE_KEY)
    ensures FindSlot(ONE_KEY.keys, 0) == Some(0)
    ensures PermOf(ONE_KEY, 0) == Perm(true, true, true)
    ensures Begun(ONE_KEY, STARTED)
  {
    assert ONE_KEY.keys[0].perm.observable;
    assert ONE_KEY.keys[..0] == [];
  }

  lemma ReachesListening()
    ensures exists log :: Leads(ONE_KEY, STARTED, Listener(log))
  {
    var cfg, s := ONE_KEY, STARTED;
    ObservesOnce();
    var s1 := ObservedOnce();
    ReadsOnce(s1);
    Then(cfg, s, s1, ReadOnce(s1));
    var s2 := Moved(cfg, ReadOnce(s1), ClientMove(Continue));
    Extend(cfg, s, ReadOnce(s1), ClientMove(Continue));
    Extend(cfg, s, s2, ClientMove(Continue));
    assert Moved(cfg, s2, ClientMove(Continue)) == Listener(s2.node.log);
  }

  function ObservedOnce(): (s: System)
  {
    System(State([ZERO.(observed := true)], false, [Stage.Idle], Waiting, [], [],
                 [Reply(Incoming.Observe(0), Ordinarily(Okay))]),
           START.(pc := Reading(0)))
  }

  lemma ObservesOnce()
    ensures Leads(ONE_KEY, STARTED, ObservedOnce())
  {
    var cfg, s := ONE_KEY, STARTED;
    OneKeyFacts();
    Stay(cfg, s);
    var s1 := Moved(cfg, s, ClientMove(Continue));
    Extend(cfg, s, s, ClientMove(Continue));
    Serves(cfg, s1, Incoming.Observe(0));
    var s2 := Sent(Answering(cfg, s1, Incoming.Observe(0)));
    Then(cfg, s, s1, s2);
    Extend(cfg, s, s2, Deliver);
    assert Moved(cfg, s2, Deliver) == ObservedOnce();
  }

  // The worker reads the key and moves past its row.
  function ReadOnce(s: System): (r: System)
    requires |s.node.slots| == 1
  {
    var value := s.node.slots[0].value;
    System(s.node.(log := s.node.log + [Reply(Incoming.Get(0), Ordinarily(Current(value)))]),
           Show(s.client.(pc := Observing(1), changed := []), 0, value))
  }

  lemma ReadsOnce(s: System)
    requires |s.node.slots| == 1 && s.node.slots[0].gen == s.node.slots[0].seen && ValueFits(s.node.slots[0].value)
    requires s.node.phase == Waiting && s.node.inbox == [] && s.node.outbox == []
    requires s.client.pc == Reading(0) && s.client.pending == [] && s.client.changed == []
    ensures Leads(ONE_KEY, s, ReadOnce(s))
  {
    var cfg := ONE_KEY;
    OneKeyFacts();
    Stay(cfg, s);
    var s1 := Moved(cfg, s, ClientMove(Continue));
    Extend(cfg, s, s, ClientMove(Continue));
    var s2 := Sent(Answering(cfg, s1, Incoming.Get(0)));
    Serves(cfg, s1, Incoming.Get(0));
    Then(cfg, s, s1, s2);
    Extend(cfg, s, s2, Deliver);
    assert Moved(cfg, s2, Deliver) == ReadOnce(s);
  }

  // Idle, with the mirror showing 0 while the node holds 1.
  predicate Stale(s: System)
  {
    AllIdle(s) && |s.node.slots| == 1 && s.client.mirror == map[0 := I64(0)] && s.node.slots[0].value == I64(1)
  }

  // The mirror can stay stale: after 2^32 updates between two looks of the
  // server.
  lemma StaleAfterWrap()
    ensures exists s: System :: Leads(ONE_KEY, STARTED, s) && Stale(s) && s.client.dropped == {}
  {
    OneKeyFacts();
    ReachesListening();
    var log :| Leads(ONE_KEY, STARTED, Listener(log));
    var s := Listener(log);
    var more := SetsRepeatedly(ONE_KEY, s, I64(1), GENERATIONS);
    var s1 := AfterSets(s, I64(1), GENERATIONS, more);
    Then(ONE_KEY, STARTED, s, s1);
    LooksInVain(s1);
    Then(ONE_KEY, STARTED, s1, s1.(node := s1.node.(notifier := false)));
  }

  // The server wakes up and finds the generation it has seen.
  lemma LooksInVain(s: System)
    requires |s.node.slots| == 1 && s.node.phase == Waiting && s.node.notifier
    requires s.node.slots[0].gen == s.node.slots[0].seen
    ensures Leads(ONE_KEY, s, s.(node := s.node.(notifier := false)))
  {
    var cfg := ONE_KEY;
    OneKeyFacts();
    var s1 := Moved(cfg, s, NodeMove(TakeNotification));
    Step1(cfg, s, NodeMove(TakeNotification));
    PassesOver(cfg, s1);
    Then(cfg, s, s1, s.(node := s.node.(notifier := false)));
  }

  // The mirror can stay stale: a CHANGED frame collected while a WRITE of the
  // wrong type waits for its ERROR is thrown away.
  lemma StaleAfterRejectedWrite()
    ensures exists s: System :: Leads(ONE_KEY, STARTED, s) && Stale(s) && !Wrapped(s.node.slots[0])
  {
    ReachesListening();
    var log :| Leads(ONE_KEY, STARTED, Listener(log));
    AsksToWrite(log);
    var s := Asking(log);
    Then(ONE_KEY, STARTED, Listener(log), s);
    var more := SetsAndReports(s);
    var s1 := Reported1(AfterSet(s, I64(1), more));
    Then(ONE_KEY, STARTED, s, s1);
    var done := RejectedWrite(s1);
    Then(ONE_KEY, STARTED, s1, RejectedAndIdle(s1, done));
  }

  // The listening worker has sent a WRITE of the wrong type.
  function Asking(log: seq<Event>): (r: System)
  {
    var s := Listener(log);
    System(s.node.(inbox := [Incoming.Write(0, WBool(true))]), s.client.(pc := AwaitWritten(0, WBool(true))))
  }

  lemma AsksToWrite(log: seq<Event>)
    ensures Leads(ONE_KEY, Listener(log), Asking(log))
  {
    var cfg, s, write := ONE_KEY, Listener(log), WriteKey(0, WBool(true));
    Stay(cfg, s);
    var s1 := Moved(cfg, s, ClientMove(TimeOut));
    Extend(cfg, s, s, ClientMove(TimeOut));
    Extend(cfg, s, s1, ClientMove(write));
    assert Moved(cfg, s1, ClientMove(write)) == Asking(log);
  }

  lemma SetsAndReports(s: System) returns (log: seq<Event>)
    requires |s.node.slots| == 1 && s.node.phase == Waiting && s.node.setters == [Stage.Idle]
    requires s.node.slots[0] == ZERO.(observed := true)
    ensures Leads(ONE_KEY, s, Reported1(AfterSet(s, I64(1), log)))
  {
    OneKeyFacts();
    log := Sets(ONE_KEY, s, I64(1));
    Reports1(AfterSet(s, I64(1), log));
    Then(ONE_KEY, s, AfterSet(s, I64(1), log), Reported1(AfterSet(s, I64(1), log)));
  }

  // The server wakes up and reports the key.
  function Reported1(s: System): (r: System)
    requires |s.node.slots| == 1
  {
    s.(node := s.node.(
      slots := [Look(s.node.slots[0], true)], notifier := false,
      outbox := s.node.outbox + [Changed(0)], log := s.node.log + [Notify(0)]))
  }

  lemma Reports1(s: System)
    requires |s.node.slots| == 1 && s.node.phase == Waiting && s.node.notifier
    requires s.node.slots[0].observed && s.node.slots[0].gen != s.node.slots[0].seen
    ensures Leads(ONE_KEY, s, Reported1(s))
  {
    var s1 := s.(node := s.node.(
      slots := [Look(s.node.slots[0], true)], notifier := false,
      phase := Emitting(Changed(0), 1), log := s.node.log + [Notify(0)]));
    FindsTheChange(s, s1);
    SendsTheChange(s1);
    Then(ONE_KEY, s, s1, Reported1(s));
  }

  lemma FindsTheChange(s: System, t: System)
    requires |s.node.slots| == 1 && s.node.phase == Waiting && s.node.notifier
    requires s.node.slots[0].observed && s.node.slots[0].gen != s.node.slots[0].seen
    requires t == s.(node := s.node.(
      slots := [Look(s.node.slots[0], true)], notifier := false,
      phase := Emitting(Changed(0), 1), log := s.node.log + [Notify(0)]))
    ensures Leads(ONE_KEY, s, t)
  {
    var cfg := ONE_KEY;
    OneKeyFacts();
    var s1 := Moved(cfg, s, NodeMove(TakeNotification));
    Step1(cfg, s, NodeMove(TakeNotification));
    ReportsTheChange(s1, t);
    Then(cfg, s, s1, t);
  }

  lemma ReportsTheChange(s: System, t: System)
    requires |s.node.slots| == 1 && s.node.phase == Flushing(0)
    requires s.node.slots[0].observed && s.node.slots[0].gen != s.node.slots[0].seen
    requires t == s.(node := s.node.(
      slots := [Look(s.node.slots[0], true)], phase := Emitting(Changed(0), 1), log := s.node.log + [Notify(0)]))
    ensures Leads(ONE_KEY, s, t)
  {
    OneKeyFacts();
    Step1(ONE_KEY, s, NodeMove(Visit));
    assert Moved(ONE_KEY, s, NodeMove(Visit)) == t;
  }

  lemma SendsTheChange(s: System)
    requires |s.node.slots| == 1 && s.node.phase == Emitting(Changed(0), 1)
    ensures Leads(ONE_KEY, s, Sent(s))
  {
    var cfg := ONE_KEY;
    Stay(cfg, s);
    var s1 := Moved(cfg, s, NodeMove(Emit));
    Extend(cfg, s, s, NodeMove(Emit));
    Extend(cfg, s, s1, NodeMove(FlushDone));
    assert Moved(cfg, s1, NodeMove(FlushDone)) == Sent(s);
  }

  function RejectedAndIdle(s: System, log: seq<Event>): (r: System)
  {
    System(s.node.(inbox := [], outbox := [], log := log),
           s.client.(pc := Listening, changed := [], dropped := {0}))
  }

  lemma RejectedWrite(s: System) returns (log: seq<Event>)
    requires |s.node.slots| == 1 && s.node.phase == Waiting && s.node.slots[0].gen == s.node.slots[0].seen
    requires s.node.inbox == [Incoming.Write(0, WBool(true))] && s.node.outbox == [Changed(0)]
    requires s.client.pc == AwaitWritten(0, WBool(true))
    requires s.client.changed == [] && s.client.pending == [] && s.client.dropped == {}
    ensures Leads(ONE_KEY, s, RejectedAndIdle(s, log))
  {
    var cfg, request := ONE_KEY, Incoming.Write(0, WBool(true));
    OneKeyFacts();
    Serves(cfg, s, request);
    var s1 := Sent(Answering(cfg, s, request));
    assert s1.node.outbox == [Changed(0), Failed(ERROR_TYPE_MISMATCH)];
    log := s1.node.log;
    GivesUp(s1);
    Then(cfg, s, s1, RejectedAndIdle(s, log));
  }

  // The collected CHANGED frame is lost, and the worker goes back to listening.
  lemma GivesUp(s: System)
    requires |s.node.slots| == 1 && s.node.phase == Waiting
    requires s.node.inbox == [] && s.node.outbox == [Changed(0), Failed(ERROR_TYPE_MISMATCH)]
    requires s.client.pc == AwaitWritten(0, WBool(true))
    requires s.client.changed == [] && s.client.pending == [] && s.client.dropped == {}
    ensures Leads(ONE_KEY, s, RejectedAndIdle(s, s.node.log))
  {
    var cfg := ONE_KEY;
    Stay(cfg, s);
    var s1 := Moved(cfg, s, Deliver);
    Extend(cfg, s, s, Deliver);
    assert s1.client.changed == [0];
    var s2 := Moved(cfg, s1, Deliver);
    Extend(cfg, s, s1, Deliver);
    Relaxes(s2);
    assert s2.(client := s2.client.(pc := Listening)) == RejectedAndIdle(s, s.node.log);
    Then(cfg, s, s2, RejectedAndIdle(s, s.node.log));
  }

  // No command, nothing pending: the worker listens again.
  lemma Relaxes(s: System)
    requires |s.node.slots| == 1 && s.client.pc == Commands && s.client.pending == []
    ensures Leads(ONE_KEY, s, s.(client := s.client.(pc := Listening)))
  {
    var cfg := ONE_KEY;
    Step1(cfg, s, ClientMove(NoCommand));
    var s1 := Moved(cfg, s, ClientMove(NoCommand));
    Extend(cfg, s, s1, ClientMove(Continue));
    assert Moved(cfg, s1, ClientMove(Continue)) == s.(client := s.client.(pc := Listening));
  }
}
