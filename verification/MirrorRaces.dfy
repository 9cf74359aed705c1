// A set that lands between the store of a WRITE and its WRITTEN: nobody sets the
// key after the answer, and still the mirror of a key that is not observed ends
// up wrong.
module MirrorRaces {
  import opened Bytes
  import opened Messages
  import opened Requests
  import opened Values
  import opened Node
  import opened NodeReplies
  import opened Worker
  import opened Mirror
  import opened MirrorLimits

  // One key that can be read and written, not observed.
  const PLAIN_KEY := Config([], [KeyConfig(0, [], Perm(true, true, false), I64Type)])

  // Everything is idle but for the task, which is at `stage`.
  function Resting(value: Value, shown: Value, count: nat, stage: Stage, pc: Pc, log: seq<Event>): (s: System)
  {
    System(State([Slot(value, count % GENERATIONS, count, false, 0, 0)], false, [stage], Waiting, [], [], log),
           Client(pc, [], [], map[0 := shown], {}))
  }

  lemma PlainKeyFacts()
    ensures !HasObservable(PLAIN_KEY) && KeyCount(PLAIN_KEY.keys) == 1 && UniqueKeyrefs(PLAIN_KEY)
    ensures FindSlot(PLAIN_KEY.keys, 0) == Some(0)
    ensures PermOf(PLAIN_KEY, 0) == Perm(true, true, false)
    ensures Begun(PLAIN_KEY, STARTED)
  {
    assert PLAIN_KEY.keys[..0] == [];
  }

  // The end of a run: idle, the WRITTEN is answered and nothing is stored behind
  // it, and the mirror shows another value than the node holds.
  ghost predicate WrongWithoutLaterSet(s: System)
  {
    && AllIdle(s) && |s.node.slots| == 1
    && s.client.mirror == map[0 := I64(1)] && s.node.slots[0].value == I64(2)
    && exists p :: 0 <= p < |s.node.log| && s.node.log[p] == Reply(Incoming.Write(0, WI64(1)), Ordinarily(Written(I64(1))))
         && forall q :: p < q < |s.node.log| ==> !s.node.log[q].Store?
  }

  lemma WrongAfterRacingSet()
    ensures exists s: System :: Leads(PLAIN_KEY, STARTED, s) && WrongWithoutLaterSet(s)
  {
    var log1 := ReadsThenTakesCommands();
    var s1 := Resting(I64(0), I64(0), 0, Stage.Idle, Commands, log1);
    var log2 := WritesWhileSetting(log1);
    var s2 := Resting(I64(2), I64(1), 1, Stored(0), Commands, log2);
    Then(PLAIN_KEY, STARTED, s1, s2);
    var log3 := FinishesSetting(log2);
    var s3 := Resting(I64(2), I64(1), 2, Stage.Idle, Listening, log3);
    Then(PLAIN_KEY, STARTED, s2, s3);
    assert s3.node.log[|log2| - 1] == Reply(WRITE_ONE, Ordinarily(Written(I64(1))));
  }

  // The server answers the one waiting request and sends the answer.
  lemma AnswersPlainly(s: System, request: Incoming) returns (t: System)
    requires |s.node.slots| == 1 && s.node.phase == Waiting && s.node.inbox == [request] && s.node.outbox == []
    requires WriteTarget(PLAIN_KEY, request).None? && Switches(PLAIN_KEY, request).None?
    requires Fits(Response(PLAIN_KEY, s.node.slots, request))
    ensures Leads(PLAIN_KEY, s, t)
    ensures var m := Response(PLAIN_KEY, s.node.slots, request);
      t == s.(node := s.node.(inbox := [], outbox := [m], log := s.node.log + [Reply(request, m)]))
  {
    var cfg := PLAIN_KEY;
    PlainKeyFacts();
    Stay(cfg, s);
    var a := Moved(cfg, s, NodeMove(TakeRequest));
    Extend(cfg, s, s, NodeMove(TakeRequest));
    var b := Moved(cfg, a, NodeMove(Handle));
    Extend(cfg, s, a, NodeMove(Handle));
    t := Sends(s, b);
  }

  lemma Sends(s: System, b: System) returns (t: System)
    requires Leads(PLAIN_KEY, s, b) && |b.node.slots| == 1 && b.node.phase.Emitting? && b.node.phase.resume == 1
    ensures Leads(PLAIN_KEY, s, t)
    ensures t == b.(node := b.node.(phase := Waiting, outbox := b.node.outbox + [b.node.phase.frame]))
  {
    var cfg := PLAIN_KEY;
    var c := Moved(cfg, b, NodeMove(Emit));
    Extend(cfg, s, b, NodeMove(Emit));
    t := Moved(cfg, c, NodeMove(FlushDone));
    Extend(cfg, s, c, NodeMove(FlushDone));
  }

  lemma ReadsThenTakesCommands() returns (log: seq<Event>)
    ensures Leads(PLAIN_KEY, STARTED, Resting(I64(0), I64(0), 0, Stage.Idle, Commands, log))
  {
    var cfg, s := PLAIN_KEY, STARTED;
    PlainKeyFacts();
    Stay(cfg, s);
    var a := Moved(cfg, s, ClientMove(Continue));
    Extend(cfg, s, s, ClientMove(Continue));
    var b := Moved(cfg, a, ClientMove(Continue));
    Extend(cfg, s, a, ClientMove(Continue));
    var c := AnswersPlainly(b, Incoming.Get(0));
    Then(cfg, s, b, c);
    var d := Moved(cfg, c, Deliver);
    Extend(cfg, s, c, Deliver);
    log := d.node.log;
    assert d == Resting(I64(0), I64(0), 0, Stage.Idle, Observing(1), log);
    TakesCommands(d, log);
    Then(cfg, s, d, Resting(I64(0), I64(0), 0, Stage.Idle, Commands, log));
  }

  lemma TakesCommands(d: System, log: seq<Event>)
    requires d == Resting(I64(0), I64(0), 0, Stage.Idle, Observing(1), log)
    ensures Leads(PLAIN_KEY, d, Resting(I64(0), I64(0), 0, Stage.Idle, Commands, log))
  {
    var cfg := PLAIN_KEY;
    PlainKeyFacts();
    Stay(cfg, d);
    var e := Moved(cfg, d, ClientMove(Continue));
    Extend(cfg, d, d, ClientMove(Continue));
    var f := Moved(cfg, e, ClientMove(Continue));
    Extend(cfg, d, e, ClientMove(Continue));
    Extend(cfg, d, f, ClientMove(TimeOut));
  }

  const WRITE_ONE := Incoming.Write(0, WI64(1))

  // The WRITE is being carried out, with the value that is stored now, the
  // number of updates counted, and how far the WRITE has come.
  function Writes(value: Value, count: nat, stage: Stage, task: Stage, log: seq<Event>): (s: System)
  {
    System(State([Slot(value, count % GENERATIONS, count, false, 0, 0)], false, [task],
                 Writing(WRITE_ONE, I64(1), stage), [], [], log),
           Client(AwaitWritten(0, WI64(1)), [], [], map[0 := I64(0)], {}))
  }

  // The WRITE stores 1, the task stores 2, and the WRITE is answered.
  lemma WritesWhileSetting(before: seq<Event>) returns (log: seq<Event>)
    ensures var s := Resting(I64(0), I64(0), 0, Stage.Idle, Commands, before);
      Leads(PLAIN_KEY, s, Resting(I64(2), I64(1), 1, Stored(0), Commands, log))
    ensures log != [] && log[|log| - 1] == Reply(WRITE_ONE, Ordinarily(Written(I64(1))))
  {
    var s := Resting(I64(0), I64(0), 0, Stage.Idle, Commands, before);
    StoresTheWrite(before);
    var stored := before + [Store(0, I64(1), ByWrite(WRITE_ONE))];
    SetsMeanwhile(stored);
    var raced := stored + [Store(0, I64(2), Local)];
    Then(PLAIN_KEY, s, Writes(I64(1), 0, Stored(0), Stage.Idle, stored), Writes(I64(2), 0, Stored(0), Stored(0), raced));
    CountsTheWrite(raced);
    var counted := raced + [Bump(0, ByWrite(WRITE_ONE))];
    Then(PLAIN_KEY, s, Writes(I64(2), 0, Stored(0), Stored(0), raced), Writes(I64(2), 1, Woken(0), Stored(0), counted));
    AnswersTheWrite(counted);
    log := counted + [Reply(WRITE_ONE, Ordinarily(Written(I64(1))))];
    Then(PLAIN_KEY, s, Writes(I64(2), 1, Woken(0), Stored(0), counted), Resting(I64(2), I64(1), 1, Stored(0), Commands, log));
  }

  lemma StoresTheWrite(log: seq<Event>)
    ensures Leads(PLAIN_KEY, Resting(I64(0), I64(0), 0, Stage.Idle, Commands, log),
                  Writes(I64(1), 0, Stored(0), Stage.Idle, log + [Store(0, I64(1), ByWrite(WRITE_ONE))]))
  {
    var s := Resting(I64(0), I64(0), 0, Stage.Idle, Commands, log);
    Step1(PLAIN_KEY, s, ClientMove(WriteKey(0, WI64(1))));
    var asked := s.(node := s.node.(inbox := [WRITE_ONE]), client := s.client.(pc := AwaitWritten(0, WI64(1))));
    assert Moved(PLAIN_KEY, s, ClientMove(WriteKey(0, WI64(1)))) == asked;
    Extend(PLAIN_KEY, s, asked, NodeMove(TakeRequest));
    var taken := asked.(node := asked.node.(inbox := [], phase := Handling(WRITE_ONE)));
    assert Moved(PLAIN_KEY, asked, NodeMove(TakeRequest)) == taken;
    HandlesTheWrite(s, taken, log);
  }

  lemma HandlesTheWrite(s: System, t: System, log: seq<Event>)
    requires Leads(PLAIN_KEY, s, t)
    requires t.node == State([Slot(I64(0), 0, 0, false, 0, 0)], false, [Stage.Idle], Handling(WRITE_ONE), [], [], log)
    requires t.client == Client(AwaitWritten(0, WI64(1)), [], [], map[0 := I64(0)], {})
    ensures Leads(PLAIN_KEY, s, Writes(I64(1), 0, Stored(0), Stage.Idle, log + [Store(0, I64(1), ByWrite(WRITE_ONE))]))
  {
    PlainKeyFacts();
    Extend(PLAIN_KEY, s, t, NodeMove(Handle));
    assert WriteTarget(PLAIN_KEY, WRITE_ONE) == Some((0, I64(1)));
    assert Moved(PLAIN_KEY, t, NodeMove(Handle)) == Writes(I64(1), 0, Stored(0), Stage.Idle, log + [Store(0, I64(1), ByWrite(WRITE_ONE))]);
  }

  lemma SetsMeanwhile(log: seq<Event>)
    ensures Leads(PLAIN_KEY, Writes(I64(1), 0, Stored(0), Stage.Idle, log),
                  Writes(I64(2), 0, Stored(0), Stored(0), log + [Store(0, I64(2), Local)]))
  {
    Step1(PLAIN_KEY, Writes(I64(1), 0, Stored(0), Stage.Idle, log), NodeMove(SetBegin(0, 0, I64(2))));
  }

  lemma CountsTheWrite(log: seq<Event>)
    ensures Leads(PLAIN_KEY, Writes(I64(2), 0, Stored(0), Stored(0), log),
                  Writes(I64(2), 1, Woken(0), Stored(0), log + [Bump(0, ByWrite(WRITE_ONE))]))
  {
    var s := Writes(I64(2), 0, Stored(0), Stored(0), log);
    Step1(PLAIN_KEY, s, NodeMove(WriteBump));
    var t := Writes(I64(2), 1, Bumped(0), Stored(0), log + [Bump(0, ByWrite(WRITE_ONE))]);
    assert Moved(PLAIN_KEY, s, NodeMove(WriteBump)) == t;
    Extend(PLAIN_KEY, s, t, NodeMove(WriteWake));
  }

  lemma AnswersTheWrite(log: seq<Event>)
    ensures Leads(PLAIN_KEY, Writes(I64(2), 1, Woken(0), Stored(0), log),
                  Resting(I64(2), I64(1), 1, Stored(0), Commands, log + [Reply(WRITE_ONE, Ordinarily(Written(I64(1))))]))
  {
    var s, m := Writes(I64(2), 1, Woken(0), Stored(0), log), Ordinarily(Written(I64(1)));
    PlainKeyFacts();
    Step1(PLAIN_KEY, s, NodeMove(WriteNotify));
    var t := s.(node := s.node.(phase := Emitting(m, 1), log := log + [Reply(WRITE_ONE, m)]));
    assert Moved(PLAIN_KEY, s, NodeMove(WriteNotify)) == t;
    var u := Sends(s, t);
    ReadsWritten(s, u, log + [Reply(WRITE_ONE, m)]);
  }

  lemma ReadsWritten(s: System, u: System, log: seq<Event>)
    requires Leads(PLAIN_KEY, s, u)
    requires u.node == State([Slot(I64(2), 1, 1, false, 0, 0)], false, [Stored(0)], Waiting, [], [Ordinarily(Written(I64(1)))], log)
    requires u.client == Client(AwaitWritten(0, WI64(1)), [], [], map[0 := I64(0)], {})
    ensures Leads(PLAIN_KEY, s, Resting(I64(2), I64(1), 1, Stored(0), Commands, log))
  {
    Extend(PLAIN_KEY, s, u, Deliver);
    assert Moved(PLAIN_KEY, u, Deliver) == Resting(I64(2), I64(1), 1, Stored(0), Commands, log);
  }

  // The task counts its update, which nobody is told of.
  lemma FinishesSetting(before: seq<Event>) returns (log: seq<Event>)
    ensures var s := Resting(I64(2), I64(1), 1, Stored(0), Commands, before);
      Leads(PLAIN_KEY, s, Resting(I64(2), I64(1), 2, Stage.Idle, Listening, log))
    ensures log == before + [Bump(0, Local)]
  {
    var cfg, s := PLAIN_KEY, Resting(I64(2), I64(1), 1, Stored(0), Commands, before);
    Step1(cfg, s, NodeMove(SetBump(0)));
    var a := Resting(I64(2), I64(1), 2, Bumped(0), Commands, before + [Bump(0, Local)]);
    assert Moved(cfg, s, NodeMove(SetBump(0))) == a;
    var b := Moved(cfg, a, NodeMove(SetWake(0)));
    Extend(cfg, s, a, NodeMove(SetWake(0)));
    var c := Moved(cfg, b, NodeMove(SetNotify(0)));
    Extend(cfg, s, b, NodeMove(SetNotify(0)));
    log := a.node.log;
    ListensAgain(s, c, log);
  }

  lemma ListensAgain(s: System, c: System, log: seq<Event>)
    requires Leads(PLAIN_KEY, s, c) && c == Resting(I64(2), I64(1), 2, Stage.Idle, Commands, log)
    ensures Leads(PLAIN_KEY, s, Resting(I64(2), I64(1), 2, Stage.Idle, Listening, log))
  {
    Extend(PLAIN_KEY, s, c, ClientMove(NoCommand));
    Extend(PLAIN_KEY, s, Moved(PLAIN_KEY, c, ClientMove(NoCommand)), ClientMove(Continue));
  }
}
