// The embedded node as a system of small steps: tasks that set keys, the
// server loop, and a client about which nothing is assumed.
module Node {
  import opened Bytes
  import opened Opcodes
  import opened Utf8
  import opened Utf8Stream
  import opened Messages
  import opened Requests
  import opened Values

  datatype Perm = Perm(readable: bool, writable: bool, observable: bool)

  function Flags(p: Perm): (bits: byte)
    ensures FlagsOk(bits)
  {
    (if p.readable then 1 else 0) + (if p.writable then 2 else 0) + (if p.observable then 4 else 0)
  }

  datatype KeyConfig = KeyConfig(keyref: u16, name: seq<byte>, perm: Perm, ktype: KeyType)

  datatype Config = Config(nodeId: seq<byte>, keys: seq<KeyConfig>)

  const NO_PERM := Perm(false, false, false)

  ghost predicate UniqueKeyrefs(cfg: Config)
  {
    forall i, j :: 0 <= i < j < |cfg.keys| ==> cfg.keys[i].keyref != cfg.keys[j].keyref
  }

  predicate HasObservable(cfg: Config)
  {
    exists i :: 0 <= i < |cfg.keys| && cfg.keys[i].perm.observable
  }

  // One more than the largest keyref, saturating at the u16 maximum.
  function KeyCount(keys: seq<KeyConfig>): (n: u16)
    ensures forall i :: 0 <= i < |keys| ==> (keys[i].keyref < n <==> keys[i].keyref != 0xFFFF)
  {
    if keys == [] then 0
    else
      var before, next := KeyCount(keys[..|keys| - 1]), SaturatingNext(keys[|keys| - 1].keyref);
      assert forall i :: 0 <= i < |keys| - 1 ==> keys[i] == keys[..|keys| - 1][i];
      if before < next then next else before
  }

  function SaturatingNext(k: u16): (n: u16)
  {
    if k == 0xFFFF then k else k + 1
  }

  // The first slot with the keyref.
  function FindSlot(keys: seq<KeyConfig>, k: u16): (r: Option<nat>)
    ensures r.Some? ==> r.value < |keys| && keys[r.value].keyref == k
    ensures r.None? ==> forall i :: 0 <= i < |keys| ==> keys[i].keyref != k
  {
    if keys == [] then None
    else if keys[0].keyref == k then Some(0)
    else
      match FindSlot(keys[1..], k)
      case None => None
      case Some(i) => Some(i + 1)
  }

  // ---- The state ----

  const GENERATIONS: nat := 0x1_0000_0000

  // A key and the server's record of it. `count` and `seenCount` are the true
  // numbers of updates behind the two wrapping u32 generations.
  datatype Slot = Slot(value: Value, gen: nat, count: nat, observed: bool, seen: nat, seenCount: nat)

  // How far an update of a key has come: stored, counted, local waiters woken.
  datatype Stage = Idle | Stored(slot: nat) | Bumped(slot: nat) | Woken(slot: nat)

  datatype Phase =
    | Waiting
    | Handling(request: Incoming)
    | Writing(request: Incoming, value: Value, stage: Stage)
    | Emitting(frame: Message, resume: nat)
    | Flushing(next: nat)
    | Stopped(request: Incoming, frame: Message)

  datatype Source = Local | ByWrite(request: Incoming)

  // The history of the connection. A frame is recorded when the server decides
  // on it, which is the order in which frames are written. Refuse records a
  // response that does not fit a frame and ends the connection.
  datatype Event =
    | Store(slot: nat, value: Value, source: Source)
    | Bump(slot: nat, source: Source)
    | Reply(request: Incoming, frame: Message)
    | Refuse(request: Incoming, frame: Message)
    | Notify(keyref: u16)

  datatype State = State(
    slots: seq<Slot>,
    notifier: bool,
    setters: seq<Stage>,
    phase: Phase,
    inbox: seq<Incoming>,
    outbox: seq<Message>,
    log: seq<Event>)

  // ---- What the server does with a request ----

  const ERROR_UNKNOWN_KEYREF: byte := 0x01
  const ERROR_NOT_ALLOWED: byte := 0x02
  const ERROR_TYPE_MISMATCH: byte := 0x03

  // "PkIiCcSsGgWwNkUk", with "!" when a key is observable.
  function BaseCaps(): (s: seq<byte>)
  {
    [PING, OK, IDENTIFY, IDENTIFIED, GETKEYTABLEN, KEYTABLEN, GETKEY, KEY,
     GET, VALUE, WRITE, WRITTEN, OBSERVE, OK, UNOBSERVE, OK]
  }

  function CapsString(cfg: Config): (s: seq<byte>)
  {
    if HasObservable(cfg) then BaseCaps() + [CHANGED] else BaseCaps()
  }

  // The slot and value of a WRITE that will be carried out.
  function WriteTarget(cfg: Config, request: Incoming): (r: Option<(nat, Value)>)
  {
    if !request.Write? || request.keyref >= KeyCount(cfg.keys) then None
    else match FindSlot(cfg.keys, request.keyref)
      case None => None
      case Some(i) =>
        if !cfg.keys[i].perm.writable then None
        else match Accept(cfg.keys[i].ktype, request.value)
          case None => None
          case Some(v) => Some((i, v))
  }

  function Response(cfg: Config, slots: seq<Slot>, request: Incoming): (m: Message)
    requires |slots| == |cfg.keys|
  {
    match request
    case Ping => Ordinarily(Okay)
    case Identify => Ordinarily(Identified(cfg.nodeId))
    case GetCaps => CapsGiven(CapsString(cfg))
    case GetKeytabLen => Ordinarily(KeytabLen(KeyCount(cfg.keys)))
    case GetKey(k) =>
      if k >= KeyCount(cfg.keys) then Failed(ERROR_UNKNOWN_KEYREF)
      else (match FindSlot(cfg.keys, k)
            case Some(i) => Ordinarily(Key(Flags(cfg.keys[i].perm), cfg.keys[i].name))
            case None => Ordinarily(Key(0, [])))
    case Get(k) =>
      if k >= KeyCount(cfg.keys) then Failed(ERROR_UNKNOWN_KEYREF)
      else (match FindSlot(cfg.keys, k)
            case Some(i) =>
              if !cfg.keys[i].perm.readable then Failed(ERROR_NOT_ALLOWED)
              else Ordinarily(Current(slots[i].value))
            case None => Failed(ERROR_NOT_ALLOWED))
    case Write(k, w) =>
      if k >= KeyCount(cfg.keys) then Failed(ERROR_UNKNOWN_KEYREF)
      else (match FindSlot(cfg.keys, k)
            case Some(i) =>
              if !cfg.keys[i].perm.writable then Failed(ERROR_NOT_ALLOWED)
              else (match Accept(cfg.keys[i].ktype, w)
                    case Some(v) => Ordinarily(Written(v))
                    case None => Failed(ERROR_TYPE_MISMATCH))
            case None => Failed(ERROR_NOT_ALLOWED))
    case Observe(k) =>
      if k >= KeyCount(cfg.keys) then Failed(ERROR_UNKNOWN_KEYREF)
      else (match FindSlot(cfg.keys, k)
            case Some(i) =>
              if !cfg.keys[i].perm.observable then Failed(ERROR_NOT_ALLOWED)
              else Ordinarily(Okay)
            case None => Failed(ERROR_NOT_ALLOWED))
    case Unobserve(k) =>
      if k >= KeyCount(cfg.keys) then Failed(ERROR_UNKNOWN_KEYREF) else Ordinarily(Okay)
  }

  // Can the response be sent? A stored value must validate, and the declared
  // length of a frame counts a string's own length field and what precedes it.
  predicate Fits(m: Message)
  {
    match m
    case Ordinarily(Identified(id)) => |id| <= 65533
    case Ordinarily(Key(_, name)) => |name| <= 65532
    case Ordinarily(Current(v)) => ValueFits(v)
    case Ordinarily(Written(v)) => ValueFits(v)
    case _ => true
  }

  predicate ValueFits(v: Value)
  {
    v.Str? ==> NulFree(v.text) && |v.text| <= 65532
  }

  // The program's strings are UTF-8 by their type.
  predicate TextOk(v: Value)
  {
    v.Str? ==> FromUtf8(v.text).Valid?
  }

  function Look(slot: Slot, observed: bool): (r: Slot)
  {
    slot.(observed := observed, seen := slot.gen, seenCount := slot.count)
  }

  // The slot whose observation a request switches, if any.
  function Switches(cfg: Config, request: Incoming): (r: Option<nat>)
    ensures r.Some? ==> r.value < |cfg.keys| && (request.Observe? || request.Unobserve?)
    ensures r.Some? ==> cfg.keys[r.value].keyref == request.keyref < KeyCount(cfg.keys)
    ensures r.Some? && request.Observe? ==> cfg.keys[r.value].perm.observable
  {
    if !(request.Observe? || request.Unobserve?) || request.keyref >= KeyCount(cfg.keys) then None
    else match FindSlot(cfg.keys, request.keyref)
      case None => None
      case Some(i) => if request.Unobserve? || cfg.keys[i].perm.observable then Some(i) else None
  }

  function SlotsAfter(cfg: Config, slots: seq<Slot>, request: Incoming): (r: seq<Slot>)
    requires |slots| == |cfg.keys|
    ensures |r| == |slots|
  {
    match Switches(cfg, request)
    case None => slots
    case Some(i) => slots[i := Look(slots[i], request.Observe?)]
  }

  // ---- Steps ----

  datatype Step =
    | Send(request: Incoming)
    | Receive
    | SetBegin(task: nat, slot: nat, value: Value)
    | SetBump(task: nat)
    | SetWake(task: nat)
    | SetNotify(task: nat)
    | TakeRequest
    | TakeNotification
    | Handle
    | WriteBump
    | WriteWake
    | WriteNotify
    | Emit
    | Visit
    | FlushDone

  function Advance(slot: Slot): (r: Slot)
  {
    slot.(gen := (slot.gen + 1) % GENERATIONS, count := slot.count + 1)
  }

  // Where the flush after a request starts.
  function FlushFrom(cfg: Config): (i: nat)
    ensures i <= |cfg.keys|
  {
    if HasObservable(cfg) then 0 else |cfg.keys|
  }

  // Does visiting this slot report it?
  predicate Reports(cfg: Config, s: State, i: nat)
    requires i < |s.slots| == |cfg.keys|
  {
    s.slots[i].observed && cfg.keys[i].perm.observable && s.slots[i].gen != s.slots[i].seen
  }

  predicate TaskAt(s: State, task: nat)
  {
    task < |s.setters|
  }

  predicate Enabled(cfg: Config, s: State, step: Step)
    requires |s.slots| == |cfg.keys|
  {
    match step
    case Send(request) => Framed(request)
    case Receive => s.outbox != []
    case SetBegin(task, slot, value) =>
      && TaskAt(s, task) && s.setters[task].Idle? && slot < |cfg.keys|
      && TextOk(value) && Accept(cfg.keys[slot].ktype, Delivered(value)).Some?
    case SetBump(task) => TaskAt(s, task) && s.setters[task].Stored? && s.setters[task].slot < |s.slots|
    case SetWake(task) => TaskAt(s, task) && s.setters[task].Bumped?
    case SetNotify(task) => TaskAt(s, task) && s.setters[task].Woken? && s.setters[task].slot < |s.slots|
    case TakeRequest => s.phase.Waiting? && s.inbox != []
    case TakeNotification => s.phase.Waiting? && HasObservable(cfg) && s.notifier
    case Handle => s.phase.Handling?
    case WriteBump => s.phase.Writing? && s.phase.stage.Stored? && s.phase.stage.slot < |s.slots|
    case WriteWake => s.phase.Writing? && s.phase.stage.Bumped?
    case WriteNotify => s.phase.Writing? && s.phase.stage.Woken? && s.phase.stage.slot < |s.slots|
    case Emit => s.phase.Emitting?
    case Visit => s.phase.Flushing? && s.phase.next < |s.slots|
    case FlushDone => s.phase.Flushing? && s.phase.next == |s.slots|
  }

  // The response goes out, or does not fit and ends the connection with nothing
  // sent.
  function Answer(cfg: Config, s: State, request: Incoming, frame: Message): (r: State)
  {
    if Fits(frame) then
      s.(phase := Emitting(frame, FlushFrom(cfg)), log := s.log + [Reply(request, frame)])
    else
      s.(phase := Stopped(request, frame), log := s.log + [Refuse(request, frame)])
  }

  function Apply(cfg: Config, s: State, step: Step): (r: State)
    requires |s.slots| == |cfg.keys| && Enabled(cfg, s, step)
    ensures |r.slots| == |s.slots|
  {
    match step
    case Send(request) => s.(inbox := s.inbox + [request])
    case Receive => s.(outbox := s.outbox[1..])
    case SetBegin(task, slot, value) =>
      s.(slots := s.slots[slot := s.slots[slot].(value := value)],
         setters := s.setters[task := Stored(slot)],
         log := s.log + [Store(slot, value, Local)])
    case SetBump(task) =>
      var i := s.setters[task].slot;
      s.(slots := s.slots[i := Advance(s.slots[i])],
         setters := s.setters[task := Bumped(i)],
         log := s.log + [Bump(i, Local)])
    case SetWake(task) => s.(setters := s.setters[task := Woken(s.setters[task].slot)])
    case SetNotify(task) =>
      s.(setters := s.setters[task := Idle],
         notifier := s.notifier || cfg.keys[s.setters[task].slot].perm.observable)
    case TakeRequest => s.(phase := Handling(s.inbox[0]), inbox := s.inbox[1..])
    case TakeNotification => s.(notifier := false, phase := Flushing(0))
    case Handle =>
      var request := s.phase.request;
      (match WriteTarget(cfg, request)
       case Some(target) =>
         s.(slots := s.slots[target.0 := s.slots[target.0].(value := target.1)],
            phase := Writing(request, target.1, Stored(target.0)),
            log := s.log + [Store(target.0, target.1, ByWrite(request))])
       case None =>
         Answer(cfg, s.(slots := SlotsAfter(cfg, s.slots, request)), request, Response(cfg, s.slots, request)))
    case WriteBump =>
      var i := s.phase.stage.slot;
      s.(slots := s.slots[i := Advance(s.slots[i])],
         phase := s.phase.(stage := Bumped(i)),
         log := s.log + [Bump(i, ByWrite(s.phase.request))])
    case WriteWake => s.(phase := s.phase.(stage := Woken(s.phase.stage.slot)))
    case WriteNotify =>
      var raised := s.notifier || cfg.keys[s.phase.stage.slot].perm.observable;
      Answer(cfg, s.(notifier := raised), s.phase.request, Ordinarily(Written(s.phase.value)))
    case Emit => s.(outbox := s.outbox + [s.phase.frame], phase := Flushing(s.phase.resume))
    case Visit =>
      var i := s.phase.next;
      if Reports(cfg, s, i) then
        s.(slots := s.slots[i := Look(s.slots[i], true)],
           phase := Emitting(Changed(cfg.keys[i].keyref), i + 1),
           log := s.log + [Notify(cfg.keys[i].keyref)])
      else s.(phase := Flushing(i + 1))
    case FlushDone => s.(phase := Waiting)
  }

  // ---- Runs ----

  predicate StageOk(cfg: Config, stage: Stage)
  {
    stage.Idle? || stage.slot < |cfg.keys|
  }

  // A new connection: nothing observed, nothing in flight. Keys, generations,
  // the notifier and the tasks are as earlier connections left them.
  predicate Connected(cfg: Config, s: State)
  {
    && |s.slots| == |cfg.keys|
    && (forall i :: 0 <= i < |s.slots| ==> FreshSlot(s.slots[i]))
    && (forall t :: 0 <= t < |s.setters| ==> StageOk(cfg, s.setters[t]))
    && s.phase == Waiting && s.inbox == [] && s.outbox == [] && s.log == []
  }

  predicate FreshSlot(slot: Slot)
  {
    !slot.observed && slot.seen == 0 && slot.seenCount == 0 && slot.gen == slot.count % GENERATIONS
  }

  ghost predicate IsRun(cfg: Config, s: State, steps: seq<Step>)
    requires |s.slots| == |cfg.keys|
    decreases |steps|
  {
    steps != [] ==> Enabled(cfg, s, steps[0]) && IsRun(cfg, Apply(cfg, s, steps[0]), steps[1..])
  }

  ghost function After(cfg: Config, s: State, steps: seq<Step>): (r: State)
    requires |s.slots| == |cfg.keys| && IsRun(cfg, s, steps)
    ensures |r.slots| == |s.slots|
    decreases |steps|
  {
    if steps == [] then s else After(cfg, Apply(cfg, s, steps[0]), steps[1..])
  }
}
