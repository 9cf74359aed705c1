// The terminal viewer's worker: it observes and reads every key, collects the
// keyrefs of CHANGED frames while it waits for replies, and reads those keys
// again.
module Worker {
  import opened Bytes
  import opened Messages
  import opened Requests
  import opened Values
  import opened Node
  import opened NodeReplies

  // Where the worker's one task is. The awaiting states have one request
  // outstanding.
  datatype Pc =
    | Observing(row: nat)
    | Reading(row: nat)
    | Refreshing(row: nat)
    | Commands
    | Draining
    | Listening
    | AwaitObserve(row: nat)
    | AwaitRead(row: nat)
    | AwaitRefresh(row: nat)
    | AwaitDrain(keyref: u16)
    | AwaitWritten(keyref: u16, value: WireValue)
    | AwaitPing
    | Down

  // `pending` is worked off, `changed` is collected during one request. The
  // mirror is what the viewer shows. `dropped` records the keyrefs thrown away
  // with the collected list of a rejected WRITE.
  datatype Client = Client(
    pc: Pc,
    pending: seq<u16>,
    changed: seq<u16>,
    mirror: map<u16, Value>,
    dropped: set<u16>)

  const START := Client(Observing(0), [], [], map[], {})

  // Adds a keyref unless it is there already.
  function Enqueue(list: seq<u16>, k: u16): (r: seq<u16>)
  {
    if k in list then list else list + [k]
  }

  function EnqueueAll(list: seq<u16>, ks: seq<u16>): (r: seq<u16>)
    decreases ks
  {
    if ks == [] then list else EnqueueAll(Enqueue(list, ks[0]), ks[1..])
  }

  predicate Distinct(list: seq<u16>)
  {
    forall i, j :: 0 <= i < j < |list| ==> list[i] != list[j]
  }

  // Merging keeps the list duplicate-free, and holds exactly the keyrefs of
  // both lists.
  lemma {:induction false} MergeKeepsDistinct(list: seq<u16>, ks: seq<u16>)
    requires Distinct(list)
    ensures Distinct(EnqueueAll(list, ks))
    ensures forall k :: k in EnqueueAll(list, ks) <==> k in list || k in ks
    decreases ks
  {
    if ks != [] {
      MergeKeepsDistinct(Enqueue(list, ks[0]), ks[1..]);
      assert forall k :: k in ks <==> k == ks[0] || k in ks[1..];
    }
  }

  function First(ks: seq<u16>, k: u16): (p: nat)
    ensures p <= |ks| && (k in ks <==> p < |ks|) && (p < |ks| ==> ks[p] == k && k !in ks[..p])
  {
    if ks == [] || ks[0] == k then 0
    else
      var p := First(ks[1..], k);
      assert k !in ks[..p + 1] by {
        assert ks[..p + 1] == [ks[0]] + ks[1..][..p];
      }
      p + 1
  }

  // Merging keeps the list in front, and appends the new keyrefs in the order in
  // which they came first.
  lemma {:induction false} MergeKeepsOrder(list: seq<u16>, ks: seq<u16>)
    requires Distinct(list)
    ensures list <= EnqueueAll(list, ks)
    ensures var r := EnqueueAll(list, ks);
      forall i, j :: |list| <= i < j < |r| ==> First(ks, r[i]) < First(ks, r[j]) < |ks|
    decreases ks
  {
    if ks != [] {
      var next, r := Enqueue(list, ks[0]), EnqueueAll(list, ks);
      MergeKeepsOrder(next, ks[1..]);
      MergeKeepsDistinct(list, ks);
      forall i, j | |list| <= i < j < |r|
        ensures First(ks, r[i]) < First(ks, r[j]) < |ks|
      {
        assert r[j] != r[i] && (i < |next| ==> r[i] == ks[0]);
        assert j >= |next|;
        assert r[j] !in next;
      }
    }
  }

  method EnqueueChangedKey(list: seq<u16>, k: u16) returns (r: seq<u16>)
    requires Distinct(list)
    ensures r == Enqueue(list, k) && Distinct(r)
  {
    r := list;
    if k !in list {
      r := r + [k];
    }
  }

  method EnqueueChangedKeys(list: seq<u16>, ks: seq<u16>) returns (r: seq<u16>)
    requires Distinct(list)
    ensures r == EnqueueAll(list, ks) && Distinct(r)
  {
    r := list;
    for i := 0 to |ks|
      invariant Distinct(r)
      invariant EnqueueAll(r, ks[i..]) == EnqueueAll(list, ks)
    {
      r := EnqueueChangedKey(r, ks[i]);
    }
  }

  // ---- The worker's steps ----

  function PermOf(cfg: Config, k: nat): (p: Perm)
  {
    if k < KeyCount(cfg.keys) then EntryAt(cfg, k).perm else NO_PERM
  }

  // The request the worker is waiting on.
  function Outstanding(pc: Pc): (r: Option<Incoming>)
    requires RowFits(pc)
  {
    match pc
    case AwaitObserve(row) => Some(Incoming.Observe(row))
    case AwaitRead(row) => Some(Incoming.Get(row))
    case AwaitRefresh(row) => Some(Incoming.Get(row))
    case AwaitDrain(k) => Some(Incoming.Get(k))
    case AwaitWritten(k, w) => Some(Incoming.Write(k, w))
    case AwaitPing => Some(Incoming.Ping)
    case _ => None
  }

  predicate RowFits(pc: Pc)
  {
    (pc.AwaitObserve? || pc.AwaitRead? || pc.AwaitRefresh?) ==> pc.row < 0x1_0000
  }

  // What the worker does next by itself; a request may go out with it. A written
  // value is given as the server will see it. TimeOut ends a poll between two
  // frames; MirrorBytes says what ending one inside a frame does.
  datatype Choice = Continue | Refresh | WriteKey(keyref: u16, value: WireValue) | NoCommand | TimeOut | Heartbeat

  predicate May(c: Client, choice: Choice)
  {
    match choice
    case Continue => c.pc.Observing? || c.pc.Reading? || c.pc.Refreshing? || c.pc.Draining?
    case Refresh => c.pc.Commands?
    case WriteKey(_, _) => c.pc.Commands?
    case NoCommand => c.pc.Commands?
    case TimeOut => c.pc.Listening?
    case Heartbeat => c.pc.Listening?
  }

  function Act(cfg: Config, c: Client, choice: Choice): (r: Client)
    requires May(c, choice)
  {
    match choice
    case Continue =>
      (match c.pc
       case Observing(row) =>
         if row >= KeyCount(cfg.keys) then c.(pc := Draining)
         else if PermOf(cfg, row).observable then c.(pc := AwaitObserve(row), changed := [])
         else c.(pc := Reading(row))
       case Reading(row) =>
         if PermOf(cfg, row).readable then c.(pc := AwaitRead(row), changed := [])
         else c.(pc := Observing(row + 1))
       case Refreshing(row) =>
         if row >= KeyCount(cfg.keys) then c.(pc := Commands)
         else if PermOf(cfg, row).readable then c.(pc := AwaitRefresh(row), changed := [])
         else c.(pc := Refreshing(row + 1))
       case Draining => Drain(cfg, c)
       case _ => c)
    case Refresh => c.(pc := Refreshing(0))
    case WriteKey(k, w) =>
      // A value that cannot be encoded ends the connection before it is sent.
      if Framed(Incoming.Write(k, w)) then c.(pc := AwaitWritten(k, w), changed := []) else c.(pc := Down)
    case NoCommand => c.(pc := Draining)
    case TimeOut => c.(pc := Commands)
    case Heartbeat => c.(pc := AwaitPing, changed := [])
  }

  function Drain(cfg: Config, c: Client): (r: Client)
  {
    if c.pending == [] then c.(pc := Listening)
    else
      var k, rest := c.pending[|c.pending| - 1], c.pending[..|c.pending| - 1];
      if k >= KeyCount(cfg.keys) then c.(pending := rest)
      else if PermOf(cfg, k).readable then c.(pc := AwaitDrain(k), pending := rest, changed := [])
      else c.(pending := rest, mirror := c.mirror - {k})
  }

  // A reply that ends the wait: merge what was collected and go on.
  function Merge(c: Client, pc: Pc): (r: Client)
  {
    c.(pc := pc, pending := EnqueueAll(c.pending, c.changed), changed := [])
  }

  function Show(c: Client, k: u16, v: Value): (r: Client)
  {
    c.(mirror := c.mirror[k := v], dropped := c.dropped - {k})
  }

  // The key whose value the awaited reply will show.
  function Shows(pc: Pc): (k: Option<u16>)
    requires RowFits(pc)
  {
    match pc
    case AwaitRead(row) => Some(row)
    case AwaitRefresh(row) => Some(row)
    case AwaitDrain(k) => Some(k)
    case AwaitWritten(k, _) => Some(k)
    case _ => None
  }

  function Resume(pc: Pc): (r: Pc)
  {
    match pc
    case AwaitObserve(row) => Reading(row)
    case AwaitRead(row) => Observing(row + 1)
    case AwaitRefresh(row) => Refreshing(row + 1)
    case AwaitDrain(_) => Draining
    case AwaitWritten(_, _) => Commands
    case AwaitPing => Commands
    case _ => Down
  }

  // Receiving one message. An unexpected one ends the connection.
  function OnMessage(c: Client, m: Message): (r: Client)
    requires RowFits(c.pc)
  {
    if Outstanding(c.pc).Some? then
      if m.Changed? then c.(changed := Enqueue(c.changed, m.keyref))
      else if (c.pc.AwaitObserve? || c.pc.AwaitPing?) && m == Ordinarily(Okay) then Merge(c, Resume(c.pc))
      else if (c.pc.AwaitRead? || c.pc.AwaitRefresh? || c.pc.AwaitDrain?) && m.Ordinarily? && m.response.Current? then
        Show(Merge(c, Resume(c.pc)), Shows(c.pc).value, m.response.value)
      else if c.pc.AwaitWritten? && m.Ordinarily? && m.response.Written? then
        Show(Merge(c, Resume(c.pc)), c.pc.keyref, m.response.value)
      else if c.pc.AwaitWritten? && m.Failed? then
        // The collected keyrefs are not merged on this path.
        c.(pc := Commands, changed := [], dropped := c.dropped + set k | k in c.changed)
      else c.(pc := Down)
    else if c.pc.Listening? && m.Changed? then c.(pc := Commands, pending := Enqueue(c.pending, m.keyref))
    else c.(pc := Down)
  }

  // The worker waits for a message here.
  predicate Receiving(c: Client)
  {
    RowFits(c.pc) && (Outstanding(c.pc).Some? || c.pc.Listening?)
  }

  // ---- Worker and node together ----

  datatype System = System(node: State, client: Client)

  datatype Move = NodeMove(step: Node.Step) | ClientMove(choice: Choice) | Deliver

  predicate MayMove(cfg: Config, s: System, move: Move)
    requires |s.node.slots| == |cfg.keys|
  {
    match move
    case NodeMove(step) => !step.Send? && !step.Receive? && Enabled(cfg, s.node, step)
    case ClientMove(choice) => May(s.client, choice)
    case Deliver => Receiving(s.client) && s.node.outbox != []
  }

  // The request a choice sends.
  function Asks(before: Client, after: Client): (r: Option<Incoming>)
  {
    if RowFits(after.pc) && before.pc != after.pc then Outstanding(after.pc) else None
  }

  function Moved(cfg: Config, s: System, move: Move): (r: System)
    requires |s.node.slots| == |cfg.keys| && MayMove(cfg, s, move)
    ensures |r.node.slots| == |cfg.keys|
  {
    match move
    case NodeMove(step) => s.(node := Apply(cfg, s.node, step))
    case ClientMove(choice) =>
      var after := Act(cfg, s.client, choice);
      (match Asks(s.client, after)
       case Some(request) => System(Apply(cfg, s.node, Send(request)), after)
       case None => s.(client := after))
    case Deliver =>
      System(Apply(cfg, s.node, Receive), OnMessage(s.client, s.node.outbox[0]))
  }

  ghost predicate IsPlay(cfg: Config, s: System, moves: seq<Move>)
    requires |s.node.slots| == |cfg.keys|
    decreases |moves|
  {
    moves != [] ==> MayMove(cfg, s, moves[0]) && IsPlay(cfg, Moved(cfg, s, moves[0]), moves[1..])
  }

  ghost function Played(cfg: Config, s: System, moves: seq<Move>): (r: System)
    requires |s.node.slots| == |cfg.keys| && IsPlay(cfg, s, moves)
    ensures |r.node.slots| == |cfg.keys|
    decreases |moves|
  {
    if moves == [] then s else Played(cfg, Moved(cfg, s, moves[0]), moves[1..])
  }
}
