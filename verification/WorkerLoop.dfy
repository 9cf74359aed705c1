// The viewer's loops over its connection: waiting for a reply while collecting
// CHANGED keyrefs, and working the collected keyrefs off.
module WorkerLoop {
  import opened Bytes
  import opened Messages
  import opened Requests
  import opened Values
  import opened Node
  import opened Worker

  datatype Traffic = Sent(request: Incoming) | Arrived(message: Message)

  // The keyrefs of the CHANGED frames among the messages.
  function Refs(ms: seq<Message>): (ks: seq<u16>)
  {
    if ms == [] then []
    else
      var m, before := ms[|ms| - 1], Refs(ms[..|ms| - 1]);
      if m.Changed? then before + [m.keyref] else before
  }

  lemma {:induction false} RefsHoldKeyrefs(ms: seq<Message>)
    ensures forall k :: k in Refs(ms) <==> Changed(k) in ms
  {
    if ms != [] {
      var m, rest := ms[|ms| - 1], ms[..|ms| - 1];
      assert ms == rest + [m];
      RefsHoldKeyrefs(rest);
    }
  }

  // The number of CHANGED frames before the first other message.
  function Leading(ms: seq<Message>): (n: nat)
    ensures n <= |ms|
  {
    if ms == [] || !ms[0].Changed? then 0 else 1 + Leading(ms[1..])
  }

  lemma {:induction false} LeadingAreChanged(ms: seq<Message>)
    ensures forall j :: 0 <= j < Leading(ms) ==> ms[j].Changed?
    ensures Leading(ms) < |ms| ==> !ms[Leading(ms)].Changed?
  {
    if ms != [] && ms[0].Changed? {
      LeadingAreChanged(ms[1..]);
    }
  }

  // The messages a wait takes: the CHANGED frames and the reply behind them.
  function Consumed(ms: seq<Message>): (n: nat)
    ensures n <= |ms|
  {
    if Leading(ms) < |ms| then Leading(ms) + 1 else Leading(ms)
  }

  function Arrivals(ms: seq<Message>): (t: seq<Traffic>)
    ensures |t| == |ms|
  {
    if ms == [] then [] else Arrivals(ms[..|ms| - 1]) + [Arrived(ms[|ms| - 1])]
  }

  lemma {:induction false} ArrivalsAt(ms: seq<Message>, j: nat)
    requires j < |ms|
    ensures Arrivals(ms)[j] == Arrived(ms[j])
  {
    if j < |ms| - 1 {
      ArrivalsAt(ms[..|ms| - 1], j);
    }
  }

  lemma {:induction false} EnqueueAllSnoc(list: seq<u16>, ks: seq<u16>, k: u16)
    ensures EnqueueAll(list, ks + [k]) == Enqueue(EnqueueAll(list, ks), k)
    decreases ks
  {
    if ks == [] {
      assert [k][1..] == [];
    } else {
      assert (ks + [k])[1..] == ks[1..] + [k];
      EnqueueAllSnoc(Enqueue(list, ks[0]), ks[1..], k);
    }
  }

  lemma {:induction false} LeadingOf(ms: seq<Message>, n: nat)
    requires n <= |ms| && (forall j :: 0 <= j < n ==> ms[j].Changed?)
    requires n < |ms| ==> !ms[n].Changed?
    ensures Leading(ms) == n
  {
    if n > 0 {
      LeadingOf(ms[1..], n - 1);
    }
  }

  // ---- The worker's state machine, fed ----

  function Fed(c: Client, ms: seq<Message>): (r: Client)
    requires RowFits(c.pc)
    ensures RowFits(r.pc)
    decreases ms
  {
    if ms == [] then c else Fed(OnMessage(c, ms[0]), ms[1..])
  }

  // Waiting collects every CHANGED keyref once, in order of arrival.
  lemma {:induction false} FedCollects(c: Client, ms: seq<Message>, n: nat)
    requires RowFits(c.pc) && Outstanding(c.pc).Some?
    requires n <= |ms| && forall j :: 0 <= j < n ==> ms[j].Changed?
    ensures Fed(c, ms[..n]) == c.(changed := EnqueueAll(c.changed, Refs(ms[..n])))
    decreases n
  {
    if n > 0 {
      FedCollects(c, ms, n - 1);
      var before := ms[..n - 1];
      assert ms[..n] == before + [ms[n - 1]];
      FedSnoc(c, before, ms[n - 1]);
      EnqueueAllSnoc(c.changed, Refs(before), ms[n - 1].keyref);
    }
  }

  lemma {:induction false} FedSnoc(c: Client, ms: seq<Message>, m: Message)
    requires RowFits(c.pc)
    ensures Fed(c, ms + [m]) == OnMessage(Fed(c, ms), m)
    decreases ms
  {
    if ms == [] {
      assert [m][1..] == [];
    } else {
      assert (ms + [m])[1..] == ms[1..] + [m];
      FedSnoc(OnMessage(c, ms[0]), ms[1..], m);
    }
  }

  // What a wait collects, and the reply that ends it.
  function Waited(ms: seq<Message>): (changed: seq<u16>)
  {
    EnqueueAll([], Refs(ms[..Leading(ms)]))
  }

  function ReplyOf(ms: seq<Message>): (reply: Option<Message>)
  {
    if Leading(ms) < |ms| then Some(ms[Leading(ms)]) else None
  }

  // The state machine after one request's wait.
  function Answered(c: Client, ms: seq<Message>): (r: Client)
    requires RowFits(c.pc)
  {
    var waiting := c.(changed := Waited(ms));
    match ReplyOf(ms)
    case None => waiting
    case Some(m) => OnMessage(waiting, m)
  }

  // The state machine after a read's wait.
  lemma AnsweredRead(c: Client, k: u16, ms: seq<Message>)
    requires c.pc == AwaitDrain(k) && c.dropped == {}
    ensures var r, reply := Answered(c, ms), ReplyOf(ms);
      && (r.pc.Draining? <==> reply.Some? && reply.value.Ordinarily? && reply.value.response.Current?)
      && (r.pc.Draining? ==>
            r == Client(Draining, EnqueueAll(c.pending, Waited(ms)), [], c.mirror[k := reply.value.response.value], {}))
  {
  }

  // That is what feeding it the messages one by one comes to.
  lemma FedAnswer(c: Client, ms: seq<Message>)
    requires RowFits(c.pc) && Outstanding(c.pc).Some? && c.changed == []
    ensures Fed(c, ms[..Consumed(ms)]) == Answered(c, ms)
  {
    var n := Leading(ms);
    LeadingAreChanged(ms);
    FedCollects(c, ms, n);
    if n < |ms| {
      var waiting := c.(changed := Waited(ms));
      assert ms[..n + 1] == ms[..n] + [ms[n]];
      assert Fed(c, ms[..n]) == waiting;
      FedSnoc(c, ms[..n], ms[n]);
    }
  }

  function ChangedCount(ms: seq<Message>): (n: nat)
  {
    if ms == [] then 0 else (if ms[0].Changed? then 1 else 0) + ChangedCount(ms[1..])
  }

  // A wait that got its reply leaves as many fewer CHANGED frames as it took.
  lemma {:induction false} FewerChanged(ms: seq<Message>)
    requires Leading(ms) < |ms|
    ensures ChangedCount(ms[Consumed(ms)..]) == ChangedCount(ms) - Leading(ms)
  {
    var n := Leading(ms);
    if n > 0 {
      FewerChanged(ms[1..]);
      assert ms[1..][n..] == ms[n + 1..];
    }
  }

  // A drain's read that is answered leaves fewer CHANGED frames, or as many and
  // a shorter list.
  lemma AnsweredDrains(cfg: Config, c: Client, ms: seq<Message>)
    requires c.pc.Draining? && Drain(cfg, c).pc.AwaitDrain? && Answered(Drain(cfg, c), ms).pc.Draining?
    ensures var r := Answered(Drain(cfg, c), ms);
      || ChangedCount(ms[Consumed(ms)..]) < ChangedCount(ms)
      || (ChangedCount(ms[Consumed(ms)..]) == ChangedCount(ms) && |r.pending| < |c.pending|)
  {
    FewerChanged(ms);
    LeadingAreChanged(ms);
    assert Leading(ms) == 0 ==> ms[..Leading(ms)] == [];
  }

  // Working off the pending keyrefs against a given stream of messages: the
  // worker's state machine with the node's replies fed to it. It ends because
  // each turn takes a CHANGED frame off the stream or shortens the list.
  ghost function Drained(cfg: Config, c: Client, ms: seq<Message>): (r: (Client, seq<Message>))
    requires c.pc.Draining?
    decreases ChangedCount(ms), |c.pending|
  {
    var asked := Drain(cfg, c);
    if c.pending == [] then (asked, ms)
    else if !asked.pc.AwaitDrain? then Drained(cfg, asked, ms)
    else
      var answered, rest := Answered(asked, ms), ms[Consumed(ms)..];
      if !answered.pc.Draining? then (answered, rest)
      else
        AnsweredDrains(cfg, c, ms);
        Drained(cfg, answered, rest)
  }

  // One turn of the drain, unfolded.
  lemma DrainedTurn(cfg: Config, c: Client, ms: seq<Message>)
    requires c.pc.Draining? && c.pending != [] && c.changed == [] && c.dropped == {}
    ensures var k, rest := c.pending[|c.pending| - 1], c.pending[..|c.pending| - 1];
      var asked := Client(AwaitDrain(k), rest, [], c.mirror, {});
      if k >= KeyCount(cfg.keys) then
        Drained(cfg, c, ms) == Drained(cfg, Client(Draining, rest, [], c.mirror, {}), ms)
      else if !PermOf(cfg, k).readable then
        Drained(cfg, c, ms) == Drained(cfg, Client(Draining, rest, [], c.mirror - {k}, {}), ms)
      else
        var end := Answered(asked, ms);
        && asked == Drain(cfg, c)
        && (end.pc.Draining? ==> end == Client(Draining, end.pending, [], end.mirror, {}))
        && (end.pc.Draining? ==> Drained(cfg, c, ms) == Drained(cfg, end, ms[Consumed(ms)..]))
        && (!end.pc.Draining? ==> Drained(cfg, c, ms) == (end, ms[Consumed(ms)..]) && !end.pc.Listening?)
  {
  }

  // ---- The connection ----

  // What taking one more message does.
  lemma CollectStep(ms: seq<Message>, n: nat)
    requires n < |ms| && forall j :: 0 <= j < n ==> ms[j].Changed?
    ensures ms[n..][0] == ms[n] && ms[n..][1..] == ms[n + 1..]
    ensures Arrivals(ms[..n + 1]) == Arrivals(ms[..n]) + [Arrived(ms[n])]
    ensures ms[n].Changed? ==> EnqueueAll([], Refs(ms[..n + 1])) == Enqueue(EnqueueAll([], Refs(ms[..n])), ms[n].keyref)
    ensures !ms[n].Changed? ==> Leading(ms) == n
  {
    assert ms[..n + 1][..n] == ms[..n];
    if ms[n].Changed? {
      EnqueueAllSnoc([], Refs(ms[..n]), ms[n].keyref);
    } else {
      LeadingOf(ms, n);
    }
  }

  // A request for a key the loops re-read.
  predicate Rereads(cfg: Config, k: u16)
  {
    k < KeyCount(cfg.keys) && PermOf(cfg, k).readable
  }

  // A GET for the key went out at `from` or later.
  predicate AskedFor(trace: seq<Traffic>, from: nat, k: u16)
  {
    exists q :: from <= q < |trace| && trace[q] == Sent(Incoming.Get(k))
  }

  // Every CHANGED frame met from `start` on, for a key that is re-read, was
  // followed by a GET of that key, or waits in the list.
  ghost predicate Followed(cfg: Config, trace: seq<Traffic>, start: nat, pending: seq<u16>)
  {
    forall p, k :: start <= p < |trace| && trace[p] == Arrived(Changed(k)) && Rereads(cfg, k) ==>
      AskedFor(trace, p, k) || k in pending
  }

  // Every listed key that is re-read was asked for, or is still in the list.
  ghost predicate StillListed(cfg: Config, listed: seq<u16>, trace: seq<Traffic>, start: nat, pending: seq<u16>)
  {
    forall k :: k in listed && Rereads(cfg, k) ==> k in pending || AskedFor(trace, start, k)
  }

  // The traffic of one turn of the drain.
  function Turn(cfg: Config, k: u16, ms: seq<Message>): (t: seq<Traffic>)
  {
    if Rereads(cfg, k) then [Sent(Incoming.Get(k))] + Arrivals(ms[..Consumed(ms)]) else []
  }

  // After a turn on key k the list holds every other key it held, and every key
  // of a CHANGED frame the turn met.
  predicate Keeps(cfg: Config, was: seq<u16>, k: u16, ms: seq<Message>, pending: seq<u16>)
  {
    && (forall x :: x in was && x != k ==> x in pending)
    && (forall j :: 0 <= j < |Turn(cfg, k, ms)| ==>
          var t := Turn(cfg, k, ms)[j]; t.Arrived? && t.message.Changed? ==> t.message.keyref in pending)
  }

  // What reading the newest pending key does to the list.
  lemma ReadTurn(cfg: Config, c: Client, ms: seq<Message>)
    requires c.pc.Draining? && c.pending != [] && Rereads(cfg, c.pending[|c.pending| - 1])
    ensures var k, asked := c.pending[|c.pending| - 1], Drain(cfg, c);
      Answered(asked, ms).pc.Draining? ==>
        && Keeps(cfg, c.pending, k, ms, Answered(asked, ms).pending)
        && (|| ChangedCount(ms[Consumed(ms)..]) < ChangedCount(ms)
            || (ChangedCount(ms[Consumed(ms)..]) == ChangedCount(ms) && |Answered(asked, ms).pending| < |c.pending|))
  {
    var k, rest, asked := c.pending[|c.pending| - 1], c.pending[..|c.pending| - 1], Drain(cfg, c);
    if Answered(asked, ms).pc.Draining? {
      AnsweredDrains(cfg, c, ms);
      assert c.pending == rest + [k];
      var pending := Answered(asked, ms).pending;
      assert pending == EnqueueAll(rest, Waited(ms));
      TurnIsCollected(cfg, k, ms, rest);
    }
  }

  lemma TurnIsCollected(cfg: Config, k: u16, ms: seq<Message>, rest: seq<u16>)
    requires Rereads(cfg, k)
    ensures forall x :: x in rest ==> x in EnqueueAll(rest, Waited(ms))
    ensures forall j :: 0 <= j < |Turn(cfg, k, ms)| ==>
      var t := Turn(cfg, k, ms)[j]; t.Arrived? && t.message.Changed? ==> t.message.keyref in EnqueueAll(rest, Waited(ms))
  {
    var turn, n := Turn(cfg, k, ms), Leading(ms);
    HoldsBoth(rest, Waited(ms));
    HoldsBoth([], Refs(ms[..n]));
    RefsHoldKeyrefs(ms[..n]);
    LeadingAreChanged(ms);
    forall j | 0 <= j < |turn| && turn[j].Arrived? && turn[j].message.Changed?
      ensures turn[j].message.keyref in Waited(ms)
    {
      ArrivalsAt(ms[..Consumed(ms)], j - 1);
      assert turn[j].message == ms[j - 1];
      assert ms[..n][j - 1] == ms[j - 1];
    }
  }

  lemma {:induction false} HoldsBoth(list: seq<u16>, ks: seq<u16>)
    ensures forall k :: k in EnqueueAll(list, ks) <==> k in list || k in ks
    decreases ks
  {
    if ks != [] {
      HoldsBoth(Enqueue(list, ks[0]), ks[1..]);
      assert forall k :: k in ks <==> k == ks[0] || k in ks[1..];
    }
  }

  lemma AskedForGrows(trace: seq<Traffic>, more: seq<Traffic>, from: nat, k: u16)
    requires AskedFor(trace, from, k)
    ensures AskedFor(trace + more, from, k)
  {
    var q :| from <= q < |trace| && trace[q] == Sent(Incoming.Get(k));
    assert (trace + more)[q] == Sent(Incoming.Get(k));
  }

  // One turn of the drain leaves every CHANGED frame followed.
  lemma FollowedTurn(cfg: Config, trace: seq<Traffic>, start: nat, was: seq<u16>, ms: seq<Message>, pending: seq<u16>)
    requires start <= |trace| && was != [] && Followed(cfg, trace, start, was)
    requires Keeps(cfg, was, was[|was| - 1], ms, pending)
    ensures Followed(cfg, trace + Turn(cfg, was[|was| - 1], ms), start, pending)
  {
    var k, turn := was[|was| - 1], Turn(cfg, was[|was| - 1], ms);
    var all := trace + turn;
    forall p, x | start <= p < |all| && all[p] == Arrived(Changed(x)) && Rereads(cfg, x)
      ensures AskedFor(all, p, x) || x in pending
    {
      if p < |trace| {
        assert trace[p] == all[p];
        if AskedFor(trace, p, x) {
          AskedForGrows(trace, turn, p, x);
        } else if x == k {
          assert all[|trace|] == Sent(Incoming.Get(k));
        }
      } else {
        assert all[p] == turn[p - |trace|];
      }
    }
  }

  lemma ListedTurn(cfg: Config, listed: seq<u16>, trace: seq<Traffic>, start: nat, was: seq<u16>, ms: seq<Message>,
                   pending: seq<u16>)
    requires start <= |trace| && was != [] && StillListed(cfg, listed, trace, start, was)
    requires Keeps(cfg, was, was[|was| - 1], ms, pending)
    ensures StillListed(cfg, listed, trace + Turn(cfg, was[|was| - 1], ms), start, pending)
  {
    var k, turn := was[|was| - 1], Turn(cfg, was[|was| - 1], ms);
    forall x | x in listed && Rereads(cfg, x) && x !in pending
      ensures AskedFor(trace + turn, start, x)
    {
      if AskedFor(trace, start, x) {
        AskedForGrows(trace, turn, start, x);
      } else {
        assert (trace + turn)[|trace|] == Sent(Incoming.Get(x));
      }
    }
  }

  // `incoming` is what the node will yet send; `trace` is the traffic so far.
  class Connection {
    var incoming: seq<Message>
    var trace: seq<Traffic>
    var pending: seq<u16>
    var mirror: map<u16, Value>

    constructor (incoming: seq<Message>)
      ensures this.incoming == incoming && trace == [] && pending == [] && mirror == map[]
    {
      this.incoming, trace, pending, mirror := incoming, [], [], map[];
    }

    ghost function AsClient(pc: Pc): (c: Client)
      reads this
    {
      Client(pc, pending, [], mirror, {})
    }

    // The state is the one the state machine reached, up to its record of what
    // was thrown away.
    ghost predicate Is(c: Client)
      reads this
    {
      pending == c.pending && mirror == c.mirror
    }

    // Takes messages up to the first that is not CHANGED. None means that the
    // wait ran out.
    method Collect() returns (changed: seq<u16>, reply: Option<Message>)
      modifies this`incoming, this`trace
      ensures var ms := old(incoming);
        && changed == Waited(ms) && reply == ReplyOf(ms)
        && incoming == ms[Consumed(ms)..]
        && trace == old(trace) + Arrivals(ms[..Consumed(ms)])
    {
      ghost var ms, n, before := incoming, 0, trace;
      changed := [];
      while incoming != []
        invariant n <= |ms| && incoming == ms[n..]
        invariant forall j :: 0 <= j < n ==> ms[j].Changed?
        invariant changed == EnqueueAll([], Refs(ms[..n])) && Distinct(changed)
        invariant trace == before + Arrivals(ms[..n])
        decreases |incoming|
      {
        var m := incoming[0];
        CollectStep(ms, n);
        Assoc(before, Arrivals(ms[..n]), [Arrived(m)]);
        incoming, trace := incoming[1..], trace + [Arrived(m)];
        if !m.Changed? {
          return changed, Some(m);
        }
        changed := EnqueueChangedKey(changed, m.keyref);
        n := n + 1;
      }
      LeadingOf(ms, n);
      reply := None;
    }

    method Send(request: Incoming)
      modifies this`trace
      ensures trace == old(trace) + [Sent(request)]
    {
      trace := trace + [Sent(request)];
    }

    // Observes a row; false ends the connection.
    method ObserveKey(row: u16) returns (ok: bool)
      requires Distinct(pending)
      modifies this
      ensures var ms := old(incoming); var end := Answered(old(AsClient(AwaitObserve(row))), ms);
        && (ok <==> end.pc == Reading(row)) && (ok ==> Is(end) && Distinct(pending))
        && (ok <==> ReplyOf(ms) == Some(Ordinarily(Okay))) && mirror == old(mirror)
        && incoming == ms[Consumed(ms)..]
        && trace == old(trace) + [Sent(Incoming.Observe(row))] + Arrivals(ms[..Consumed(ms)])
    {
      Send(Incoming.Observe(row));
      var changed, reply := Collect();
      ok := reply == Some(Ordinarily(Okay));
      if ok {
        pending := EnqueueChangedKeys(pending, changed);
      }
    }

    // Reads one key for the drain; false ends the connection. What arrives is
    // shown.
    method ReadKey(k: u16) returns (ok: bool)
      requires Distinct(pending)
      modifies this
      ensures var reply := ReplyOf(old(incoming));
        && (ok <==> exists v :: reply == Some(Ordinarily(Current(v))))
        && mirror == if ok then old(mirror)[k := reply.value.response.value] else old(mirror)
      ensures var ms := old(incoming); var end := Answered(old(AsClient(AwaitDrain(k))), ms);
        && (ok <==> end.pc.Draining?) && (ok ==> Is(end) && Distinct(pending))
        && incoming == ms[Consumed(ms)..]
        && trace == old(trace) + ([Sent(Incoming.Get(k))] + Arrivals(ms[..Consumed(ms)]))
    {
      AnsweredRead(AsClient(AwaitDrain(k)), k, incoming);
      Send(Incoming.Get(k));
      Assoc(old(trace), [Sent(Incoming.Get(k))], Arrivals(incoming[..Consumed(incoming)]));
      var changed, reply := Collect();
      ok := reply.Some? && reply.value.Ordinarily? && reply.value.response.Current?;
      if ok {
        pending := EnqueueChangedKeys(pending, changed);
        mirror := mirror[k := reply.value.response.value];
        assert reply == Some(Ordinarily(Current(reply.value.response.value)));
      }
    }

    // Writes a key; false ends the connection. A value that cannot be encoded is
    // not sent. The value of the WRITTEN is shown; on an ERROR the collected
    // keyrefs are thrown away.
    method WriteKey(k: u16, w: WireValue) returns (ok: bool)
      requires Distinct(pending)
      modifies this
      ensures Framed(Incoming.Write(k, w)) ==>
        match ReplyOf(old(incoming))
        case Some(Ordinarily(Written(v))) => ok && mirror == old(mirror)[k := v]
        case Some(Failed(_)) => ok && mirror == old(mirror) && pending == old(pending)
        case _ => !ok && mirror == old(mirror)
      ensures !Framed(Incoming.Write(k, w)) ==> !ok && incoming == old(incoming) && trace == old(trace)
      ensures Framed(Incoming.Write(k, w)) ==> var ms := old(incoming); var end := Answered(old(AsClient(AwaitWritten(k, w))), ms);
        && (ok <==> end.pc.Commands?) && (ok ==> Is(end) && Distinct(pending))
        && incoming == ms[Consumed(ms)..]
        && trace == old(trace) + [Sent(Incoming.Write(k, w))] + Arrivals(ms[..Consumed(ms)])
    {
      if !Framed(Incoming.Write(k, w)) {
        return false;
      }
      Send(Incoming.Write(k, w));
      var changed, reply := Collect();
      if reply.Some? && reply.value.Ordinarily? && reply.value.response.Written? {
        pending := EnqueueChangedKeys(pending, changed);
        mirror := mirror[k := reply.value.response.value];
        ok := true;
      } else {
        ok := reply.Some? && reply.value.Failed?;
      }
    }

    // Takes the newest pending keyref and re-reads it; false ends the
    // connection.
    method DrainOne(cfg: Config) returns (ok: bool)
      requires Distinct(pending) && pending != []
      modifies this
      ensures var ms, end := old(incoming), Drained(cfg, old(AsClient(Draining)), old(incoming));
        && (ok ==> Drained(cfg, AsClient(Draining), incoming) == end && Distinct(pending))
        && (!ok ==> !end.0.pc.Listening?)
        && (ok ==> ChangedCount(incoming) < ChangedCount(ms)
                   || (ChangedCount(incoming) == ChangedCount(ms) && |pending| < old(|pending|)))
      ensures var k := old(pending)[old(|pending|) - 1];
        && trace == old(trace) + Turn(cfg, k, old(incoming))
        && (ok ==> Keeps(cfg, old(pending), k, old(incoming), pending))
    {
      DrainedTurn(cfg, AsClient(Draining), incoming);
      if Rereads(cfg, pending[|pending| - 1]) {
        ok := DrainRead(cfg);
      } else {
        DrainSkip(cfg);
        ok := true;
      }
    }

    // The newest pending key is one to read.
    method DrainRead(cfg: Config) returns (ok: bool)
      requires Distinct(pending) && pending != [] && Rereads(cfg, pending[|pending| - 1])
      modifies this
      ensures var c, ms := old(AsClient(Draining)), old(incoming); var end := Answered(Drain(cfg, c), ms);
        && (ok <==> end.pc.Draining?) && (ok ==> Is(end) && Distinct(pending))
        && incoming == ms[Consumed(ms)..]
        && (ok ==> ChangedCount(incoming) < ChangedCount(ms)
                   || (ChangedCount(incoming) == ChangedCount(ms) && |pending| < |c.pending|))
        && trace == old(trace) + Turn(cfg, c.pending[|c.pending| - 1], ms)
        && (ok ==> Keeps(cfg, c.pending, c.pending[|c.pending| - 1], ms, pending))
    {
      ReadTurn(cfg, AsClient(Draining), incoming);
      var k := pending[|pending| - 1];
      pending := pending[..|pending| - 1];
      ok := ReadKey(k);
    }

    // The newest pending key is unknown, or cannot be read.
    method DrainSkip(cfg: Config)
      requires Distinct(pending) && pending != [] && !Rereads(cfg, pending[|pending| - 1])
      modifies this`pending, this`mirror
      ensures var k, rest := old(pending)[old(|pending|) - 1], old(pending)[..old(|pending|) - 1];
        && pending == rest && Distinct(pending) && Keeps(cfg, old(pending), k, incoming, rest)
        && mirror == if k < KeyCount(cfg.keys) then old(mirror) - {k} else old(mirror)
    {
      var k := pending[|pending| - 1];
      pending := pending[..|pending| - 1];
      assert old(pending) == pending + [k];
      if k < KeyCount(cfg.keys) {
        mirror := mirror - {k};
      }
    }

    // Works the pending keyrefs off, newest first. It ends on every stream with
    // finitely many CHANGED frames left, does what the worker's state machine
    // does, and leaves no CHANGED frame it met without a later read.
    method DrainChangedKeys(cfg: Config) returns (ok: bool)
      requires Distinct(pending)
      modifies this
      ensures var end := Drained(cfg, old(AsClient(Draining)), old(incoming));
        (ok <==> end.0.pc.Listening?) && (ok ==> Is(end.0) && incoming == end.1)
      ensures ok ==> pending == []
      ensures old(trace) <= trace
      ensures ok ==> Followed(cfg, trace, |old(trace)|, [])
      ensures ok ==> StillListed(cfg, old(pending), trace, |old(trace)|, [])
    {
      ghost var before, listed, end := trace, pending, Drained(cfg, AsClient(Draining), incoming);
      while pending != []
        invariant Distinct(pending)
        invariant Drained(cfg, AsClient(Draining), incoming) == end
        invariant before <= trace
        invariant Followed(cfg, trace, |before|, pending)
        invariant StillListed(cfg, listed, trace, |before|, pending)
        decreases ChangedCount(incoming), |pending|
      {
        ghost var was, soFar, ms := pending, trace, incoming;
        ok := DrainOne(cfg);
        if !ok {
          return;
        }
        FollowedTurn(cfg, soFar, |before|, was, ms, pending);
        ListedTurn(cfg, listed, soFar, |before|, was, ms, pending);
      }
      ok := true;
    }
  }
}
