// A local task that waits for the next update of a key while other tasks set
// it. Storing, counting and signalling are separate steps.
module NextWaiter {
  import opened Bytes
  import opened Messages
  import opened Node
  import opened NodeInvariant

  // `at` is the position of the task's store among all stores.
  datatype Setter = Resting | HasStored(at: nat) | HasCounted

  // `since` is the number of updates counted when the generation was noted.
  datatype Waiter =
    | Away
    | Blocked(noted: nat, since: nat)
    | Roused(noted: nat, since: nat)
    | Fetching(since: nat)
    | Returned(value: Value, at: nat, since: nat)

  // `stores` holds every value ever stored, the current one last; `counted`
  // names, for every update counted, its store.
  datatype Cell = Cell(
    stores: seq<Value>,
    counted: seq<nat>,
    gen: nat,
    signal: bool,
    setters: seq<Setter>,
    waiter: Waiter)

  datatype Act =
    | Put(task: nat, value: Value)
    | Count(task: nat)
    | Raise(task: nat)
    | Call
    | Wake
    | Check
    | Fetch
    | Cancel

  predicate Created(c: Cell)
  {
    && |c.stores| == 1 && c.counted == [] && c.gen == 0 && !c.signal && c.waiter == Away
    && forall t :: 0 <= t < |c.setters| ==> c.setters[t] == Resting
  }

  predicate Can(c: Cell, act: Act)
  {
    match act
    case Put(task, _) => task < |c.setters| && c.setters[task].Resting?
    case Count(task) => task < |c.setters| && c.setters[task].HasStored?
    case Raise(task) => task < |c.setters| && c.setters[task].HasCounted?
    case Call => c.waiter.Away? || c.waiter.Returned?
    case Wake => c.waiter.Blocked? && c.signal
    case Check => c.waiter.Roused?
    case Fetch => c.waiter.Fetching? && c.stores != []
    case Cancel => true
  }

  function Do(c: Cell, act: Act): (r: Cell)
    requires Can(c, act)
  {
    match act
    case Put(task, value) => c.(stores := c.stores + [value], setters := c.setters[task := HasStored(|c.stores|)])
    case Count(task) =>
      c.(counted := c.counted + [c.setters[task].at], gen := (c.gen + 1) % GENERATIONS,
         setters := c.setters[task := HasCounted])
    case Raise(task) => c.(signal := true, setters := c.setters[task := Resting])
    case Call => c.(waiter := Blocked(c.gen, |c.counted|))
    case Wake => c.(signal := false, waiter := Roused(c.waiter.noted, c.waiter.since))
    case Check =>
      if c.gen != c.waiter.noted then c.(waiter := Fetching(c.waiter.since))
      else c.(waiter := Blocked(c.waiter.noted, c.waiter.since))
    case Fetch => c.(waiter := Returned(c.stores[|c.stores| - 1], |c.stores| - 1, c.waiter.since))
    case Cancel => c.(waiter := Away)
  }

  ghost predicate IsHistory(c: Cell, acts: seq<Act>)
    decreases |acts|
  {
    acts != [] ==> Can(c, acts[0]) && IsHistory(Do(c, acts[0]), acts[1..])
  }

  ghost function Done(c: Cell, acts: seq<Act>): (r: Cell)
    requires IsHistory(c, acts)
    decreases |acts|
  {
    if acts == [] then c else Done(Do(c, acts[0]), acts[1..])
  }

  // ---- The invariant ----

  predicate SomeoneWillRaise(c: Cell)
  {
    exists t :: 0 <= t < |c.setters| && c.setters[t] == HasCounted
  }

  predicate WaiterOk(c: Cell)
  {
    match c.waiter
    case Away => true
    case Blocked(noted, since) =>
      noted == since % GENERATIONS && since <= |c.counted| && (c.gen != noted ==> c.signal || SomeoneWillRaise(c))
    case Roused(noted, since) => noted == since % GENERATIONS && since <= |c.counted|
    case Fetching(since) => since < |c.counted|
    case Returned(value, at, since) =>
      since < |c.counted| && c.counted[since] <= at < |c.stores| && c.stores[at] == value
  }

  predicate CellOk(c: Cell)
  {
    && c.stores != []
    && c.gen == |c.counted| % GENERATIONS
    && (forall b :: 0 <= b < |c.counted| ==> c.counted[b] < |c.stores|)
    && (forall t :: 0 <= t < |c.setters| && c.setters[t].HasStored? ==> c.setters[t].at < |c.stores|)
    && WaiterOk(c)
  }

  lemma OkStep(c: Cell, act: Act)
    requires CellOk(c) && Can(c, act)
    ensures CellOk(Do(c, act))
  {
    var r := Do(c, act);
    if (act.Put? || act.Count? || act.Raise?) && c.waiter.Blocked? && r.gen != c.waiter.noted {
      if act.Count? {
        assert r.setters[act.task] == HasCounted;
      } else if SomeoneWillRaise(c) && !act.Raise? {
        var t :| 0 <= t < |c.setters| && c.setters[t] == HasCounted;
        assert r.setters[t] == HasCounted;
      }
    }
  }

  lemma {:induction false} OkOverHistories(c: Cell, acts: seq<Act>)
    requires CellOk(c) && IsHistory(c, acts)
    ensures CellOk(Done(c, acts))
    decreases |acts|
  {
    if acts != [] {
      OkStep(c, acts[0]);
      OkOverHistories(Do(c, acts[0]), acts[1..]);
    }
  }

  // ---- What a call returns ----

  // The value put last, or the one the key was created with.
  function LastPut(created: Value, acts: seq<Act>): (v: Value)
    decreases acts
  {
    if acts == [] then created
    else LastPut(if acts[0].Put? then acts[0].value else created, acts[1..])
  }

  lemma {:induction false} StoredIsLastPut(c: Cell, acts: seq<Act>)
    requires CellOk(c) && IsHistory(c, acts)
    ensures Done(c, acts).stores != []
    ensures Done(c, acts).stores[|Done(c, acts).stores| - 1] == LastPut(c.stores[|c.stores| - 1], acts)
    decreases |acts|
  {
    if acts != [] {
      OkStep(c, acts[0]);
      StoredIsLastPut(Do(c, acts[0]), acts[1..]);
    }
  }

  lemma {:induction false} LastAct(c: Cell, acts: seq<Act>)
    requires acts != [] && IsHistory(c, acts)
    ensures var init, last := acts[..|acts| - 1], acts[|acts| - 1];
      IsHistory(c, init) && Can(Done(c, init), last) && Done(c, acts) == Do(Done(c, init), last)
    decreases |acts|
  {
    if |acts| > 1 {
      LastAct(Do(c, acts[0]), acts[1..]);
      assert acts[1..][..|acts| - 2] == acts[..|acts| - 1][1..];
    }
  }

  // The updates counted since the latest call.
  function CountsSinceCall(acts: seq<Act>): (n: nat)
  {
    if acts == [] || acts[|acts| - 1].Call? then 0
    else CountsSinceCall(acts[..|acts| - 1]) + (if acts[|acts| - 1].Count? then 1 else 0)
  }

  lemma {:induction false} SinceIsTheCall(c0: Cell, acts: seq<Act>)
    requires Created(c0) && IsHistory(c0, acts)
    ensures var c := Done(c0, acts);
      !c.waiter.Away? ==> |c.counted| - c.waiter.since == CountsSinceCall(acts)
    decreases |acts|
  {
    if acts != [] {
      LastAct(c0, acts);
      SinceIsTheCall(c0, acts[..|acts| - 1]);
    }
  }

  // A call that returns has met an update counted since it began. It returns
  // the value that was put last, whichever task put it and whether that update
  // has been counted yet: no update counted so far has a later one.
  lemma ReturnsTheStoredValue(c0: Cell, acts: seq<Act>)
    requires Created(c0) && acts != [] && acts[|acts| - 1] == Fetch && IsHistory(c0, acts)
    ensures var c := Done(c0, acts);
      && c.waiter.Returned?
      && c.waiter.value == LastPut(c0.stores[0], acts)
      && c.waiter.at == |c.stores| - 1
      && forall b :: 0 <= b < |c.counted| ==> c.counted[b] <= c.waiter.at
    ensures CountsSinceCall(acts) > 0
  {
    OkOverHistories(c0, acts);
    LastAct(c0, acts);
    StoredIsLastPut(c0, acts);
    SinceIsTheCall(c0, acts);
  }

  // A signal rouses the waiter once: it is never roused more often than a task
  // has signalled.
  function Rousings(acts: seq<Act>): (n: nat)
  {
    if acts == [] then 0 else Rousings(acts[..|acts| - 1]) + (if acts[|acts| - 1].Wake? then 1 else 0)
  }

  function Raisings(acts: seq<Act>): (n: nat)
  {
    if acts == [] then 0 else Raisings(acts[..|acts| - 1]) + (if acts[|acts| - 1].Raise? then 1 else 0)
  }

  lemma {:induction false} RousedOncePerSignal(c0: Cell, acts: seq<Act>)
    requires Created(c0) && IsHistory(c0, acts)
    ensures Rousings(acts) + (if Done(c0, acts).signal then 1 else 0) <= Raisings(acts)
    decreases |acts|
  {
    if acts != [] {
      LastAct(c0, acts);
      RousedOncePerSignal(c0, acts[..|acts| - 1]);
    }
  }

  // Once every update counted since the call has also signalled, the waiter
  // stays blocked without a signal only if their number is a multiple of 2^32:
  // none, or a whole wrap of the generation.
  lemma BlockedOnlyOnWrap(c0: Cell, acts: seq<Act>)
    requires Created(c0) && IsHistory(c0, acts)
    requires var c := Done(c0, acts); c.waiter.Blocked? && !c.signal && !SomeoneWillRaise(c)
    ensures var c := Done(c0, acts);
      && c.waiter.since <= |c.counted|
      && (|c.counted| - c.waiter.since) % GENERATIONS == 0
      && (|c.counted| - c.waiter.since < GENERATIONS ==> |c.counted| == c.waiter.since)
  {
    OkOverHistories(c0, acts);
    var c := Done(c0, acts);
    SameGeneration(|c.counted|, c.waiter.since);
  }

  // The acts that bring a blocked waiter home.
  function Homeward(c: Cell, task: nat): (acts: seq<Act>)
  {
    if c.signal then [Wake, Check, Fetch] else [Raise(task), Wake, Check, Fetch]
  }

  // In every reachable state a waiter with new updates, not a multiple of 2^32,
  // is at most four acts from returning, and needs nothing new to be set.
  lemma NeverStuck(c0: Cell, acts: seq<Act>)
    requires Created(c0) && IsHistory(c0, acts) && Done(c0, acts).waiter.Blocked?
    requires var c := Done(c0, acts);
      c.waiter.since <= |c.counted| ==> (|c.counted| - c.waiter.since) % GENERATIONS != 0
    ensures var c := Done(c0, acts);
      exists task: nat :: IsHistory(c, Homeward(c, task)) && Done(c, Homeward(c, task)).waiter.Returned?
  {
    OkOverHistories(c0, acts);
    var c := Done(c0, acts);
    SameGeneration(|c.counted|, c.waiter.since);
    if c.signal {
      ReturnsSoon(c);
      assert Homeward(c, 0) == [Wake, Check, Fetch];
    } else {
      var t: nat :| t < |c.setters| && c.setters[t] == HasCounted;
      var d := Do(c, Raise(t));
      OkStep(c, Raise(t));
      ReturnsSoon(d);
      assert Homeward(c, t)[1..] == [Wake, Check, Fetch];
      assert IsHistory(c, Homeward(c, t));
    }
  }

  lemma ReturnsSoon(c: Cell)
    requires CellOk(c) && c.waiter.Blocked? && c.signal && c.gen != c.waiter.noted
    ensures IsHistory(c, [Wake, Check, Fetch]) && Done(c, [Wake, Check, Fetch]).waiter.Returned?
  {
    var d := Do(c, Wake);
    var e := Do(d, Check);
    assert [Wake, Check, Fetch][1..] == [Check, Fetch];
    assert [Check, Fetch][1..] == [Fetch];
    assert [Fetch][1..] == [];
    assert Done(e, [Fetch]) == Do(e, Fetch);
    assert Done(d, [Check, Fetch]) == Done(e, [Fetch]);
  }

  // ---- Exactly when a waiter returns ----

  // Acts that count no further update and leave the call alone.
  predicate Idles(act: Act)
  {
    !act.Count? && !act.Call? && !act.Cancel?
  }

  ghost predicate AllIdle(acts: seq<Act>)
  {
    forall j :: 0 <= j < |acts| ==> Idles(acts[j])
  }

  predicate InCall(c: Cell)
  {
    c.waiter.Blocked? || c.waiter.Roused?
  }

  // The updates counted since the call noted the generation.
  function Missed(c: Cell): (n: int)
    requires InCall(c)
  {
    |c.counted| - c.waiter.since
  }

  // A multiple of 2^32 updates is no update to the waiter: no history without
  // another one lets it return.
  lemma {:induction false} WrapKeepsWaiting(c: Cell, acts: seq<Act>)
    requires CellOk(c) && InCall(c) && Missed(c) % GENERATIONS == 0
    requires IsHistory(c, acts) && AllIdle(acts)
    ensures InCall(Done(c, acts))
    decreases |acts|
  {
    if acts != [] {
      assert Idles(acts[0]);
      SameGeneration(|c.counted|, c.waiter.since);
      OkStep(c, acts[0]);
      assert forall j :: 0 <= j < |acts[1..]| ==> acts[1..][j] == acts[j + 1];
      WrapKeepsWaiting(Do(c, acts[0]), acts[1..]);
    }
  }

  // In every reachable state a waiter inside its call can return without a
  // further update if and only if the number it has missed is not a multiple of
  // 2^32.
  lemma ReturnsExactlyOffWrap(c0: Cell, acts: seq<Act>)
    requires Created(c0) && IsHistory(c0, acts) && InCall(Done(c0, acts))
    ensures var c := Done(c0, acts);
      (exists more :: IsHistory(c, more) && AllIdle(more) && Done(c, more).waiter.Returned?)
        <==> Missed(c) % GENERATIONS != 0
  {
    OkOverHistories(c0, acts);
    var c := Done(c0, acts);
    SameGeneration(|c.counted|, c.waiter.since);
    if Missed(c) % GENERATIONS == 0 {
      forall more | IsHistory(c, more) && AllIdle(more)
        ensures !Done(c, more).waiter.Returned?
      {
        WrapKeepsWaiting(c, more);
      }
    } else if c.waiter.Blocked? {
      NeverStuck(c0, acts);
      var task: nat :| IsHistory(c, Homeward(c, task)) && Done(c, Homeward(c, task)).waiter.Returned?;
      assert AllIdle(Homeward(c, task));
    } else {
      RousedReturns(c);
    }
  }

  lemma RousedReturns(c: Cell)
    requires CellOk(c) && c.waiter.Roused? && c.gen != c.waiter.noted
    ensures IsHistory(c, [Check, Fetch]) && AllIdle([Check, Fetch]) && Done(c, [Check, Fetch]).waiter.Returned?
  {
    assert [Check, Fetch][1..] == [Fetch] && [Fetch][1..] == [];
    assert Done(Do(c, Check), [Fetch]) == Do(Do(c, Check), Fetch);
  }

  // ---- The wrap ----

  function Updates(n: nat, v: Value): (acts: seq<Act>)
  {
    if n == 0 then [] else [Put(0, v), Count(0), Raise(0)] + Updates(n - 1, v)
  }

  // One task's updates while the waiter does nothing.
  lemma {:induction false} UpdatesRun(c: Cell, n: nat, v: Value)
    requires CellOk(c) && c.waiter.Blocked? && c.setters == [Resting]
    ensures IsHistory(c, Updates(n, v))
    ensures var d := Done(c, Updates(n, v));
      && CellOk(d) && d.waiter == c.waiter && d.setters == [Resting]
      && |d.counted| == |c.counted| + n && (n > 0 ==> d.signal)
    decreases n
  {
    if n > 0 {
      var c1 := Do(c, Put(0, v));
      var c2 := Do(c1, Count(0));
      var c3 := Do(c2, Raise(0));
      OkStep(c, Put(0, v));
      OkStep(c1, Count(0));
      OkStep(c2, Raise(0));
      assert c3.setters == [Resting];
      UpdatesRun(c3, n - 1, v);
      var acts := Updates(n, v);
      assert acts[0] == Put(0, v) && acts[1..][0] == Count(0) && acts[1..][1..][0] == Raise(0);
      assert acts[1..][1..][1..] == Updates(n - 1, v);
      assert IsHistory(c2, acts[1..][1..]) && Done(c2, acts[1..][1..]) == Done(c3, Updates(n - 1, v));
      assert IsHistory(c1, acts[1..]) && Done(c1, acts[1..]) == Done(c2, acts[1..][1..]);
    }
  }

  lemma {:induction false} HistoriesChain(c: Cell, xs: seq<Act>, ys: seq<Act>)
    requires IsHistory(c, xs) && IsHistory(Done(c, xs), ys)
    ensures IsHistory(c, xs + ys) && Done(c, xs + ys) == Done(Done(c, xs), ys)
    decreases |xs|
  {
    if xs == [] {
      assert xs + ys == ys;
    } else {
      assert (xs + ys)[1..] == xs[1..] + ys;
      HistoriesChain(Do(c, xs[0]), xs[1..], ys);
    }
  }

  predicate MissedAWrap(c: Cell)
  {
    c.waiter == Blocked(0, 0) && |c.counted| == GENERATIONS && !c.signal && !SomeoneWillRaise(c)
  }

  // Exactly 2^32 updates during a call leave the waiter blocked: it is woken,
  // finds the generation it noted, and waits again.
  lemma AWholeWrapIsMissed(c0: Cell, v: Value)
    requires Created(c0) && c0.setters == [Resting]
    ensures exists acts :: IsHistory(c0, acts) && MissedAWrap(Done(c0, acts))
  {
    var c1 := Do(c0, Call);
    OkStep(c0, Call);
    UpdatesRun(c1, GENERATIONS, v);
    var c2 := Done(c1, Updates(GENERATIONS, v));
    assert c2.gen == 0;
    assert [Wake, Check][1..] == [Check] && [Check][1..] == [];
    assert Done(c2, [Wake, Check]) == Do(Do(c2, Wake), Check) by {
      assert Done(Do(c2, Wake), [Check]) == Do(Do(c2, Wake), Check);
    }
    HistoriesChain(c1, Updates(GENERATIONS, v), [Wake, Check]);
    assert [Call][1..] == [];
    HistoriesChain(c0, [Call], Updates(GENERATIONS, v) + [Wake, Check]);
  }
}
