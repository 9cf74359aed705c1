// The CAPS grammar: request/response pairs and an optional final `!`.
module Caps {
  import opened Bytes
  import opened Errors
  import opened Opcodes

  datatype Pair = Pair(request: byte, response: byte)

  // A known request must carry its defined response; an unknown one only has
  // to be of the right classes.
  predicate PairOk(p: Pair)
  {
    && Class(p.request) == RequestClass
    && Class(p.response) == OrdinaryResponseClass
    && (ExpectedOrdinaryResponse(p.request).Some? ==> ExpectedOrdinaryResponse(p.request).value == p.response)
  }

  predicate Agree(ps: seq<Pair>)
  {
    forall i, j :: 0 <= i < j < |ps| && ps[i].request == ps[j].request ==> ps[i].response == ps[j].response
  }

  predicate AllOk(ps: seq<Pair>)
  {
    forall i :: 0 <= i < |ps| ==> PairOk(ps[i])
  }

  // The string that advertises `ps`, with the change marker if `bang`.
  function Render(ps: seq<Pair>, bang: bool): (s: seq<byte>)
    ensures |s| == 2 * |ps| + (if bang then 1 else 0)
  {
    if ps == [] then (if bang then [CHANGED] else [])
    else [ps[0].request, ps[0].response] + Render(ps[1..], bang)
  }

  // The grammar as the protocol states it.
  ghost predicate IsCaps(s: seq<byte>)
  {
    exists ps: seq<Pair>, bang: bool :: AllOk(ps) && Agree(ps) && Render(ps, bang) == s
  }

  predicate SupportsChanged(s: seq<byte>)
  {
    s != [] && s[|s| - 1] == CHANGED
  }

  // The pairs at the even positions of `s`.
  function Pairs(s: seq<byte>): (ps: seq<Pair>)
    ensures |ps| == |s| / 2
  {
    if |s| < 2 then [] else [Pair(s[0], s[1])] + Pairs(s[2..])
  }

  lemma {:induction false} PairAt(s: seq<byte>, i: nat)
    requires 2 * i + 1 < |s|
    ensures Pairs(s)[i] == Pair(s[2 * i], s[2 * i + 1])
  {
    if i > 0 {
      PairAt(s[2..], i - 1);
    }
  }

  // The same language, by position.
  predicate CapsOk(s: seq<byte>)
  {
    && |s| % 2 == (if SupportsChanged(s) then 1 else 0)
    && AllOk(Pairs(s))
    && Agree(Pairs(s))
  }

  lemma {:induction false} RenderPairs(s: seq<byte>)
    requires |s| % 2 == (if SupportsChanged(s) then 1 else 0)
    ensures Render(Pairs(s), SupportsChanged(s)) == s
  {
    if |s| >= 2 {
      RenderPairs(s[2..]);
    }
  }

  lemma {:induction false} PairsOfRender(ps: seq<Pair>, bang: bool)
    requires AllOk(ps)
    ensures Pairs(Render(ps, bang)) == ps
    ensures SupportsChanged(Render(ps, bang)) == bang
  {
    if ps != [] {
      var s, rest := Render(ps, bang), Render(ps[1..], bang);
      PairsOfRender(ps[1..], bang);
      assert s[0] == ps[0].request && s[1] == ps[0].response && s[2..] == rest;
      assert ps == [ps[0]] + ps[1..];
      MarkerBehindPair(ps[0], rest);
    }
  }

  lemma MarkerBehindPair(p: Pair, rest: seq<byte>)
    requires PairOk(p)
    ensures SupportsChanged([p.request, p.response] + rest) == SupportsChanged(rest)
  {
    NotTheMarker(p.response);
  }

  // Acceptance is the grammar, the pairs are recovered, and putting them back
  // together gives the raw string.
  lemma CapsIsTheGrammar(s: seq<byte>)
    ensures CapsOk(s) <==> IsCaps(s)
    ensures CapsOk(s) ==> Render(Pairs(s), SupportsChanged(s)) == s
  {
    if CapsOk(s) {
      RenderPairs(s);
    }
    forall ps: seq<Pair>, bang: bool | AllOk(ps) && Agree(ps) && Render(ps, bang) == s
      ensures CapsOk(s)
    {
      PairsOfRender(ps, bang);
    }
  }

  // A pair in bytes: an upper-case and a lower-case letter, and for the eight
  // known requests the one response.
  predicate PairInBytes(q: byte, r: byte)
  {
    && 0x41 <= q <= 0x5A && 0x61 <= r <= 0x7A
    && (q == 0x50 || q == 0x4E || q == 0x55 ==> r == 0x6B)
    && (q == 0x49 || q == 0x43 || q == 0x53 || q == 0x47 || q == 0x57 ==> r == q + 0x20)
  }

  predicate IsKnown(q: byte)
  {
    q in [0x50, 0x49, 0x43, 0x53, 0x47, 0x57, 0x4E, 0x55]
  }

  lemma PairVerdict(p: Pair)
    ensures PairOk(p) <==> PairInBytes(p.request, p.response)
    ensures EntryOf(p).pair == p && (EntryOf(p).known <==> IsKnown(p.request))
  {
  }

  predicate PairAtInBytes(s: seq<byte>, i: nat)
    requires i < |s| / 2
  {
    PairInBytes(s[2 * i], s[2 * i + 1])
  }

  predicate AgreeInBytes(s: seq<byte>, i: nat, j: nat)
    requires i < |s| / 2 && j < |s| / 2
  {
    s[2 * i] == s[2 * j] ==> s[2 * i + 1] == s[2 * j + 1]
  }

  // What is accepted, in bytes: pairs that do not contradict each other, and a
  // last byte 0x21 if the length is odd. The change marker is that byte.
  lemma CapsInBytes(s: seq<byte>)
    ensures CapsOk(s) <==>
      && (|s| % 2 == 1 ==> s[|s| - 1] == 0x21)
      && (forall i :: 0 <= i < |s| / 2 ==> PairAtInBytes(s, i))
      && (forall i, j :: 0 <= i < j < |s| / 2 ==> AgreeInBytes(s, i, j))
    ensures CapsOk(s) ==> (SupportsChanged(s) <==> |s| % 2 == 1)
  {
    var ps := Pairs(s);
    forall i {:trigger ps[i]} | 0 <= i < |ps|
      ensures ps[i] == Pair(s[2 * i], s[2 * i + 1]) && (PairOk(ps[i]) <==> PairAtInBytes(s, i))
    {
      PairAt(s, i);
      PairVerdict(ps[i]);
    }
    assert AllOk(ps) <==> forall i :: 0 <= i < |s| / 2 ==> PairAtInBytes(s, i) by {
      assert forall i {:trigger PairAtInBytes(s, i)} :: 0 <= i < |ps| ==> (PairOk(ps[i]) <==> PairAtInBytes(s, i));
    }
    assert Agree(ps) <==> forall i, j :: 0 <= i < j < |s| / 2 ==> AgreeInBytes(s, i, j) by {
      assert forall i, j :: 0 <= i < j < |ps| ==>
        (AgreeInBytes(s, i, j) <==> (ps[i].request == ps[j].request ==> ps[i].response == ps[j].response));
    }
    if |s| % 2 == 0 && s != [] && AllOk(ps) {
      assert PairAtInBytes(s, |s| / 2 - 1);
    }
  }

  // Every accepted string is ASCII, so the parser's own ASCII test never
  // decides.
  lemma CapsAreAscii(s: seq<byte>)
    requires CapsOk(s)
    ensures forall i :: 0 <= i < |s| ==> s[i] < 0x80
  {
    forall i | 0 <= i < |s|
      ensures s[i] < 0x80
    {
      if i / 2 < |s| / 2 {
        PairAt(s, i / 2);
        assert PairOk(Pairs(s)[i / 2]);
      } else {
        assert i == |s| - 1;
      }
    }
  }

  // A fault in one position rules the whole string out.
  lemma BadPairRulesOut(s: seq<byte>, i: nat)
    requires 2 * i + 1 < |s| && !PairOk(Pair(s[2 * i], s[2 * i + 1]))
    ensures !CapsOk(s)
  {
    PairAt(s, i);
  }

  // What the 26 slots remember of the pairs seen so far.
  ghost predicate Remembers(seen: seq<byte>, ps: seq<Pair>)
  {
    && |seen| == 26
    && AllOk(ps)
    && (forall i :: 0 <= i < |ps| ==> seen[ps[i].request - 0x41] == ps[i].response)
    && (forall slot :: 0 <= slot < 26 && seen[slot] != 0 ==> Pair(slot + 0x41, seen[slot]) in ps)
  }

  lemma RememberOne(seen: seq<byte>, ps: seq<Pair>, p: Pair)
    requires Remembers(seen, ps) && PairOk(p) && Agree(ps)
    ensures Agree(ps + [p]) <==> seen[p.request - 0x41] == 0 || seen[p.request - 0x41] == p.response
    ensures Agree(ps + [p]) ==> Remembers(seen[p.request - 0x41 := p.response], ps + [p])
  {
    var slot, qs := p.request - 0x41, ps + [p];
    if seen[slot] != 0 {
      var i :| 0 <= i < |ps| && ps[i] == Pair(slot + 0x41, seen[slot]);
      assert qs[i] == ps[i] && qs[|ps|] == p;
    }
    if seen[slot] == 0 || seen[slot] == p.response {
      forall i, j | 0 <= i < j < |qs| && qs[i].request == qs[j].request
        ensures qs[i].response == qs[j].response
      {
        if j == |ps| {
          assert seen[ps[i].request - 0x41] == ps[i].response;
          assert PairOk(ps[i]);
        }
      }
      var next := seen[slot := p.response];
      forall t | 0 <= t < 26 && next[t] != 0
        ensures Pair(t + 0x41, next[t]) in qs
      {
        if t == slot {
          assert qs[|ps|] == Pair(t + 0x41, next[t]);
        } else {
          assert Pair(t + 0x41, seen[t]) in ps;
        }
      }
    }
  }

  // Parses the raw string pair by pair and returns the change marker.
  method Parse(raw: seq<byte>) returns (r: Result<bool, PayloadError>)
    ensures r.Ok? <==> CapsOk(raw)
    ensures r.Ok? ==> r.value == SupportsChanged(raw)
    ensures r.Err? ==> r.error == MalformedCaps
  {
    var ascii := IsAscii(raw);
    if !ascii {
      if CapsOk(raw) {
        CapsAreAscii(raw);
      }
      return Err(MalformedCaps);
    }
    var seen := new byte[26](_ => 0);
    var index := 0;
    ghost var count := 0;
    while index < |raw| && raw[index] != CHANGED
      invariant index == 2 * count <= |raw|
      invariant Remembers(seen[..], Pairs(raw)[..count])
      invariant Agree(Pairs(raw)[..count])
    {
      if index + 1 >= |raw| {
        return Err(MalformedCaps);
      }
      var pair := Pair(raw[index], raw[index + 1]);
      var sound := CheckPair(pair);
      if !sound {
        BadPairRulesOut(raw, count);
        return Err(MalformedCaps);
      }
      PairAt(raw, count);
      assert Pairs(raw)[..count + 1] == Pairs(raw)[..count] + [pair];
      var agrees := Remember(seen, Pairs(raw)[..count], pair);
      if !agrees {
        assert !Agree(Pairs(raw)[..count + 1]);
        return Err(MalformedCaps);
      }
      index := index + 2;
      count := count + 1;
    }
    if index < |raw| && index + 1 != |raw| {
      BadPairRulesOut(raw, count);
      return Err(MalformedCaps);
    }
    assert Pairs(raw)[..count] == Pairs(raw);
    NoStrayMarker(raw, index, count);
    r := Ok(raw != [] && raw[|raw| - 1] == CHANGED);
  }

  // When the loop has read every pair, the marker is last or absent.
  lemma NoStrayMarker(raw: seq<byte>, index: nat, count: nat)
    requires index == 2 * count <= |raw| <= index + 1
    requires index < |raw| ==> raw[index] == CHANGED
    requires AllOk(Pairs(raw)[..count])
    ensures SupportsChanged(raw) <==> index < |raw|
    ensures |raw| % 2 == (if SupportsChanged(raw) then 1 else 0)
  {
    EvenAndOdd(count);
    if index == |raw| && index > 0 {
      LastResponse(raw, count);
    }
  }

  lemma EvenAndOdd(count: nat)
    ensures (2 * count) % 2 == 0 && (2 * count + 1) % 2 == 1
  {
  }

  lemma LastResponse(raw: seq<byte>, count: nat)
    requires |raw| == 2 * count && count > 0 && AllOk(Pairs(raw)[..count])
    ensures !SupportsChanged(raw)
  {
    PairAt(raw, count - 1);
    var last := Pairs(raw)[..count][count - 1];
    assert PairOk(last);
    NotTheMarker(last.response);
  }

  lemma NotTheMarker(response: byte)
    requires Class(response) == OrdinaryResponseClass
    ensures response != CHANGED
  {
  }

  method CheckPair(pair: Pair) returns (ok: bool)
    ensures ok <==> PairOk(pair)
  {
    if Class(pair.request) != RequestClass {
      return false;
    }
    if Class(pair.response) != OrdinaryResponseClass {
      return false;
    }
    var expected := ExpectedOrdinaryResponse(pair.request);
    return expected.None? || expected.value == pair.response;
  }

  // Records a response in its request's slot, unless the slot disagrees.
  method Remember(seen: array<byte>, ghost ps: seq<Pair>, pair: Pair) returns (ok: bool)
    requires Remembers(seen[..], ps) && Agree(ps) && PairOk(pair)
    modifies seen
    ensures ok <==> Agree(ps + [pair])
    ensures ok ==> Remembers(seen[..], ps + [pair])
  {
    RememberOne(seen[..], ps, pair);
    var slot := pair.request - 0x41;
    if seen[slot] != 0 && seen[slot] != pair.response {
      return false;
    }
    ghost var before := seen[..];
    if seen[slot] == 0 {
      seen[slot] := pair.response;
    }
    assert seen[..] == before[slot := pair.response];
    ok := true;
  }

  method IsAscii(raw: seq<byte>) returns (ascii: bool)
    ensures ascii <==> forall i :: 0 <= i < |raw| ==> raw[i] < 0x80
  {
    ascii := true;
    for i := 0 to |raw|
      invariant ascii <==> forall j :: 0 <= j < i ==> raw[j] < 0x80
    {
      if raw[i] >= 0x80 {
        ascii := false;
      }
    }
  }

  datatype Entry = Entry(pair: Pair, known: bool)

  function EntryOf(p: Pair): (e: Entry)
  {
    Entry(p, ExpectedOrdinaryResponse(p.request).Some?)
  }

  // A cursor over the pairs of an accepted string.
  class CapsIter {
    const bytes: seq<byte>
    var index: nat

    constructor (raw: seq<byte>)
      ensures bytes == raw && index == 0
    {
      bytes := raw;
      index := 0;
    }

    method Next() returns (e: Option<Entry>)
      requires CapsOk(bytes) && index % 2 == 0
      modifies this
      ensures index % 2 == 0
      ensures e.Some? <==> old(index) / 2 < |Pairs(bytes)|
      ensures e.Some? ==> e.value == EntryOf(Pairs(bytes)[old(index) / 2]) && index == old(index) + 2
      ensures e.None? ==> index == old(index)
    {
      if index >= |bytes| {
        return None;
      }
      var request := bytes[index];
      if index / 2 < |bytes| / 2 {
        PairAt(bytes, index / 2);
        assert PairOk(Pairs(bytes)[index / 2]);
      }
      if request == CHANGED {
        return None;
      }
      if index + 1 >= |bytes| {
        return None;
      }
      var response := bytes[index + 1];
      index := index + 2;
      e := Some(Entry(Pair(request, response), ExpectedOrdinaryResponse(request).Some?));
    }
  }

  // Iterating an accepted string to the end yields its pairs in order, and the
  // pairs with the marker spell the string.
  method Collect(raw: seq<byte>) returns (ps: seq<Pair>)
    requires CapsOk(raw)
    ensures Render(ps, SupportsChanged(raw)) == raw
    ensures AllOk(ps) && Agree(ps)
  {
    var iter := new CapsIter(raw);
    ps := [];
    var entry := iter.Next();
    while entry.Some?
      invariant iter.bytes == raw && iter.index % 2 == 0 && fresh(iter)
      invariant |ps| <= |Pairs(raw)| && ps == Pairs(raw)[..|ps|]
      invariant entry.Some? ==> |ps| < |Pairs(raw)| && entry.value.pair == Pairs(raw)[|ps|]
      invariant entry.Some? ==> iter.index == 2 * |ps| + 2
      invariant entry.None? ==> |ps| == |Pairs(raw)|
      decreases |Pairs(raw)| - |ps|
    {
      ps := ps + [entry.value.pair];
      entry := iter.Next();
    }
    assert ps == Pairs(raw);
    RenderPairs(raw);
  }
}
