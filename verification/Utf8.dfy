// UTF-8 as defined by the grammar in section 4 of RFC 3629, and the result of
// a whole-string check: how much is valid, and whether the rest is broken or
// merely unfinished.
module Utf8 {
  import opened Bytes

  predicate Tail(b: byte) { 0x80 <= b <= 0xBF }

  // UTF8-char: one rule of the grammar, matched against the whole of `c`.
  predicate IsChar(c: seq<byte>)
  {
    match |c|
    case 1 => c[0] <= 0x7F
    case 2 => 0xC2 <= c[0] <= 0xDF && Tail(c[1])
    case 3 => SecondOk(c[0], c[1]) && 0xE0 <= c[0] <= 0xEF && Tail(c[2])
    case 4 => SecondOk(c[0], c[1]) && 0xF0 <= c[0] <= 0xF4 && Tail(c[2]) && Tail(c[3])
    case _ => false
  }

  // The second octets the three and four octet rules allow after a lead octet.
  predicate SecondOk(lead: byte, second: byte)
  {
    if lead == 0xE0 then 0xA0 <= second <= 0xBF
    else if lead == 0xED then 0x80 <= second <= 0x9F
    else if lead == 0xF0 then 0x90 <= second <= 0xBF
    else if lead == 0xF4 then 0x80 <= second <= 0x8F
    else Tail(second)
  }

  // UTF8-octets = *( UTF8-char )
  ghost predicate IsUtf8(s: seq<byte>)
  {
    exists cs: seq<seq<byte>> :: AllChars(cs) && Flatten(cs) == s
  }

  ghost predicate AllChars(cs: seq<seq<byte>>)
  {
    forall i :: 0 <= i < |cs| ==> IsChar(cs[i])
  }

  // The length of the character `s` starts with, or 0.
  function CharLen(s: seq<byte>): (n: nat)
    ensures n <= |s|
    ensures n > 0 ==> IsChar(s[..n])
  {
    if |s| >= 1 && IsChar(s[..1]) then 1
    else if |s| >= 2 && IsChar(s[..2]) then 2
    else if |s| >= 3 && IsChar(s[..3]) then 3
    else if |s| >= 4 && IsChar(s[..4]) then 4
    else 0
  }

  lemma NoCharHere(s: seq<byte>, k: nat)
    requires CharLen(s) == 0 && k <= |s|
    ensures !IsChar(s[..k])
  {
  }

  lemma CharLenOfChar(c: seq<byte>, rest: seq<byte>)
    requires IsChar(c)
    ensures CharLen(c + rest) == |c|
  {
    var s := c + rest;
    assert s[..|c|] == c;
    assert forall k, i :: 0 <= i < k <= |c| ==> s[..k][i] == c[i];
  }

  // The unfinished beginnings of a character: what a check at the end of
  // input reports without an error length.
  predicate Unfinished(s: seq<byte>)
  {
    match |s|
    case 1 => 0xC2 <= s[0] <= 0xF4
    case 2 => 0xE0 <= s[0] <= 0xF4 && SecondOk(s[0], s[1])
    case 3 => 0xF0 <= s[0] <= 0xF4 && SecondOk(s[0], s[1]) && Tail(s[2])
    case _ => false
  }

  // A completion of an unfinished character.
  function Completion(s: seq<byte>): (t: seq<byte>)
    requires Unfinished(s)
    ensures t != [] && IsChar(s + t)
  {
    var second := if s[0] == 0xE0 then 0xA0 else if s[0] == 0xF0 then 0x90 else 0x80;
    var full: seq<byte> :=
      if |s| == 1 then [s[0], second, 0x80, 0x80]
      else if |s| == 2 then [s[0], s[1], 0x80, 0x80]
      else [s[0], s[1], s[2], 0x80];
    var width := if s[0] < 0xE0 then 2 else if s[0] < 0xF0 then 3 else 4;
    assert s + full[|s|..width] == full[..width];
    full[|s|..width]
  }

  lemma UnfinishedIsProperPrefix(s: seq<byte>)
    ensures Unfinished(s) <==> s != [] && exists t: seq<byte> :: t != [] && IsChar(s + t)
  {
    if Unfinished(s) {
      var t := Completion(s);
    }
    if s != [] {
      forall t: seq<byte> | t != [] && IsChar(s + t)
        ensures Unfinished(s)
      {
        var c := s + t;
        assert forall i :: 0 <= i < |s| ==> c[i] == s[i];
      }
    }
  }

  // The verdict on a whole byte string.
  datatype Verdict =
    | Valid
    | Invalid(validUpTo: nat, errorLen: Option<nat>)

  // The length of the maximal ill-formed piece at the front of `s`.
  function BrokenLen(s: seq<byte>): (n: nat)
    requires s != []
    ensures 1 <= n <= 3
  {
    if |s| >= 3 && Unfinished(s[..3]) then 3
    else if |s| >= 2 && Unfinished(s[..2]) then 2
    else 1
  }

  function FromUtf8(s: seq<byte>): (v: Verdict)
    ensures v.Invalid? ==> v.validUpTo < |s|
  {
    if s == [] then Valid
    else
      var n := CharLen(s);
      if n > 0 then Shift(FromUtf8(s[n..]), n)
      else if Unfinished(s) then Invalid(0, None)
      else Invalid(0, Some(BrokenLen(s)))
  }

  function Shift(v: Verdict, front: nat): (r: Verdict)
  {
    if v.Valid? then v else v.(validUpTo := v.validUpTo + front)
  }

  // Acceptance is exactly the grammar.
  lemma {:induction false} AcceptsExactlyTheGrammar(s: seq<byte>)
    ensures FromUtf8(s).Valid? <==> IsUtf8(s)
  {
    if FromUtf8(s).Valid? {
      var cs := Split(s);
    }
    forall cs: seq<seq<byte>> | AllChars(cs) && Flatten(cs) == s
      ensures FromUtf8(s).Valid?
    {
      CharsAreValid(cs);
    }
  }

  function Split(s: seq<byte>): (cs: seq<seq<byte>>)
    requires FromUtf8(s).Valid?
    ensures AllChars(cs) && Flatten(cs) == s
  {
    if s == [] then []
    else
      var n := CharLen(s);
      assert s == s[..n] + s[n..];
      [s[..n]] + Split(s[n..])
  }

  lemma {:induction false} CharsAreValid(cs: seq<seq<byte>>)
    requires AllChars(cs)
    ensures FromUtf8(Flatten(cs)).Valid?
  {
    if cs != [] {
      CharsAreValid(cs[1..]);
      ValidThen(cs[0], Flatten(cs[1..]));
    }
  }

  lemma ValidThen(c: seq<byte>, rest: seq<byte>)
    requires IsChar(c)
    ensures FromUtf8(c + rest) == Shift(FromUtf8(rest), |c|)
  {
    CharLenOfChar(c, rest);
    assert (c + rest)[|c|..] == rest;
  }

  // A valid front can be dropped before checking the rest.
  lemma {:induction false} DropValidFront(a: seq<byte>, b: seq<byte>)
    requires FromUtf8(a).Valid?
    ensures FromUtf8(a + b) == Shift(FromUtf8(b), |a|)
  {
    if a == [] {
      assert a + b == b;
    } else {
      var n := CharLen(a);
      TakeThenDrop(a, n, 0);
      Assoc(a[..n], a[n..], b);
      DropValidFront(a[n..], b);
      ValidThen(a[..n], a[n..] + b);
    }
  }

  // The bytes in front of the reported position are valid, and what follows it
  // is an unfinished character exactly when no error length is reported.
  lemma {:induction false} InvalidSplits(s: seq<byte>)
    requires FromUtf8(s).Invalid?
    ensures var at := FromUtf8(s).validUpTo;
      && FromUtf8(s[..at]).Valid?
      && CharLen(s[at..]) == 0
      && (FromUtf8(s).errorLen.None? <==> Unfinished(s[at..]))
  {
    var n := CharLen(s);
    if n == 0 {
      assert s[0..] == s;
    } else {
      InvalidSplits(s[n..]);
      var at := FromUtf8(s[n..]).validUpTo;
      TakeThenDrop(s, n, at);
      ValidThen(s[..n], s[n..][..at]);
    }
  }

  // Once broken, a string stays broken whatever follows.
  lemma BrokenStaysBroken(s: seq<byte>, more: seq<byte>)
    requires FromUtf8(s).Invalid? && FromUtf8(s).errorLen.Some?
    ensures FromUtf8(s + more).Invalid? && FromUtf8(s + more).errorLen.Some?
  {
    InvalidSplits(s);
    var at := FromUtf8(s).validUpTo;
    var rest := s[at..];
    assert s + more == s[..at] + (rest + more);
    DropValidFront(s[..at], rest + more);
    BrokenRest(rest, more);
  }

  lemma BrokenRest(rest: seq<byte>, more: seq<byte>)
    requires rest != [] && CharLen(rest) == 0 && !Unfinished(rest)
    ensures FromUtf8(rest + more).Invalid? && FromUtf8(rest + more).errorLen.Some?
  {
    var s := rest + more;
    forall k | 0 <= k <= |s|
      ensures !IsChar(s[..k])
    {
      if k <= |rest| {
        assert s[..k] == rest[..k];
        NoCharHere(rest, k);
      } else {
        assert s[..k] == rest + s[|rest|..k];
        UnfinishedIsProperPrefix(rest);
      }
    }
  }

  // An unfinished character is never valid by itself.
  lemma UnfinishedIsNotValid(s: seq<byte>)
    requires Unfinished(s)
    ensures FromUtf8(s) == Invalid(0, None)
  {
  }

  // Checking the carried tail with the next chunk gives the verdict on
  // everything seen so far, shifted by what was already accepted.
  lemma CarryOver(seen: seq<byte>, tail: seq<byte>, chunk: seq<byte>)
    requires |tail| <= |seen| && FromUtf8(seen[..|seen| - |tail|]).Valid?
    requires tail == seen[|seen| - |tail|..]
    ensures FromUtf8(seen + chunk) == Shift(FromUtf8(tail + chunk), |seen| - |tail|)
  {
    var front := seen[..|seen| - |tail|];
    TakeThenDrop(seen, |front|, 0);
    Assoc(front, tail, chunk);
    DropValidFront(front, tail + chunk);
  }
}
