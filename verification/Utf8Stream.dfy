// Wire strings, checked whole or in chunks of bounded size.
module Utf8Stream {
  import opened Bytes
  import opened Errors
  import opened Utf8

  const DISCARD_CHUNK: nat := 64

  predicate NulFree(s: seq<byte>)
  {
    forall i :: 0 <= i < |s| ==> s[i] != 0
  }

  // The strings the protocol allows.
  predicate IsWireString(s: seq<byte>)
  {
    NulFree(s) && FromUtf8(s).Valid?
  }

  function DecodeWireString(s: seq<byte>): (r: Result<seq<byte>, PayloadError>)
    ensures r.Ok? <==> IsWireString(s)
    ensures r.Ok? ==> r.value == s
  {
    if !NulFree(s) then Err(StringContainsNul)
    else match FromUtf8(s)
      case Valid => Ok(s)
      case Invalid(at, len) => Err(InvalidUtf8(at, len))
  }

  lemma WireStringsFollowTheGrammar(s: seq<byte>)
    ensures IsWireString(s) <==> NulFree(s) && IsUtf8(s)
  {
    AcceptsExactlyTheGrammar(s);
  }

  // Can `s` still be the front of a wire string?
  predicate Extendable(s: seq<byte>)
  {
    NulFree(s) && (FromUtf8(s).Valid? || FromUtf8(s).errorLen.None?)
  }

  // A front that cannot be extended rules out every longer string.
  lemma NotExtendableIsFinal(s: seq<byte>, more: seq<byte>)
    requires !Extendable(s)
    ensures !Extendable(s + more) && !IsWireString(s + more)
  {
    if NulFree(s) {
      BrokenStaysBroken(s, more);
    } else {
      var i :| 0 <= i < |s| && s[i] == 0;
      assert (s + more)[i] == 0;
    }
  }

  // `tail` is what is left of `fed` once its valid front is taken off.
  predicate Carries(fed: seq<byte>, tail: seq<byte>)
  {
    && |tail| <= 3
    && |tail| <= |fed|
    && tail == fed[|fed| - |tail|..]
    && NulFree(fed)
    && FromUtf8(fed[..|fed| - |tail|]).Valid?
    && (tail != [] ==> Unfinished(tail))
  }

  // What the check of tail and chunk says about everything fed so far.
  lemma FeedValid(fed: seq<byte>, tail: seq<byte>, chunk: seq<byte>)
    requires Carries(fed, tail) && NulFree(chunk)
    requires FromUtf8(tail + chunk).Valid?
    ensures Carries(fed + chunk, []) && Extendable(fed + chunk)
  {
    CarryOver(fed, tail, chunk);
    var all := fed + chunk;
    assert all[..|all|] == all;
  }

  lemma FeedBroken(fed: seq<byte>, tail: seq<byte>, chunk: seq<byte>)
    requires Carries(fed, tail)
    requires FromUtf8(tail + chunk).Invalid? && FromUtf8(tail + chunk).errorLen.Some?
    ensures !Extendable(fed + chunk)
    ensures FromUtf8(fed + chunk).Invalid? && FromUtf8(fed + chunk).errorLen.Some?
  {
    CarryOver(fed, tail, chunk);
  }

  lemma FeedUnfinished(fed: seq<byte>, tail: seq<byte>, chunk: seq<byte>)
    requires Carries(fed, tail) && NulFree(chunk)
    requires FromUtf8(tail + chunk).Invalid? && FromUtf8(tail + chunk).errorLen.None?
    ensures Carries(fed + chunk, (tail + chunk)[FromUtf8(tail + chunk).validUpTo..])
    ensures Extendable(fed + chunk)
  {
    CarryOver(fed, tail, chunk);
    NulFreeTogether(fed, chunk);
    InvalidSplits(tail + chunk);
    UnfinishedIsCarried(fed, tail, chunk, FromUtf8(tail + chunk).validUpTo);
  }

  lemma UnfinishedIsCarried(fed: seq<byte>, tail: seq<byte>, chunk: seq<byte>, at: nat)
    requires Carries(fed, tail) && NulFree(fed + chunk) && at <= |tail + chunk|
    requires FromUtf8((tail + chunk)[..at]).Valid? && Unfinished((tail + chunk)[at..])
    ensures Carries(fed + chunk, (tail + chunk)[at..])
  {
    UnfinishedIsShort((tail + chunk)[at..]);
    NewFront(fed, tail, chunk, at);
    FrontStaysValid(fed[..|fed| - |tail|], (tail + chunk)[..at]);
  }

  lemma NulFreeTogether(a: seq<byte>, b: seq<byte>)
    requires NulFree(a) && NulFree(b)
    ensures NulFree(a + b)
  {
  }

  lemma FrontStaysValid(front: seq<byte>, more: seq<byte>)
    requires FromUtf8(front).Valid? && FromUtf8(more).Valid?
    ensures FromUtf8(front + more).Valid?
  {
    DropValidFront(front, more);
  }

  lemma NewFront(fed: seq<byte>, tail: seq<byte>, chunk: seq<byte>, at: nat)
    requires |tail| <= |fed| && tail == fed[|fed| - |tail|..] && at <= |tail + chunk|
    ensures var rest := |tail + chunk| - at;
      && (fed + chunk)[..|fed + chunk| - rest] == fed[..|fed| - |tail|] + (tail + chunk)[..at]
      && (fed + chunk)[|fed + chunk| - rest..] == (tail + chunk)[at..]
  {
    assert fed + chunk == fed[..|fed| - |tail|] + (tail + chunk);
  }

  lemma NulStays(fed: seq<byte>, chunk: seq<byte>)
    requires 0 in chunk
    ensures !NulFree(fed + chunk) && 0 in fed + chunk
  {
    var i :| 0 <= i < |chunk| && chunk[i] == 0;
    assert (fed + chunk)[|fed| + i] == 0;
  }

  lemma UnfinishedIsShort(s: seq<byte>)
    requires Unfinished(s)
    ensures 1 <= |s| <= 3
  {
  }

  lemma NotExtendableIsRefused(s: seq<byte>)
    requires !Extendable(s)
    ensures !IsWireString(s)
  {
    NotExtendableIsFinal(s, []);
    assert s + [] == s;
  }

  // An error that fits a text which no continuation makes a wire string.
  predicate FitsBroken(text: seq<byte>, e: PayloadError)
  {
    || (e.StringContainsNul? && 0 in text)
    || (e.InvalidUtf8? && FromUtf8(text).Invalid? && FromUtf8(text).errorLen.Some?)
  }

  lemma FitsLonger(text: seq<byte>, more: seq<byte>, e: PayloadError)
    requires FitsBroken(text, e)
    ensures FitsBroken(text + more, e) && !Extendable(text + more)
  {
    if e.StringContainsNul? {
      var i :| 0 <= i < |text| && text[i] == 0;
      assert (text + more)[i] == 0;
    } else {
      BrokenStaysBroken(text, more);
    }
  }

  // Checks a string that arrives in chunks, carrying at most three bytes.
  class Utf8StreamValidator {
    const tail: array<byte>
    var tailLen: nat
    ghost var fed: seq<byte>

    ghost predicate Valid()
      reads this, tail
    {
      tail.Length == 4 && tailLen <= 3 && Carries(fed, tail[..tailLen])
    }

    constructor ()
      ensures Valid() && fed == [] && fresh(tail)
    {
      tail := new byte[4](_ => 0);
      tailLen := 0;
      fed := [];
    }

    // The carried tail and the chunk, side by side in a buffer with four bytes
    // to spare over the chunk size.
    method Join(chunk: seq<byte>) returns (buffer: array<byte>)
      requires Valid() && |chunk| <= DISCARD_CHUNK
      ensures fresh(buffer) && buffer.Length == DISCARD_CHUNK + 4
      ensures buffer[..tailLen + |chunk|] == tail[..tailLen] + chunk
    {
      buffer := new byte[DISCARD_CHUNK + 4](_ => 0);
      forall i | 0 <= i < tailLen {
        buffer[i] := tail[i];
      }
      forall i | tailLen <= i < tailLen + |chunk| {
        buffer[i] := chunk[i - tailLen];
      }
    }

    method Keep(rest: seq<byte>)
      requires tail.Length == 4 && |rest| <= 4
      modifies `tailLen, tail
      ensures tailLen == |rest| && tail[..tailLen] == rest
    {
      forall i | 0 <= i < |rest| {
        tail[i] := rest[i];
      }
      tailLen := |rest|;
    }

    method Feed(chunk: seq<byte>) returns (r: Result<(), PayloadError>)
      requires Valid() && |chunk| <= DISCARD_CHUNK
      modifies this, tail
      ensures r.Ok? <==> Extendable(old(fed) + chunk)
      ensures r.Ok? ==> Valid() && fed == old(fed) + chunk
      ensures r.Err? ==> FitsBroken(old(fed) + chunk, r.error)
    {
      if 0 in chunk {
        NulStays(fed, chunk);
        return Err(StringContainsNul);
      }
      var total := tailLen + |chunk|;
      var buffer := Join(chunk);
      ghost var carried := tail[..tailLen];
      var piece := buffer[..total];
      match FromUtf8(piece) {
        case Valid =>
          FeedValid(fed, carried, chunk);
          Keep([]);
          fed := fed + chunk;
          r := Ok(());
        case Invalid(validUpTo, errorLen) =>
          if errorLen.Some? {
            FeedBroken(fed, carried, chunk);
            return Err(InvalidUtf8(validUpTo, errorLen));
          }
          FeedUnfinished(fed, carried, chunk);
          Keep(piece[validUpTo..]);
          fed := fed + chunk;
          r := Ok(());
      }
    }

    // Called once after the last chunk. A carried tail is always an error: the
    // accepting branch of its check cannot be taken.
    method Finish() returns (r: Result<(), PayloadError>)
      requires Valid()
      ensures r.Ok? <==> IsWireString(fed)
      ensures r.Err? ==> r.error.InvalidUtf8? && FromUtf8(fed).Invalid?
    {
      r := Ok(());
      if tailLen == 0 {
        assert fed[..|fed| - tailLen] == fed;
        return;
      }
      UnfinishedIsNotValid(tail[..tailLen]);
      TakeThenDrop(fed, |fed| - tailLen, 0);
      DropValidFront(fed[..|fed| - tailLen], tail[..tailLen]);
      match FromUtf8(tail[..tailLen]) {
        case Valid => assert false;
        case Invalid(at, len) => r := Err(InvalidUtf8(at, len));
      }
    }
  }

  // However a string is cut into chunks, feeding them and finishing accepts
  // exactly the wire strings. An error stops the feeding, not the reading.
  method CheckInChunks(chunks: seq<seq<byte>>) returns (accepted: bool)
    requires forall i :: 0 <= i < |chunks| ==> |chunks[i]| <= DISCARD_CHUNK
    ensures accepted <==> NulFree(Flatten(chunks)) && IsUtf8(Flatten(chunks))
  {
    var validator := new Utf8StreamValidator();
    accepted := true;
    for i := 0 to |chunks|
      invariant fresh(validator) && fresh(validator.tail)
      invariant accepted ==> validator.Valid() && validator.fed == Flatten(chunks[..i])
      invariant !accepted ==> !Extendable(Flatten(chunks[..i]))
    {
      assert chunks[..i + 1] == chunks[..i] + [chunks[i]];
      FlattenAppend(chunks[..i], chunks[i]);
      if accepted {
        var r := validator.Feed(chunks[i]);
        accepted := r.Ok?;
      } else {
        NotExtendableIsFinal(Flatten(chunks[..i]), chunks[i]);
      }
    }
    assert chunks[..|chunks|] == chunks;
    if accepted {
      var r := validator.Finish();
      accepted := r.Ok?;
    } else {
      NotExtendableIsRefused(Flatten(chunks));
    }
    WireStringsFollowTheGrammar(Flatten(chunks));
  }
}
