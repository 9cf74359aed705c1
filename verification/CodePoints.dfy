// UTF-8 by what it encodes: the characters of the grammar are the encodings of
// the Unicode scalar values, and what is reported of a broken string is the
// longest piece of one.
module CodePoints {
  import opened Bytes
  import opened Utf8

  // A Unicode scalar value: a code point that is no surrogate.
  predicate IsScalar(c: int)
  {
    0 <= c < 0xD800 || 0xE000 <= c < 0x110000
  }

  // Its encoding: as many six-bit groups as it takes, behind a lead octet.
  function Encoded(c: int): (s: seq<byte>)
    requires IsScalar(c)
  {
    if c < 0x80 then [c]
    else if c < 0x800 then [0xC0 + c / 64, 0x80 + c % 64]
    else if c < 0x10000 then [0xE0 + c / 64 / 64, 0x80 + c / 64 % 64, 0x80 + c % 64]
    else [0xF0 + c / 64 / 64 / 64, 0x80 + c / 64 / 64 % 64, 0x80 + c / 64 % 64, 0x80 + c % 64]
  }

  function SixMore(c: int, b: byte): (d: int)
  {
    c * 64 + (b as int - 0x80)
  }

  // The code point in the groups.
  function Decoded(s: seq<byte>): (c: int)
  {
    match |s|
    case 1 => s[0]
    case 2 => SixMore(s[0] as int - 0xC0, s[1])
    case 3 => SixMore(SixMore(s[0] as int - 0xE0, s[1]), s[2])
    case 4 => SixMore(SixMore(SixMore(s[0] as int - 0xF0, s[1]), s[2]), s[3])
    case _ => -1
  }

  lemma SixBits(c: int, b: byte)
    requires Tail(b)
    ensures SixMore(c, b) / 64 == c && 0x80 + SixMore(c, b) % 64 == b
  {
  }

  lemma CharDecodes(s: seq<byte>)
    requires IsChar(s)
    ensures IsScalar(Decoded(s)) && Encoded(Decoded(s)) == s
  {
    if |s| == 2 {
      SixBits(s[0] as int - 0xC0, s[1]);
    } else if |s| == 3 {
      ThreeDecode(s);
    } else if |s| == 4 {
      FourDecode(s);
    }
  }

  lemma ThreeDecode(s: seq<byte>)
    requires IsChar(s) && |s| == 3
    ensures IsScalar(Decoded(s)) && Encoded(Decoded(s)) == s
  {
    var a, b := s[0] as int - 0xE0, SixMore(s[0] as int - 0xE0, s[1]);
    SixBits(a, s[1]);
    SixBits(b, s[2]);
  }

  lemma FourDecode(s: seq<byte>)
    requires IsChar(s) && |s| == 4
    ensures IsScalar(Decoded(s)) && Encoded(Decoded(s)) == s
  {
    var a, b := s[0] as int - 0xF0, SixMore(s[0] as int - 0xF0, s[1]);
    var c := SixMore(b, s[2]);
    SixBits(a, s[1]);
    SixBits(b, s[2]);
    SixBits(c, s[3]);
  }

  lemma EncodedIsChar(c: int)
    requires IsScalar(c)
    ensures IsChar(Encoded(c)) && Decoded(Encoded(c)) == c
  {
    var d := c / 64;
    assert c == d * 64 + c % 64;
    var e := d / 64;
    assert d == e * 64 + d % 64;
    assert e == e / 64 * 64 + e % 64;
  }

  // The grammar's characters are exactly these encodings, one for each scalar
  // value.
  lemma CharsAreScalarValues(s: seq<byte>)
    ensures IsChar(s) <==> exists c :: IsScalar(c) && Encoded(c) == s
    ensures forall c, d :: IsScalar(c) && IsScalar(d) && Encoded(c) == Encoded(d) ==> c == d
  {
    if IsChar(s) {
      CharDecodes(s);
    }
    forall c | IsScalar(c)
      ensures IsChar(Encoded(c)) && Decoded(Encoded(c)) == c
    {
      EncodedIsChar(c);
    }
  }

  // The text of a list of scalar values.
  function Text(cs: seq<int>): (s: seq<byte>)
    requires forall i :: 0 <= i < |cs| ==> IsScalar(cs[i])
  {
    if cs == [] then [] else Encoded(cs[0]) + Text(cs[1..])
  }

  // A string is accepted exactly when it is the text of some scalar values.
  lemma ValidExactlyWhenText(s: seq<byte>)
    ensures FromUtf8(s).Valid? <==>
      exists cs: seq<int> :: (forall i :: 0 <= i < |cs| ==> IsScalar(cs[i])) && Text(cs) == s
  {
    if FromUtf8(s).Valid? {
      var cs := Points(s);
    }
    forall cs: seq<int> | (forall i :: 0 <= i < |cs| ==> IsScalar(cs[i])) && Text(cs) == s
      ensures FromUtf8(s).Valid?
    {
      TextIsValid(cs);
    }
  }

  function Points(s: seq<byte>): (cs: seq<int>)
    requires FromUtf8(s).Valid?
    ensures (forall i :: 0 <= i < |cs| ==> IsScalar(cs[i])) && Text(cs) == s
  {
    if s == [] then []
    else
      var n := CharLen(s);
      CharDecodes(s[..n]);
      assert s == s[..n] + s[n..];
      [Decoded(s[..n])] + Points(s[n..])
  }

  lemma {:induction false} TextIsValid(cs: seq<int>)
    requires forall i :: 0 <= i < |cs| ==> IsScalar(cs[i])
    ensures FromUtf8(Text(cs)).Valid?
  {
    if cs != [] {
      EncodedIsChar(cs[0]);
      TextIsValid(cs[1..]);
      ValidThen(Encoded(cs[0]), Text(cs[1..]));
    }
  }

  // ---- What is reported of a broken string ----

  // The beginning of a character, and not all of it.
  ghost predicate BeginsChar(s: seq<byte>)
  {
    s != [] && exists t: seq<byte> :: t != [] && IsChar(s + t)
  }

  // In front of the reported position the string is valid, and behind it no
  // character starts. The error length is missing exactly when the rest is the
  // beginning of a character; otherwise it is that of the longest beginning of
  // one that the rest starts with, and 1 when it starts with none.
  lemma ReportsTheLongestPiece(s: seq<byte>)
    requires FromUtf8(s).Invalid?
    ensures var Invalid(at, len) := FromUtf8(s);
      && at < |s| && FromUtf8(s[..at]).Valid?
      && (forall k :: 0 <= k <= |s| - at ==> !IsChar(s[at..][..k]))
      && (len.None? <==> BeginsChar(s[at..]))
      && (len.Some? ==> 1 <= len.value <= |s| - at && (len.value == 1 || BeginsChar(s[at..][..len.value])))
      && (len.Some? ==> forall k :: len.value < k <= |s| - at ==> !BeginsChar(s[at..][..k]))
  {
    var at := FromUtf8(s).validUpTo;
    var rest := s[at..];
    InvalidSplits(s);
    forall k | 0 <= k <= |rest|
      ensures !IsChar(rest[..k])
    {
      NoCharHere(rest, k);
    }
    UnfinishedIsProperPrefix(rest);
    if FromUtf8(s).errorLen.Some? {
      ErrorLength(s);
      LongestPiece(rest);
    }
  }

  lemma LongestPiece(rest: seq<byte>)
    requires rest != [] && !Unfinished(rest) && CharLen(rest) == 0
    ensures var n := BrokenLen(rest);
      && 1 <= n <= |rest| && (n == 1 || BeginsChar(rest[..n]))
      && forall k :: n < k <= |rest| ==> !BeginsChar(rest[..k])
  {
    forall k | 0 <= k <= |rest|
      ensures BeginsChar(rest[..k]) <==> Unfinished(rest[..k])
    {
      UnfinishedIsProperPrefix(rest[..k]);
    }
  }

  lemma {:induction false} ErrorLength(s: seq<byte>)
    requires FromUtf8(s).Invalid? && FromUtf8(s).errorLen.Some?
    ensures var at := FromUtf8(s).validUpTo; FromUtf8(s).errorLen == Some(BrokenLen(s[at..]))
  {
    var n := CharLen(s);
    if n == 0 {
      assert s[0..] == s;
    } else {
      ErrorLength(s[n..]);
      TakeThenDrop(s, n, FromUtf8(s[n..]).validUpTo);
    }
  }
}
