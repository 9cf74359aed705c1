// Bytes, big-endian integers and the stock result types shared by every module.
module Bytes {
  type byte = x: int | 0 <= x < 0x100
  type u16 = x: int | 0 <= x < 0x1_0000
  type i64 = x: int | -0x8000_0000_0000_0000 <= x < 0x8000_0000_0000_0000

  datatype Option<+T> = None | Some(value: T)

  datatype Result<+T, +E> = Ok(value: T) | Err(error: E) {
    predicate IsFailure() {
      Err?
    }

    function PropagateFailure<U>(): Result<U, E>
      requires Err?
    {
      Err(error)
    }

    function Extract(): T
      requires Ok?
    {
      value
    }
  }

  // u8 addition that wraps at 256.
  function WrapAdd(a: byte, b: byte): (r: byte)
    ensures r == (a as int + b as int) % 0x100
  {
    var sum := a as int + b as int;
    if sum < 0x100 then sum else sum - 0x100
  }

  // u8 subtraction from zero.
  function WrapNeg(a: byte): (r: byte)
    ensures WrapAdd(a, r) == 0
  {
    if a == 0 then 0 else 0x100 - a as int
  }

  // Big-endian u16, most significant byte first.
  function U16Be(n: u16): (b: seq<byte>)
    ensures |b| == 2 && FromU16Be(b) == n
  {
    [n / 0x100, n % 0x100]
  }

  function FromU16Be(b: seq<byte>): (n: u16)
    requires |b| == 2
  {
    b[0] as int * 0x100 + b[1] as int
  }

  lemma U16BeUnique(b: seq<byte>)
    requires |b| == 2
    ensures U16Be(FromU16Be(b)) == b
  {
    assert FromU16Be(b) / 0x100 == b[0];
  }

  ghost function Pow256(width: nat): (p: nat)
    ensures p > 0
  {
    if width == 0 then 1 else 0x100 * Pow256(width - 1)
  }

  // The low `width` bytes of an unsigned integer, most significant first.
  function BeBytes(n: nat, width: nat): (b: seq<byte>)
    ensures |b| == width
  {
    if width == 0 then [] else BeBytes(n / 0x100, width - 1) + [n % 0x100]
  }

  function FromBe(b: seq<byte>): (n: nat)
  {
    if b == [] then 0 else FromBe(b[..|b| - 1]) * 0x100 + b[|b| - 1] as int
  }

  lemma {:induction false} BeRoundTrip(n: nat, width: nat)
    requires n < Pow256(width)
    ensures FromBe(BeBytes(n, width)) == n
  {
    if width > 0 {
      BeRoundTrip(n / 0x100, width - 1);
      var b := BeBytes(n, width);
      assert b[..|b| - 1] == BeBytes(n / 0x100, width - 1);
    }
  }

  lemma {:induction false} BeUnique(b: seq<byte>)
    ensures FromBe(b) < Pow256(|b|)
    ensures BeBytes(FromBe(b), |b|) == b
  {
    if b != [] {
      BeUnique(b[..|b| - 1]);
      assert FromBe(b) / 0x100 == FromBe(b[..|b| - 1]);
      assert b == b[..|b| - 1] + [b[|b| - 1]];
    }
  }

  const TWO_63: int := 0x8000_0000_0000_0000
  const TWO_64: int := 0x1_0000_0000_0000_0000

  lemma Pow256Of8()
    ensures Pow256(8) == TWO_64
  {
    assert Pow256(4) == 0x1_0000_0000;
  }

  // Two's complement big-endian i64.
  function I64Be(n: i64): (b: seq<byte>)
    ensures |b| == 8
  {
    BeBytes(if n < 0 then n + TWO_64 else n, 8)
  }

  function FromI64Be(b: seq<byte>): (n: i64)
    requires |b| == 8
  {
    BeUnique(b);
    Pow256Of8();
    var u := FromBe(b);
    if u < TWO_63 then u else u - TWO_64
  }

  lemma I64RoundTrip(n: i64)
    ensures FromI64Be(I64Be(n)) == n
  {
    Pow256Of8();
    BeRoundTrip(if n < 0 then n + TWO_64 else n, 8);
  }

  lemma I64Unique(b: seq<byte>)
    requires |b| == 8
    ensures I64Be(FromI64Be(b)) == b
  {
    BeUnique(b);
    Pow256Of8();
  }

  lemma TakeThenDrop(s: seq<byte>, n: nat, k: nat)
    requires n + k <= |s|
    ensures s[..n + k] == s[..n] + s[n..][..k]
    ensures s[n + k..] == s[n..][k..]
    ensures s == s[..n] + s[n..]
  {
  }

  lemma Assoc<T>(a: seq<T>, b: seq<T>, c: seq<T>)
    ensures (a + b) + c == a + (b + c)
  {
  }

  // The concatenation of the pieces of a split byte string.
  function Flatten(parts: seq<seq<byte>>): (s: seq<byte>)
  {
    if parts == [] then [] else parts[0] + Flatten(parts[1..])
  }

  lemma {:induction false} FlattenAppend(parts: seq<seq<byte>>, last: seq<byte>)
    ensures Flatten(parts + [last]) == Flatten(parts) + last
  {
    if parts == [] {
      assert (parts + [last])[1..] == [];
    } else {
      FlattenAppend(parts[1..], last);
      assert (parts + [last])[1..] == parts[1..] + [last];
    }
  }
}
