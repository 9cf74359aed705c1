// The value types a key can have: their bounds, their encoding into a fixed
// buffer, and decoding from a wire value.
module Values {
  import opened Bytes
  import opened Utf8
  import opened Utf8Stream
  import opened Messages
  import opened Requests

  datatype WireValueError = TypeMismatch | ValueTooLarge | StringContainsNulByte

  // bool, i64, a string of bounded capacity, or a derived enum with its wire
  // names in declaration order.
  datatype KeyType =
    | BoolType
    | I64Type
    | StrType(capacity: nat)
    | EnumType(names: seq<seq<byte>>)

  // A value of one of those types, as the program holds it.
  datatype Typed =
    | TBool(flag: bool)
    | TI64(number: i64)
    | TStr(text: seq<byte>)
    | TEnum(variant: nat)

  predicate NamesOk(names: seq<seq<byte>>)
  {
    names != [] && AcceptedNames(names)
  }

  predicate AcceptedNames(names: seq<seq<byte>>)
  {
    && (forall i :: 0 <= i < |names| ==> NameOk(names[i]))
    && (forall i, j :: 0 <= i < j < |names| ==> names[i] != names[j])
  }

  predicate NameOk(name: seq<byte>)
  {
    name != [] && IsWireString(name) && |name| < 0x1_0000
  }

  predicate TypeOk(t: KeyType)
  {
    t.EnumType? ==> NamesOk(t.names)
  }

  // What the program's own type system guarantees of a value.
  predicate Inhabits(t: KeyType, v: Typed)
  {
    match t
    case BoolType => v.TBool?
    case I64Type => v.TI64?
    case StrType(capacity) => v.TStr? && |v.text| <= capacity && FromUtf8(v.text).Valid?
    case EnumType(names) => v.TEnum? && v.variant < |names|
  }

  // The longest wire name.
  function LongestName(names: seq<seq<byte>>): (n: nat)
    ensures forall i :: 0 <= i < |names| ==> |names[i]| <= n
    ensures names != [] ==> exists i :: 0 <= i < |names| && |names[i]| == n
  {
    if names == [] then 0
    else
      var init, last := names[..|names| - 1], names[|names| - 1];
      var longest := LongestName(init);
      assert forall i :: 0 <= i < |init| ==> names[i] == init[i];
      if |last| > longest || init == [] then
        assert names[|names| - 1] == last;
        |last|
      else
        var i :| 0 <= i < |init| && |init[i]| == longest;
        assert names[i] == init[i];
        longest
  }

  function MaxStrLen(t: KeyType): (n: nat)
  {
    match t
    case StrType(capacity) => capacity
    case EnumType(names) => LongestName(names)
    case _ => 0
  }

  function MaxWireLen(t: KeyType): (n: nat)
  {
    match t
    case BoolType => 2
    case I64Type => 9
    case _ => 3 + MaxStrLen(t)
  }

  // Validation before a value is stored. Only strings can fail it.
  function ValidateTyped(v: Typed): (r: Result<(), WireValueError>)
  {
    if v.TStr? then
      if !NulFree(v.text) then Err(StringContainsNulByte)
      else if |v.text| > 0xFFFF then Err(ValueTooLarge)
      else Ok(())
    else Ok(())
  }

  // The index of a wire name, as the generated match finds it.
  function VariantOf(names: seq<seq<byte>>, text: seq<byte>): (r: Option<nat>)
    ensures r.Some? ==> r.value < |names| && names[r.value] == text
    ensures r.None? ==> text !in names
  {
    if names == [] then None
    else if names[0] == text then Some(0)
    else
      match VariantOf(names[1..], text)
      case None => None
      case Some(i) => Some(i + 1)
  }

  function DecodeTyped(t: KeyType, w: WireValue): (r: Result<Typed, WireValueError>)
  {
    match t
    case BoolType => if w.WBool? then Ok(TBool(w.flag)) else Err(TypeMismatch)
    case I64Type => if w.WI64? then Ok(TI64(w.number)) else Err(TypeMismatch)
    case StrType(capacity) =>
      if w.WStr? && |w.text| <= capacity then Ok(TStr(w.text)) else Err(TypeMismatch)
    case EnumType(names) =>
      if w.WStr? then
        match VariantOf(names, w.text)
        case Some(i) => Ok(TEnum(i))
        case None => Err(TypeMismatch)
      else Err(TypeMismatch)
  }

  // The protocol value of a stored one.
  function ToWire(t: KeyType, v: Typed): (w: Value)
    requires Inhabits(t, v)
  {
    match v
    case TBool(flag) => Bool(flag)
    case TI64(number) => I64(number)
    case TStr(text) => Str(text)
    case TEnum(i) => Str(t.names[i])
  }

  // A wire value as the reader delivers it.
  predicate WireOk(w: WireValue)
  {
    w.WStr? ==> IsWireString(w.text) && |w.text| < 0x1_0000
  }

  // Decoding gives a value of the type that passes validation, and whose
  // protocol value is the one that came in.
  lemma DecodedIsStorable(t: KeyType, w: WireValue)
    requires TypeOk(t) && WireOk(w) && DecodeTyped(t, w).Ok?
    ensures var v := DecodeTyped(t, w).value;
      Inhabits(t, v) && ValidateTyped(v).Ok? && !w.WOversized? && Shrink(0xFFFF, ToWire(t, v)) == w
  {
  }

  // The protocol value a delivered one stands for.
  function Plain(w: WireValue): (v: Value)
    requires !w.WOversized?
  {
    match w
    case WBool(flag) => Bool(flag)
    case WI64(number) => I64(number)
    case WStr(text) => Str(text)
  }

  function Delivered(v: Value): (w: WireValue)
  {
    Shrink(if v.Str? then |v.text| else 0, v)
  }

  // The value a WRITE stores, if the key's type accepts it.
  function Accept(t: KeyType, w: WireValue): (r: Option<Value>)
  {
    match DecodeTyped(t, w)
    case Err(_) => None
    case Ok(v) => if ValidateTyped(v).Ok? then Some(Plain(w)) else None
  }

  // What each type accepts: a string as long as its capacity, or one of the wire
  // names, and never one that did not fit the buffer.
  lemma AcceptsExactly(t: KeyType, w: WireValue)
    requires WireOk(w)
    ensures Accept(t, w).Some? <==>
      match t
      case BoolType => w.WBool?
      case I64Type => w.WI64?
      case StrType(capacity) => w.WStr? && |w.text| <= capacity
      case EnumType(names) => w.WStr? && w.text in names
    ensures Accept(t, w).Some? && w.WBool? ==> Accept(t, w).value == Bool(w.flag)
    ensures Accept(t, w).Some? && w.WI64? ==> Accept(t, w).value == I64(w.number)
    ensures Accept(t, w).Some? && w.WStr? ==> Accept(t, w).value == Str(w.text)
  {
  }

  // A WRITE answers with the value it was given, whatever the key's type does
  // with it in between.
  lemma AcceptedIsEchoed(t: KeyType, w: WireValue)
    requires TypeOk(t) && WireOk(w)
    ensures Accept(t, w).Some? <==> DecodeTyped(t, w).Ok?
    ensures Accept(t, w).Some? ==> ToWire(t, DecodeTyped(t, w).value) == Accept(t, w).value
    ensures Accept(t, w).Some? ==> Delivered(Accept(t, w).value) == w
  {
    if DecodeTyped(t, w).Ok? {
      DecodedIsStorable(t, w);
    }
  }

  // Stored values survive being written back over the wire.
  lemma TypedRoundTrip(t: KeyType, v: Typed)
    requires TypeOk(t) && Inhabits(t, v)
    ensures DecodeTyped(t, Shrink(MaxStrLen(t), ToWire(t, v))) == Ok(v)
  {
    if t.EnumType? {
      var name := t.names[v.variant];
      var found := VariantOf(t.names, name);
      assert found.Some? && t.names[found.value] == t.names[v.variant];
    }
  }

  // Bounded memory is faithful: with a buffer at least as long as the type's
  // longest string, forgetting the text of a longer string never changes the
  // outcome.
  lemma ShrinkingIsFaithful(t: KeyType, maxStr: nat, v: Value)
    requires maxStr >= MaxStrLen(t)
    ensures DecodeTyped(t, Shrink(maxStr, v)) == DecodeTyped(t, Shrink(if v.Str? then |v.text| else 0, v))
  {
    if t.EnumType? && v.Str? && |v.text| > maxStr {
      assert forall i :: 0 <= i < |t.names| ==> t.names[i] != v.text;
    }
  }

  // The exact condition for a stored value to be framed in a VALUE or WRITTEN
  // response: validation alone allows three more bytes than a frame can hold.
  lemma FramedExactlyUpTo65532(t: KeyType, v: Typed)
    requires TypeOk(t) && Inhabits(t, v) && ValidateTyped(v).Ok?
    ensures |ValueBytes(ToWire(t, v))| < 0x1_0000 <==> (ToWire(t, v).Str? ==> |ToWire(t, v).text| <= 65532)
    ensures |ValueBytes(ToWire(t, v))| <= MaxWireLen(t)
  {
  }

  // Writes the value into the front of a buffer.
  method EncodeInto(t: KeyType, v: Typed, buffer: array<byte>) returns (r: Result<nat, WireValueError>)
    requires TypeOk(t) && Inhabits(t, v) && buffer.Length >= MaxWireLen(t)
    modifies buffer
    ensures r.Ok? <==> ValidateTyped(v).Ok?
    ensures r.Ok? ==> r.value <= MaxWireLen(t) && buffer[..r.value] == ValueBytes(ToWire(t, v))
    ensures r.Err? ==> buffer[..] == old(buffer[..])
    ensures r.Ok? ==> forall i :: r.value <= i < buffer.Length ==> buffer[i] == old(buffer[i])
  {
    match v
    case TBool(flag) =>
      WriteExact(buffer, 0, [BOOL_TAG, if flag then 1 else 0]);
      r := Ok(2);
    case TI64(number) =>
      WriteExact(buffer, 0, [I64_TAG]);
      WriteExact(buffer, 1, I64Be(number));
      assert buffer[..9] == [I64_TAG] + I64Be(number);
      r := Ok(9);
    case TStr(text) =>
      var valid := ValidateTyped(v);
      if valid.Err? {
        return Err(valid.error);
      }
      EncodeStr(text, buffer);
      r := Ok(3 + |text|);
    case TEnum(i) =>
      assert NameOk(t.names[i]);
      EncodeStr(t.names[i], buffer);
      r := Ok(3 + |t.names[i]|);
  }

  method EncodeStr(text: seq<byte>, buffer: array<byte>)
    requires |text| < 0x1_0000 && 3 + |text| <= buffer.Length
    modifies buffer
    ensures buffer[..3 + |text|] == [STR_TAG] + Str16(text)
    ensures forall i :: 3 + |text| <= i < buffer.Length ==> buffer[i] == old(buffer[i])
  {
    WriteExact(buffer, 0, [STR_TAG]);
    WriteExact(buffer, 1, U16Be(|text|));
    WriteExact(buffer, 3, text);
    assert buffer[..3 + |text|] == buffer[..1] + buffer[1..3] + buffer[3..3 + |text|];
    assert buffer[..1] == [STR_TAG];
    assert buffer[1..3] == U16Be(|text|);
  }

  method WriteExact(dst: array<byte>, at: nat, src: seq<byte>)
    requires at + |src| <= dst.Length
    modifies dst
    ensures dst[at..at + |src|] == src
    ensures forall i :: 0 <= i < at || at + |src| <= i < dst.Length ==> dst[i] == old(dst[i])
  {
    forall i | 0 <= i < |src| {
      dst[at + i] := src[i];
    }
  }

  // ---- The derive macro's table of wire names ----

  datatype Variant = Variant(wireName: seq<byte>, isDefault: bool)

  datatype EnumTable = EnumTable(names: seq<seq<byte>>, default: nat, maxLen: nat)

  function WireNames(vs: seq<Variant>): (names: seq<seq<byte>>)
    ensures |names| == |vs|
    ensures forall i :: 0 <= i < |vs| ==> names[i] == vs[i].wireName
  {
    seq(|vs|, i requires 0 <= i < |vs| => vs[i].wireName)
  }

  predicate AtMostOneDefault(vs: seq<Variant>)
  {
    forall i, j :: 0 <= i < j < |vs| ==> !(vs[i].isDefault && vs[j].isDefault)
  }

  // The names are string literals, so they are UTF-8 already.
  method BuildEnumTable(vs: seq<Variant>) returns (r: Option<EnumTable>)
    requires forall i :: 0 <= i < |vs| ==> FromUtf8(vs[i].wireName).Valid?
    ensures r.Some? <==> NamesOk(WireNames(vs)) && AtMostOneDefault(vs)
    ensures r.Some? ==> r.value.names == WireNames(vs) && r.value.maxLen == LongestName(WireNames(vs))
    ensures r.Some? ==> r.value.default < |vs|
    ensures r.Some? ==> forall i :: 0 <= i < |vs| && vs[i].isDefault ==> i == r.value.default
    ensures r.Some? && !vs[r.value.default].isDefault ==> r.value.default == 0
  {
    if vs == [] {
      return None;
    }
    var maxLen := CheckNames(vs);
    if maxLen.None? {
      return None;
    }
    var default := PickDefault(vs);
    if default.None? {
      return None;
    }
    r := Some(EnumTable(WireNames(vs), default.value, maxLen.value));
  }

  // Validates every name, refuses duplicates and finds the longest.
  method CheckNames(vs: seq<Variant>) returns (r: Option<nat>)
    requires vs != [] && forall i :: 0 <= i < |vs| ==> FromUtf8(vs[i].wireName).Valid?
    ensures r.Some? <==> NamesOk(WireNames(vs))
    ensures r.Some? ==> r.value == LongestName(WireNames(vs))
  {
    ghost var names := WireNames(vs);
    var seen: set<seq<byte>> := {};
    var maxLen := 0;
    for i := 0 to |vs|
      invariant AcceptedNames(names[..i]) && Holds(seen, names[..i])
      invariant maxLen == LongestName(names[..i])
    {
      var name := vs[i].wireName;
      Unfold(names, i);
      var ok := Admit(seen, names[..i], name, names[i + 1..]);
      if !ok {
        return None;
      }
      seen := seen + {name};
      LongestExtends(names[..i], name);
      maxLen := if |name| > maxLen then |name| else maxLen;
    }
    assert names[..|vs|] == names;
    r := Some(maxLen);
  }

  ghost predicate Holds(seen: set<seq<byte>>, names: seq<seq<byte>>)
  {
    forall name :: name in seen <==> name in names
  }

  lemma Unfold(names: seq<seq<byte>>, i: nat)
    requires i < |names|
    ensures names[..i + 1] == names[..i] + [names[i]]
    ensures names == names[..i] + [names[i]] + names[i + 1..]
  {
  }

  method Admit(seen: set<seq<byte>>, ghost names: seq<seq<byte>>, name: seq<byte>, ghost rest: seq<seq<byte>>)
      returns (ok: bool)
    requires FromUtf8(name).Valid? && AcceptedNames(names) && Holds(seen, names)
    ensures ok ==> AcceptedNames(names + [name]) && Holds(seen + {name}, names + [name])
    ensures !ok ==> !AcceptedNames(names + [name] + rest)
  {
    OneMoreName(names, name, rest);
    ok := ValidateWireName(name);
    ok := ok && name !in seen;
  }

  // One more name is accepted exactly when it is valid and new; otherwise the
  // whole list is refused.
  lemma OneMoreName(names: seq<seq<byte>>, name: seq<byte>, rest: seq<seq<byte>>)
    requires AcceptedNames(names)
    ensures AcceptedNames(names + [name]) <==> NameOk(name) && name !in names
    ensures !AcceptedNames(names + [name]) ==> !AcceptedNames(names + [name] + rest)
  {
    var more, all := names + [name], names + [name] + rest;
    assert more[|names|] == name && forall i :: 0 <= i < |names| ==> more[i] == names[i];
    assert forall i :: 0 <= i < |more| ==> all[i] == more[i];
    if name in names {
      var i :| 0 <= i < |names| && names[i] == name;
      assert more[i] == more[|names|];
    }
  }

  lemma LongestExtends(names: seq<seq<byte>>, name: seq<byte>)
    ensures LongestName(names + [name]) == if |name| > LongestName(names) then |name| else LongestName(names)
  {
    assert (names + [name])[..|names|] == names;
  }

  // The marked variant, or the first one.
  method PickDefault(vs: seq<Variant>) returns (r: Option<nat>)
    requires vs != []
    ensures r.Some? <==> AtMostOneDefault(vs)
    ensures r.Some? ==> r.value < |vs|
    ensures r.Some? ==> forall i :: 0 <= i < |vs| && vs[i].isDefault ==> i == r.value
    ensures r.Some? && !vs[r.value].isDefault ==> r.value == 0
  {
    var default, found := 0, false;
    for i := 0 to |vs|
      invariant 0 <= default < |vs|
      invariant found ==> vs[default].isDefault && default < i
      invariant !found ==> default == 0
      invariant forall j :: 0 <= j < i && vs[j].isDefault ==> found && j == default
    {
      if vs[i].isDefault {
        if found {
          return None;
        }
        default, found := i, true;
      }
    }
    r := Some(default);
  }

  method ValidateWireName(name: seq<byte>) returns (ok: bool)
    requires FromUtf8(name).Valid?
    ensures ok <==> NameOk(name)
  {
    if name == [] {
      return false;
    }
    if 0 in name {
      return false;
    }
    ok := |name| <= 0xFFFF;
  }
}
