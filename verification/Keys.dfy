// A typed key: its stored value, its wrapping generation, and the signals an
// accepted update raises.
module Keys {
  import opened Bytes
  import opened Utf8Stream
  import opened Messages
  import opened Requests
  import opened Values
  import opened Node

  // A signal without content: raising it again changes nothing, waiting for it
  // takes it.
  class NotifySignal {
    var raised: bool

    constructor ()
      ensures !raised
    {
      raised := false;
    }

    method Signal()
      modifies this
      ensures raised
    {
      raised := true;
    }

    // One poll of a wait.
    method Take() returns (taken: bool)
      modifies this
      ensures taken == old(raised) && !raised
    {
      taken := raised;
      raised := false;
    }
  }

  class Key {
    const name: seq<byte>
    const keyref: u16
    const perm: Perm
    const ktype: KeyType
    const changeSignal: NotifySignal
    var value: Typed
    var notifier: NotifySignal?
    var generation: nat

    ghost predicate Valid()
      reads this
    {
      && TypeOk(ktype) && Inhabits(ktype, value)
      && IsWireString(name) && |name| < 0x1_0000
      && generation < GENERATIONS
      && notifier != changeSignal
    }

    // A stored value that can be sent. Every update keeps this; an initial
    // value is stored as it is given.
    predicate Storable()
      reads this
    {
      ValidateTyped(value).Ok?
    }

    // The name's length and NUL bytes are asserted when the key is defined.
    constructor (name: seq<byte>, keyref: u16, perm: Perm, ktype: KeyType, initial: Typed)
      requires TypeOk(ktype) && Inhabits(ktype, initial) && IsWireString(name) && |name| < 0x1_0000
      ensures Valid() && fresh(changeSignal) && !changeSignal.raised
      ensures value == initial && generation == 0 && notifier == null
      ensures this.name == name && this.keyref == keyref && this.perm == perm && this.ktype == ktype
    {
      this.name, this.keyref, this.perm, this.ktype := name, keyref, perm, ktype;
      value, generation, notifier := initial, 0, null;
      changeSignal := new NotifySignal();
    }

    function Info(): (k: KeyConfig)
    {
      KeyConfig(keyref, name, perm, ktype)
    }

    ghost function Wire(): (v: Value)
      requires Valid()
      reads this
    {
      ToWire(ktype, value)
    }

    method AttachNotifier(server: NotifySignal)
      requires Valid() && server != changeSignal
      modifies this`notifier
      ensures Valid()
      ensures notifier == if perm.observable then server else old(notifier)
    {
      if perm.observable {
        notifier := server;
      }
    }

    // The signals an update raises.
    ghost function Signals(): (s: set<object>)
      reads this
    {
      {changeSignal} + (if perm.observable && notifier != null then {notifier} else {})
    }

    method NotifyChanged()
      requires Valid()
      modifies this`generation, Signals()
      ensures Valid()
      ensures generation == (old(generation) + 1) % GENERATIONS
      ensures changeSignal.raised && (perm.observable && notifier != null ==> notifier.raised)
    {
      generation := (generation + 1) % GENERATIONS;
      changeSignal.Signal();
      if !perm.observable {
        return;
      }
      if notifier != null {
        notifier.Signal();
      }
    }

    // Stores a validated value, then counts and signals the update.
    method Commit(v: Typed)
      requires Valid() && Inhabits(ktype, v)
      modifies this`value, this`generation, Signals()
      ensures Valid() && value == v
      ensures generation == (old(generation) + 1) % GENERATIONS
      ensures changeSignal.raised && (perm.observable && notifier != null ==> notifier.raised)
    {
      value := v;
      NotifyChanged();
    }

    // A refused value leaves value, generation and signals as they were.
    method TrySet(v: Typed) returns (r: Result<bool, WireValueError>)
      requires Valid() && Inhabits(ktype, v)
      modifies this`value, this`generation, Signals()
      ensures Valid()
      ensures r.Ok? <==> ValidateTyped(v).Ok?
      ensures r.Ok? ==> value == v && Storable() && r.value == (old(value) != v)
      ensures r.Ok? ==> generation == (old(generation) + 1) % GENERATIONS
      ensures r.Ok? ==> changeSignal.raised && (perm.observable && notifier != null ==> notifier.raised)
      ensures r.Err? ==> v.TStr? && r.error == if 0 in v.text then StringContainsNulByte else ValueTooLarge
      ensures r.Err? ==> value == old(value) && generation == old(generation)
      ensures r.Err? ==> changeSignal.raised == old(changeSignal.raised)
      ensures r.Err? && notifier != null ==> notifier.raised == old(notifier.raised)
    {
      var valid := ValidateTyped(v);
      if valid.Err? {
        return Err(valid.error);
      }
      var changed := value != v;
      Commit(v);
      r := Ok(changed);
    }

    // Sends the stored value into the buffer; fails only on an initial value
    // that does not validate.
    method EncodeCurrentValue(buffer: array<byte>) returns (r: Result<nat, WireValueError>)
      requires Valid() && buffer.Length >= MaxWireLen(ktype)
      modifies buffer
      ensures r.Ok? <==> Storable()
      ensures r.Ok? ==> r.value <= buffer.Length && buffer[..r.value] == ValueBytes(Wire())
    {
      r := EncodeInto(ktype, value, buffer);
    }

    // A WRITE. It fails exactly when decoding does, and then changes nothing;
    // otherwise the value stored and the value answered are the one written.
    method WriteAndEncode(w: WireValue, buffer: array<byte>) returns (r: Result<nat, WireValueError>)
      requires Valid() && WireOk(w) && buffer.Length >= MaxWireLen(ktype)
      modifies this`value, this`generation, Signals(), buffer
      ensures Valid()
      ensures r.Ok? <==> Accept(ktype, w).Some?
      ensures r.Ok? ==> Storable() && Wire() == Accept(ktype, w).value
      ensures r.Ok? ==> r.value <= buffer.Length && buffer[..r.value] == ValueBytes(Accept(ktype, w).value)
      ensures r.Ok? ==> generation == (old(generation) + 1) % GENERATIONS
      ensures r.Ok? ==> changeSignal.raised && (perm.observable && notifier != null ==> notifier.raised)
      ensures r.Err? ==> value == old(value) && generation == old(generation) && buffer[..] == old(buffer[..])
      ensures r.Err? ==> changeSignal.raised == old(changeSignal.raised)
      ensures r.Err? && notifier != null ==> notifier.raised == old(notifier.raised)
    {
      var decoded := DecodeTyped(ktype, w);
      if decoded.Err? {
        return Err(decoded.error);
      }
      var valid := ValidateTyped(decoded.value);
      if valid.Err? {
        return Err(valid.error);
      }
      DecodedIsStorable(ktype, w);
      AcceptedIsEchoed(ktype, w);
      Commit(decoded.value);
      r := EncodeInto(ktype, decoded.value, buffer);
    }
  }
}
