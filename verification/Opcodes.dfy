// Opcode classes and direction rules.
module Opcodes {
  import opened Bytes
  import opened Errors

  const PING: byte := 0x50 // 'P'
  const IDENTIFY: byte := 0x49 // 'I'
  const GETKEYTABLEN: byte := 0x43 // 'C'
  const GETKEY: byte := 0x53 // 'S'
  const GET: byte := 0x47 // 'G'
  const WRITE: byte := 0x57 // 'W'
  const OBSERVE: byte := 0x4e // 'N'
  const UNOBSERVE: byte := 0x55 // 'U'
  const GETCAPS: byte := 0x3f // '?'
  const OK: byte := 0x6b // 'k'
  const IDENTIFIED: byte := 0x69 // 'i'
  const KEYTABLEN: byte := 0x63 // 'c'
  const KEY: byte := 0x73 // 's'
  const VALUE: byte := 0x67 // 'g'
  const WRITTEN: byte := 0x77 // 'w'
  const CAPS: byte := 0x3a // ':'
  const ERROR: byte := 0x40 // '@'
  const CHANGED: byte := 0x21 // '!'

  datatype OpcodeClass =
    | RequestClass
    | OrdinaryResponseClass
    | ErrorResponseClass
    | ChangedNotificationClass
    | CompatibilityRequestClass
    | CompatibilityResponseClass
    | Reserved

  function Class(op: byte): (c: OpcodeClass)
  {
    if 0x41 <= op <= 0x5a then RequestClass
    else if 0x61 <= op <= 0x7a then OrdinaryResponseClass
    else if op == ERROR then ErrorResponseClass
    else if op == CHANGED then ChangedNotificationClass
    else if op == GETCAPS then CompatibilityRequestClass
    else if op == CAPS then CompatibilityResponseClass
    else Reserved
  }

  predicate IsDefined(op: byte)
  {
    op in ClientOpcodes() || op in NodeOpcodes()
  }

  function ClientOpcodes(): (ops: set<byte>)
  {
    {PING, IDENTIFY, GETKEYTABLEN, GETKEY, GET, WRITE, OBSERVE, UNOBSERVE, GETCAPS}
  }

  function NodeOpcodes(): (ops: set<byte>)
  {
    {OK, IDENTIFIED, KEYTABLEN, KEY, VALUE, WRITTEN, CAPS, ERROR, CHANGED}
  }

  function ExpectedOrdinaryResponse(op: byte): (r: Option<byte>)
  {
    if op == PING || op == OBSERVE || op == UNOBSERVE then Some(OK)
    else if op == IDENTIFY then Some(IDENTIFIED)
    else if op == GETKEYTABLEN then Some(KEYTABLEN)
    else if op == GETKEY then Some(KEY)
    else if op == GET then Some(VALUE)
    else if op == WRITE then Some(WRITTEN)
    else None
  }

  function RequiredDirection(op: byte): (d: Option<Direction>)
  {
    match Class(op)
    case RequestClass => Some(ClientToNode)
    case CompatibilityRequestClass => Some(ClientToNode)
    case Reserved => None
    case _ => Some(NodeToClient)
  }

  // The class, definedness and direction checks together accept exactly the
  // opcodes that the direction's sender owns.
  function Validate(op: byte, direction: Direction): (r: Result<(), FrameError>)
    ensures direction == ClientToNode ==> (r.Ok? <==> op in ClientOpcodes())
    ensures direction == NodeToClient ==> (r.Ok? <==> op in NodeOpcodes())
    ensures r.Err? ==> r.error.ReservedOpcode? || r.error.UnknownOpcode? || r.error.InvalidDirection?
  {
    if Class(op) == Reserved then Err(ReservedOpcode(op))
    else if !IsDefined(op) then Err(UnknownOpcode(op))
    else if RequiredDirection(op) == Some(direction) then Ok(())
    else Err(InvalidDirection(op, direction))
  }
}
