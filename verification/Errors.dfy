// The errors of the framing layer and of the payload decoders.
module Errors {
  import opened Bytes

  datatype Direction = ClientToNode | NodeToClient

  datatype FrameError =
    | Truncated
    | LengthMismatch(declared: u16, actual: nat)
    | ReservedOpcode(opcode: byte)
    | UnknownOpcode(opcode: byte)
    | InvalidDirection(opcode: byte, direction: Direction)
    | ChecksumMismatch(sum: byte)

  datatype PayloadError =
    | InvalidLength(opcode: byte, expected: nat, actual: nat)
    | InternalLengthExceedsPayload
    | TrailingBytes(remaining: nat)
    | InvalidUtf8(validUpTo: nat, errorLen: Option<nat>)
    | StringContainsNul
    | InvalidBool(bits: byte)
    | InvalidKeyFlags(bits: byte)
    | InvalidValueKind(bits: byte)
    | UnknownPayloadOpcode(opcode: byte)
    | MalformedCaps
}
