/** The vocabulary shared by every layer: bytes, index widths, terminators, lock states and errors. */
module Types {

  type Byte = x: int | 0 <= x < 256
  type Bytes = seq<Byte>

  /** The integer types a build can be configured with (one `int-*` feature), also used for the pointer width. */
  datatype Width = W8 | W16 | W32 | W64 {
    /** One above the largest value of an unsigned integer of this width. */
    function Limit(): (n: nat)
      ensures n >= 256
    {
      match this
      case W8 => 0x100
      case W16 => 0x1_0000
      case W32 => 0x1_0000_0000
      case W64 => 0x1_0000_0000_0000_0000
    }
  }

  /** A build of the library: the width of `IpfiInteger` and that of `usize` (32 or 64 bits).
      Indices of 64 bits are compiled on 64-bit platforms only. */
  datatype Config = Config(idx: Width, ptr: Width) {
    predicate Valid() {
      ptr.W64? || (ptr.W32? && !idx.W64?)
    }
  }

  /** A procedure index together with a call index: what both ends of a wire use to name a call. */
  datatype Call = Call(procedure: nat, index: nat)

  /** A call as seen by an interface, which must also tell its wires apart. */
  datatype Key = Key(call: Call, wire: nat)

  datatype Terminator = Complete | Chunk | None

  datatype LockState = Incomplete | Completed | Poisoned

  datatype Error =
    | AlreadyCompleted(index: nat)
    | OutOfBounds(index: nat)
    | NoResponseBuffer(call: Call)
    | ZeroLengthInNonTerminating
    | UnexpectedEof
    | NoSuchProcedure(procedure: nat)
    | NoCallBuffer(index: nat)
    | CallBufferIncomplete(index: nat)
    | CallBufferPoisoned(index: nat)
    | WireTerminated
    | CallFromModule
    | IdxTooBig
    | InvalidTerminator
    | LockPoisoned(index: nat)
    | ProcedureFailed

  datatype Result<+T> = Ok(value: T) | Err(error: Error)

  datatype Option<+T> = Some(value: T) | Nothing
}
