/** ipfiBuF, the binary format of messages: the writer of `src/wire_utils.rs` and the reader that
    `Wire::receive_one` (`src/wire_common.rs`) runs before it acts on a message. */
module WireFormat {
  import opened Types
  import opened Integers

  // --- Multiflags ---

  function Pow2(i: nat): (p: nat)
    ensures p > 0
  {
    if i == 0 then 1 else 2 * Pow2(i - 1)
  }

  /** `v >> i`. */
  function Shr(v: nat, i: nat): nat {
    if i == 0 then v else Shr(v / 2, i - 1)
  }

  /** Bit `i` of `v`, as `(v >> i) & 1 != 0`. */
  predicate Bit(v: nat, i: nat) {
    Shr(v, i) % 2 != 0
  }

  /** The number whose bit `i` is `bits[i]`. */
  function BitsValue(bits: seq<bool>): (v: nat)
    ensures v < Pow2(|bits|)
  {
    if bits == [] then 0 else (if bits[0] then 1 else 0) + 2 * BitsValue(bits[1..])
  }

  /** The low `n` bits of `v`. */
  function BitsOf(v: nat, n: nat): (bits: seq<bool>)
    ensures |bits| == n
  {
    if n == 0 then [] else [v % 2 != 0] + BitsOf(v / 2, n - 1)
  }

  lemma {:induction false} BitsOfAt(v: nat, n: nat, i: nat)
    requires i < n
    ensures BitsOf(v, n)[i] == Bit(v, i)
  {
    if i > 0 {
      BitsOfAt(v / 2, n - 1, i - 1);
    }
  }

  lemma {:induction false} ValueOfBits(v: nat, n: nat)
    requires v < Pow2(n)
    ensures BitsValue(BitsOf(v, n)) == v
  {
    if n > 0 {
      ValueOfBits(v / 2, n - 1);
      assert BitsOf(v, n)[1..] == BitsOf(v / 2, n - 1);
    }
  }

  lemma {:induction false} BitsOfValue(bits: seq<bool>)
    ensures BitsOf(BitsValue(bits), |bits|) == bits
  {
    if bits != [] {
      BitsOfValue(bits[1..]);
      assert bits == [bits[0]] + bits[1..];
    }
  }

  lemma {:induction false} BitsValueAppend(bits: seq<bool>, b: bool)
    ensures BitsValue(bits + [b]) == BitsValue(bits) + if b then Pow2(|bits|) else 0
  {
    if bits != [] {
      BitsValueAppend(bits[1..], b);
      assert (bits + [b])[1..] == bits[1..] + [b];
    }
  }

  lemma Pow2Of8()
    ensures Pow2(8) == 256
  {
    assert Pow2(4) == 16;
    assert Pow2(6) == 64;
  }

  /** `bool_array_to_u8`. The bit being set is clear beforehand, so `|=` adds its weight. */
  method BoolArrayToU8(arr: seq<bool>) returns (result: Byte)
    requires |arr| == 8
    ensures result == BitsValue(arr)
    ensures forall i :: 0 <= i < 8 ==> Bit(result, i) == arr[i]
  {
    Pow2Of8();
    var r: nat := 0;
    for i := 0 to 8
      invariant r == BitsValue(arr[..i])
    {
      BitsValueAppend(arr[..i], arr[i]);
      assert arr[..i + 1] == arr[..i] + [arr[i]];
      if arr[i] {
        r := r + Pow2(i);
      }
    }
    assert arr[..8] == arr;
    result := r;
    BitsOfValue(arr);
    forall i | 0 <= i < 8 ensures Bit(result, i) == arr[i] {
      BitsOfAt(result, 8, i);
    }
  }

  /** `u8_to_bool_array`. */
  method U8ToBoolArray(value: Byte) returns (result: seq<bool>)
    ensures result == BitsOf(value, 8)
    ensures BitsValue(result) == value
  {
    result := [false, false, false, false, false, false, false, false];
    for i := 0 to 8
      invariant |result| == 8
      invariant forall j :: 0 <= j < i ==> result[j] == Bit(value, j)
    {
      result := result[i := Shr(value, i) % 2 != 0];
    }
    forall j | 0 <= j < 8 ensures result[j] == BitsOf(value, 8)[j] {
      BitsOfAt(value, 8, j);
    }
    Pow2Of8();
    ValueOfBits(value, 8);
  }

  function TerminatorToFlag(t: Terminator): (bool, bool) {
    match t
    case Complete => (true, true)
    case Chunk => (true, false)
    case None => (false, false)
  }

  /** One of the four flags is not a terminator. */
  function TerminatorFromFlag(flag: (bool, bool)): Result<Terminator> {
    match flag
    case (true, true) => Ok(Complete)
    case (true, false) => Ok(Chunk)
    case (false, false) => Ok(None)
    case (false, true) => Err(InvalidTerminator)
  }

  function FlagBits(procedure: Integer, index: Integer, length: Integer, t: Terminator): (bits: seq<bool>)
    ensures |bits| == 8
  {
    var (f1, f2, f3, f4) := (procedure.ToFlag(), index.ToFlag(), length.ToFlag(), TerminatorToFlag(t));
    [f1.0, f1.1, f2.0, f2.1, f3.0, f3.1, f4.0, f4.1]
  }

  /** `make_multiflag` as a value. */
  function Multiflag(procedure: Integer, index: Integer, length: Integer, t: Terminator): Byte {
    Pow2Of8();
    BitsValue(FlagBits(procedure, index, length, t))
  }

  method MakeMultiflag(procedure: Integer, index: Integer, length: Integer, t: Terminator) returns (flag: Byte)
    ensures flag == Multiflag(procedure, index, length, t)
    ensures BitsOf(flag, 8) == FlagBits(procedure, index, length, t)
  {
    var arr := FlagBits(procedure, index, length, t);
    flag := BoolArrayToU8(arr);
    BitsOfValue(arr);
  }

  // --- Messages ---

  datatype Kind = CallFrame | ResponseFrame

  /** What travels down a wire. A frame is a `Call` or a `Response`, whose layouts differ in the type byte only.
      `Unhandled` is what a reader makes of a type byte that it skips; the library never writes one. */
  datatype Message =
    | Termination
    | Frame(kind: Kind, call: Call, terminator: Terminator, payload: Bytes)
    | EndOfInput
    | Unhandled(kindByte: Byte)
  {
    /** The indices are `IpfiInteger`s and the payload is a vector of the writing build. */
    predicate Writable(cfg: Config) {
      match this
      case Frame(_, call, _, payload) =>
        call.procedure < cfg.idx.Limit() && call.index < cfg.idx.Limit() && |payload| < cfg.ptr.Limit()
      case Unhandled(_) => false
      case _ => true
    }
  }

  function TypeByte(kind: Kind): Byte {
    match kind
    case CallFrame => 1
    case ResponseFrame => 2
  }

  function EncodeBody(p: Integer, c: Integer, n: Integer, t: Terminator, payload: Bytes): Bytes {
    [Multiflag(p, c, n, t)] + (p.ToLeBytes() + (c.ToLeBytes() + (n.ToLeBytes() + payload)))
  }

  /** The bytes of a message. */
  function Encode(cfg: Config, m: Message): (b: Bytes)
    ensures |b| > 0
  {
    match m
    case Termination => [0]
    case EndOfInput => [3]
    case Unhandled(ty) => [ty]
    case Frame(kind, call, t, payload) =>
      [TypeByte(kind)] + EncodeBody(Smallest(cfg.idx, call.procedure), Smallest(cfg.idx, call.index),
                                    SmallestFromUsize(cfg.ptr, |payload|), t, payload)
  }

  /** `Message::to_bytes`, which grows its buffer field by field. */
  method ToBytes(cfg: Config, m: Message) returns (buf: Bytes)
    requires !m.Unhandled?
    ensures buf == Encode(cfg, m)
  {
    buf := [];
    match m
    case Termination => buf := buf + [0];
    case EndOfInput => buf := buf + [3];
    case Frame(kind, call, t, payload) =>
      match kind {
        case CallFrame => buf := buf + [1];
        case ResponseFrame => buf := buf + [2];
      }
      var procedure := Smallest(cfg.idx, call.procedure);
      var index := Smallest(cfg.idx, call.index);
      var length := SmallestFromUsize(cfg.ptr, |payload|);
      var flag := MakeMultiflag(procedure, index, length, t);
      buf := buf + [flag];
      buf := buf + procedure.ToLeBytes();
      buf := buf + index.ToLeBytes();
      buf := buf + length.ToLeBytes();
      if payload != [] {
        buf := buf + payload;
      }
      ConcatSix([TypeByte(kind)], [flag], procedure.ToLeBytes(), index.ToLeBytes(), length.ToLeBytes(), payload);
  }

  lemma ConcatSix(a: Bytes, b: Bytes, c: Bytes, d: Bytes, e: Bytes, f: Bytes)
    ensures [] + a + b + c + d + e + f == a + (b + (c + (d + (e + f))))
    ensures f == [] ==> [] + a + b + c + d + e == a + (b + (c + (d + (e + f))))
  {
  }

  // --- Reading ---

  /** What reading one message from a byte string comes to. */
  datatype Parsed = Eof | Bad(error: Error, after: Bytes) | Got(message: Message, rest: Bytes)

  function Parse(cfg: Config, moduleStyle: bool, s: Bytes): (r: Parsed)
    ensures r.Bad? ==> r.error in {InvalidTerminator, IdxTooBig}
  {
    if s == [] then Eof
    else if s[0] == 2 && moduleStyle then Got(Unhandled(s[0]), s[1..])
    else if s[0] == 1 then ParseFlag(cfg, CallFrame, s[1..])
    else if s[0] == 2 then ParseFlag(cfg, ResponseFrame, s[1..])
    else if s[0] == 3 then Got(EndOfInput, s[1..])
    else if s[0] == 0 then Got(Termination, s[1..])
    else Got(Unhandled(s[0]), s[1..])
  }

  function ParseFlag(cfg: Config, kind: Kind, s: Bytes): (r: Parsed)
    ensures r.Bad? ==> r.error in {InvalidTerminator, IdxTooBig}
  {
    if s == [] then Eof
    else
      var bits := BitsOf(s[0], 8);
      match TerminatorFromFlag((bits[6], bits[7]))
      case Err(e) => Bad(e, s[1..])
      case Ok(t) => ParseIndices(cfg, kind, t, bits, s[1..])
  }

  function ParseIndices(cfg: Config, kind: Kind, t: Terminator, bits: seq<bool>, s: Bytes): (r: Parsed)
    requires |bits| == 8
    ensures r.Bad? ==> r.error == IdxTooBig
  {
    match Populated(Integer.FromFlag((bits[0], bits[1])), s)
    case Nothing => Eof
    case Some((p, s1)) =>
      if p.IntoInt(cfg.idx).Nothing? then Bad(IdxTooBig, s1)
      else
        match Populated(Integer.FromFlag((bits[2], bits[3])), s1)
        case Nothing => Eof
        case Some((c, s2)) =>
          if c.IntoInt(cfg.idx).Nothing? then Bad(IdxTooBig, s2)
          else ParsePayload(cfg, kind, Call(p.IntoInt(cfg.idx).value, c.IntoInt(cfg.idx).value), t, bits, s2)
  }

  function ParsePayload(cfg: Config, kind: Kind, call: Call, t: Terminator, bits: seq<bool>, s: Bytes): (r: Parsed)
    requires |bits| == 8
    ensures r.Bad? ==> r.error == IdxTooBig
  {
    match Populated(Integer.FromFlag((bits[4], bits[5])), s)
    case Nothing => Eof
    case Some((n, s1)) =>
      match n.IntoUsize(cfg.ptr)
      case Nothing => Bad(IdxTooBig, s1)
      case Some(len) =>
        if |s1| < len then Eof else Got(Frame(kind, call, t, s1[..len]), s1[len..])
  }
}
