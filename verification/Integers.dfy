/** Integers of the smallest sufficient size, and their little-endian bytes (`src/integer.rs`). */
module Integers {
  import opened Types

  /** One above the largest value that `size` bytes can hold. */
  function Bound(size: nat): (n: nat)
    ensures n > 0
  {
    if size == 0 then 1 else 256 * Bound(size - 1)
  }

  lemma BoundValues()
    ensures Bound(1) == 0x100 && Bound(2) == 0x1_0000 && Bound(4) == 0x1_0000_0000
    ensures Bound(8) == 0x1_0000_0000_0000_0000
  {
    assert Bound(3) == 0x100_0000;
    assert Bound(4) == 0x1_0000_0000;
    assert Bound(5) == 0x100_0000_0000;
    assert Bound(6) == 0x1_0000_0000_0000;
    assert Bound(7) == 0x100_0000_0000_0000;
  }

  /** An unsigned integer tagged with the type that carries it. */
  datatype Integer = U8(val: nat) | U16(val: nat) | U32(val: nat) | U64(val: nat) {
    function Size(): (n: nat)
      ensures n in {1, 2, 4, 8}
    {
      match this
      case U8(_) => 1
      case U16(_) => 2
      case U32(_) => 4
      case U64(_) => 8
    }

    predicate Valid() {
      val < Bound(Size())
    }

    function ToFlag(): (bool, bool) {
      match this
      case U8(_) => (false, false)
      case U16(_) => (false, true)
      case U32(_) => (true, false)
      case U64(_) => (true, true)
    }

    static function FromFlag(flag: (bool, bool)): Integer {
      match flag
      case (false, false) => U8(0)
      case (false, true) => U16(0)
      case (true, false) => U32(0)
      case (true, true) => U64(0)
    }

    function WithValue(v: nat): Integer {
      match this
      case U8(_) => U8(v)
      case U16(_) => U16(v)
      case U32(_) => U32(v)
      case U64(_) => U64(v)
    }

    function ToLeBytes(): Bytes {
      LeBytes(val, Size())
    }

    /** The value as an `IpfiInteger` of the given width. Each tag is compared with each width, as the
        conditional compilation does: only a tag wider than the width needs its value checked. */
    function IntoInt(w: Width): Option<nat> {
      match this
      case U8(v) => Some(v)
      case U16(v) => if w.W8? && v > 0xFF then Nothing else Some(v)
      case U32(v) =>
        if w.W8? then (if v <= 0xFF then Some(v) else Nothing)
        else if w.W16? then (if v <= 0xFFFF then Some(v) else Nothing)
        else Some(v)
      case U64(v) =>
        if w.W8? then (if v <= 0xFF then Some(v) else Nothing)
        else if w.W16? then (if v <= 0xFFFF then Some(v) else Nothing)
        else if w.W32? then (if v <= 0xFFFF_FFFF then Some(v) else Nothing)
        else Some(v)
    }

    /** The value as a `usize` of the given pointer width. */
    function IntoUsize(ptr: Width): Option<nat> {
      match this
      case U8(v) => Some(v)
      case U16(v) => Some(v)
      case U32(v) => Some(v)
      case U64(v) => if ptr.W32? && v > 0xFFFF_FFFF then Nothing else Some(v)
    }
  }

  /** `get_as_smallest_int`, one branch per `int-*` feature. */
  function Smallest(w: Width, value: nat): Integer {
    match w
    case W8 => U8(value)
    case W16 => if value <= 0xFF then U8(value) else U16(value)
    case W32 => if value <= 0xFF then U8(value) else if value <= 0xFFFF then U16(value) else U32(value)
    case W64 =>
      if value <= 0xFF then U8(value)
      else if value <= 0xFFFF then U16(value)
      else if value <= 0xFFFF_FFFF then U32(value)
      else U64(value)
  }

  /** `get_as_smallest_int_from_usize`, for the two pointer widths. */
  function SmallestFromUsize(ptr: Width, value: nat): Integer {
    if ptr.W32? then
      (if value <= 0xFF then U8(value) else if value <= 0xFFFF then U16(value) else U32(value))
    else
      (if value <= 0xFF then U8(value)
       else if value <= 0xFFFF then U16(value)
       else if value <= 0xFFFF_FFFF then U32(value)
       else U64(value))
  }

  function LeBytes(v: nat, size: nat): (b: Bytes)
    ensures |b| == size
  {
    if size == 0 then [] else [v % 256] + LeBytes(v / 256, size - 1)
  }

  function FromLe(b: Bytes): (v: nat)
    ensures v < Bound(|b|)
  {
    if b == [] then 0 else b[0] + 256 * FromLe(b[1..])
  }

  lemma {:induction false} LeRoundTrip(v: nat, size: nat)
    requires v < Bound(size)
    ensures FromLe(LeBytes(v, size)) == v
  {
    if size > 0 {
      LeRoundTrip(v / 256, size - 1);
      assert LeBytes(v, size)[1..] == LeBytes(v / 256, size - 1);
    }
  }

  lemma {:induction false} LeBytesOfFromLe(b: Bytes)
    ensures LeBytes(FromLe(b), |b|) == b
  {
    if b != [] {
      var high := FromLe(b[1..]);
      LeBytesOfFromLe(b[1..]);
      assert FromLe(b) % 256 == b[0] && FromLe(b) / 256 == high;
      assert b == [b[0]] + b[1..];
    }
  }

  /** Any integer that holds the value is at least as long as the chosen one, and the chosen one holds it. */
  lemma SmallestIsSmallest(w: Width, i: Integer)
    requires i.Valid() && i.val < w.Limit()
    ensures var s := Smallest(w, i.val);
            s.val == i.val && s.Valid() && s.Size() <= i.Size() && (s.Size() == i.Size() ==> s == i)
  {
    BoundValues();
  }

  lemma SmallestUsizeIsSmallest(ptr: Width, i: Integer)
    requires ptr in {W32, W64} && i.Valid() && i.val < ptr.Limit()
    ensures var s := SmallestFromUsize(ptr, i.val);
            s.val == i.val && s.Valid() && s.Size() <= i.Size() && (s.Size() == i.Size() ==> s == i)
  {
    BoundValues();
  }

  /** A peer of width `w` accepts exactly the values that fit `w`, whatever tag carried them. */
  lemma IntoIntFits(w: Width, i: Integer)
    requires i.Valid()
    ensures i.IntoInt(w) == if i.val < w.Limit() then Some(i.val) else Nothing
  {
    BoundValues();
  }

  lemma IntoUsizeFits(ptr: Width, i: Integer)
    requires ptr in {W32, W64} && i.Valid()
    ensures i.IntoUsize(ptr) == if i.val < ptr.Limit() then Some(i.val) else Nothing
  {
    BoundValues();
  }

  /** A blocking reader over the bytes that are still to come. */
  class ByteReader {
    var rest: Bytes

    constructor (input: Bytes)
      ensures rest == input
    {
      rest := input;
    }

    /** `Read::read_exact`: all the bytes, or an end-of-file error after which the position is not relied on. */
    method ReadExact(n: nat) returns (r: Result<Bytes>)
      modifies this
      ensures |old(rest)| >= n ==> r == Ok(old(rest)[..n]) && rest == old(rest)[n..]
      ensures |old(rest)| < n ==> r == Err(UnexpectedEof) && |rest| <= |old(rest)|
    {
      if |rest| < n {
        rest := [];
        return Err(UnexpectedEof);
      }
      r := Ok(rest[..n]);
      rest := rest[n..];
    }
  }

  /** What populating an integer of this tag from the bytes gives, and the bytes after it. */
  function Populated(tag: Integer, s: Bytes): Option<(Integer, Bytes)> {
    var n := tag.Size();
    if |s| < n then Nothing else Some((tag.WithValue(FromLe(s[..n])), s[n..]))
  }

  method PopulateFromReader(tag: Integer, reader: ByteReader) returns (r: Result<Integer>)
    modifies reader
    ensures Populated(tag, old(reader.rest)).Some? ==>
              var (i, rest) := Populated(tag, old(reader.rest)).value;
              r == Ok(i) && reader.rest == rest
    ensures Populated(tag, old(reader.rest)).Nothing? ==> r == Err(UnexpectedEof)
    ensures |reader.rest| <= |old(reader.rest)|
  {
    match tag
    case U8(_) =>
      var buf := reader.ReadExact(1);
      if buf.Err? { return Err(buf.error); }
      r := Ok(U8(FromLe(buf.value)));
    case U16(_) =>
      var buf := reader.ReadExact(2);
      if buf.Err? { return Err(buf.error); }
      r := Ok(U16(FromLe(buf.value)));
    case U32(_) =>
      var buf := reader.ReadExact(4);
      if buf.Err? { return Err(buf.error); }
      r := Ok(U32(FromLe(buf.value)));
    case U64(_) =>
      var buf := reader.ReadExact(8);
      if buf.Err? { return Err(buf.error); }
      r := Ok(U64(FromLe(buf.value)));
  }

  lemma PopulatedValid(tag: Integer, s: Bytes)
    requires Populated(tag, s).Some?
    ensures var (i, rest) := Populated(tag, s).value;
            i.Valid() && i.Size() == tag.Size() && i.ToFlag() == tag.ToFlag() && s == i.ToLeBytes() + rest
  {
    LeBytesOfFromLe(s[..tag.Size()]);
  }

  lemma PopulatedOfBytes(i: Integer, tail: Bytes)
    requires i.Valid()
    ensures Populated(Integer.FromFlag(i.ToFlag()), i.ToLeBytes() + tail) == Some((i, tail))
  {
    LeRoundTrip(i.val, i.Size());
    var s := i.ToLeBytes() + tail;
    assert s[..i.Size()] == i.ToLeBytes();
    assert s[i.Size()..] == tail;
  }
}
