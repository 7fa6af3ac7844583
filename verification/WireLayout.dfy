/** Where each byte of a message is, in numbers: what another implementation of ipfiBuF has to agree with
    (`src/wire_utils.rs:28-52`, `src/wire_utils.rs:141-193`, and `src/integer.rs:77-143`). */
module WireLayout {
  import opened Types
  import opened Integers
  import opened WireFormat

  /** The number of bytes that a value is written with: the fewest of one, two, four and eight. */
  function Width(v: nat): nat {
    if v <= 0xFF then 1 else if v <= 0xFFFF then 2 else if v <= 0xFFFF_FFFF then 4 else 8
  }

  /** The two bits that stand for so many bytes. */
  function WidthCode(width: nat): nat {
    if width == 1 then 0 else if width == 4 then 1 else if width == 2 then 2 else 3
  }

  function TerminatorCode(t: Terminator): nat {
    match t
    case None => 0
    case Chunk => 1
    case Complete => 3
  }

  /** The digit of `v` to the base 256 with the weight 256 to the power of `i`. */
  function Digit(v: nat, i: nat): nat {
    if i == 0 then v % 256 else Digit(v / 256, i - 1)
  }

  lemma {:induction false} LeBytesAt(v: nat, size: nat, i: nat)
    requires i < size
    ensures LeBytes(v, size)[i] == Digit(v, i)
    decreases i
  {
    if i > 0 {
      LeBytesAt(v / 256, size - 1, i - 1);
    }
  }

  function Weighed(bit: bool, weight: nat): nat {
    if bit then weight else 0
  }

  lemma EightBits(bits: seq<bool>)
    requires |bits| == 8
    ensures BitsValue(bits)
            == Weighed(bits[0], 1) + Weighed(bits[1], 2) + Weighed(bits[2], 4) + Weighed(bits[3], 8)
               + Weighed(bits[4], 16) + Weighed(bits[5], 32) + Weighed(bits[6], 64) + Weighed(bits[7], 128)
  {
    hide BitsValue, Pow2, Weighed;
    NoBits(bits);
    Weights();
    HighBit(bits, 0);
    HighBit(bits, 1);
    HighBit(bits, 2);
    HighBit(bits, 3);
    HighBit(bits, 4);
    HighBit(bits, 5);
    HighBit(bits, 6);
    HighBit(bits, 7);
    assert bits[..8] == bits;
  }

  lemma NoBits(bits: seq<bool>)
    ensures BitsValue(bits[..0]) == 0
  {
  }

  lemma HighBit(bits: seq<bool>, k: nat)
    requires k < |bits|
    ensures BitsValue(bits[..k + 1]) == BitsValue(bits[..k]) + Weighed(bits[k], Pow2(k))
  {
    assert bits[..k + 1] == bits[..k] + [bits[k]];
    BitsValueAppend(bits[..k], bits[k]);
  }

  lemma Weights()
    ensures Pow2(0) == 1 && Pow2(1) == 2 && Pow2(2) == 4 && Pow2(3) == 8
    ensures Pow2(4) == 16 && Pow2(5) == 32 && Pow2(6) == 64 && Pow2(7) == 128
  {
    assert Pow2(2) == 4;
    assert Pow2(4) == 16;
    assert Pow2(6) == 64;
  }

  lemma IntegerCode(i: Integer)
    ensures var (f, code) := (i.ToFlag(), WidthCode(i.Size()));
            && Weighed(f.0, 1) + Weighed(f.1, 2) == code && Weighed(f.0, 4) + Weighed(f.1, 8) == 4 * code
            && Weighed(f.0, 16) + Weighed(f.1, 32) == 16 * code
  {
  }

  lemma MultiflagValue(p: Integer, c: Integer, n: Integer, t: Terminator)
    ensures Multiflag(p, c, n, t)
            == WidthCode(p.Size()) + 4 * WidthCode(c.Size()) + 16 * WidthCode(n.Size()) + 64 * TerminatorCode(t)
  {
    EightBits(FlagBits(p, c, n, t));
    IntegerCode(p);
    IntegerCode(c);
    IntegerCode(n);
    var f := TerminatorToFlag(t);
    assert Weighed(f.0, 64) + Weighed(f.1, 128) == 64 * TerminatorCode(t);
    hide BitsValue, Weighed, WidthCode, TerminatorCode, TerminatorToFlag, Integer.ToFlag, Integer.Size;
  }

  lemma SizesChosen(cfg: Config, m: Message)
    requires m.Frame? && m.Writable(cfg) && cfg.Valid()
    ensures var (p, c) := (Smallest(cfg.idx, m.call.procedure), Smallest(cfg.idx, m.call.index));
            var n := SmallestFromUsize(cfg.ptr, |m.payload|);
            && p.Size() == Width(m.call.procedure) && c.Size() == Width(m.call.index) && n.Size() == Width(|m.payload|)
            && p.val == m.call.procedure && c.val == m.call.index && n.val == |m.payload|
  {
  }

  /** The bytes are the digits of the value, the lowest first. */
  predicate LittleEndian(b: Bytes, v: nat) {
    forall i :: 0 <= i < |b| ==> b[i] == Digit(v, i)
  }

  lemma IntegersAreLittleEndian(n: Integer)
    ensures LittleEndian(n.ToLeBytes(), n.val)
  {
    forall i | 0 <= i < n.Size() ensures n.ToLeBytes()[i] == Digit(n.val, i) {
      LeBytesAt(n.val, n.Size(), i);
    }
  }

  /** A frame, byte by byte: the type; the multiflag, which gives the number of bytes of the three integers, two bits
      each, the procedure first, and the terminator in its two high bits; the procedure, the call and the number of
      payload bytes, each in little-endian order; and the payload. */
  lemma FrameLayout(cfg: Config, m: Message)
    requires m.Frame? && m.Writable(cfg) && cfg.Valid()
    ensures var b := Encode(cfg, m);
            var (p, c, n) := (Width(m.call.procedure), Width(m.call.index), Width(|m.payload|));
            && |b| == 2 + p + c + n + |m.payload|
            && b[0] == (if m.kind.CallFrame? then 1 else 2)
            && b[1] == WidthCode(p) + 4 * WidthCode(c) + 16 * WidthCode(n) + 64 * TerminatorCode(m.terminator)
            && LittleEndian(b[2..2 + p], m.call.procedure)
            && LittleEndian(b[2 + p..2 + p + c], m.call.index)
            && LittleEndian(b[2 + p + c..2 + p + c + n], |m.payload|)
            && b[2 + p + c + n..] == m.payload
  {
    hide LeBytes, LittleEndian, Multiflag, Smallest, SmallestFromUsize;
    var (p, c) := (Smallest(cfg.idx, m.call.procedure), Smallest(cfg.idx, m.call.index));
    var n := SmallestFromUsize(cfg.ptr, |m.payload|);
    SizesChosen(cfg, m);
    MultiflagValue(p, c, n, m.terminator);
    IntegersAreLittleEndian(p);
    IntegersAreLittleEndian(c);
    IntegersAreLittleEndian(n);
    PartsAt([TypeByte(m.kind)], [Multiflag(p, c, n, m.terminator)], p.ToLeBytes(), c.ToLeBytes(), n.ToLeBytes(),
            m.payload);
  }

  lemma PartsAt(ty: Bytes, flag: Bytes, p: Bytes, c: Bytes, n: Bytes, payload: Bytes)
    requires |ty| == 1 && |flag| == 1
    ensures var b := ty + (flag + (p + (c + (n + payload))));
            && |b| == 2 + |p| + |c| + |n| + |payload| && b[0] == ty[0] && b[1] == flag[0]
            && b[2..2 + |p|] == p
            && b[2 + |p|..2 + |p| + |c|] == c
            && b[2 + |p| + |c|..2 + |p| + |c| + |n|] == n
            && b[2 + |p| + |c| + |n|..] == payload
  {
  }

  /** The two signals are one byte each. */
  lemma SignalLayout(cfg: Config)
    ensures Encode(cfg, Termination) == [0] && Encode(cfg, EndOfInput) == [3]
  {
  }
}
