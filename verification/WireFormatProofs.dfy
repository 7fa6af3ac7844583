/** What the reader makes of what the writer wrote, and of everything else it accepts. */
module WireFormatProofs {
  import opened Types
  import opened Integers
  import opened WireFormat

  /** The tags and lengths a frame may be written with: any tag that holds its value. */
  predicate Carries(m: Message, p: Integer, c: Integer, n: Integer)
    requires m.Frame?
  {
    && p.Valid() && c.Valid() && n.Valid()
    && p.val == m.call.procedure && c.val == m.call.index && n.val == |m.payload|
  }

  function EncodeWith(m: Message, p: Integer, c: Integer, n: Integer): Bytes
    requires m.Frame?
  {
    [TypeByte(m.kind)] + EncodeBody(p, c, n, m.terminator, m.payload)
  }

  lemma FlagReads(p: Integer, c: Integer, n: Integer, t: Terminator)
    ensures var bits := BitsOf(Multiflag(p, c, n, t), 8);
            && (bits[0], bits[1]) == p.ToFlag() && (bits[2], bits[3]) == c.ToFlag() && (bits[4], bits[5]) == n.ToFlag()
            && TerminatorFromFlag((bits[6], bits[7])) == Ok(t)
  {
    BitsOfValue(FlagBits(p, c, n, t));
  }

  lemma PayloadReads(cfg: Config, m: Message, p: Integer, c: Integer, n: Integer, bits: seq<bool>, tail: Bytes)
    requires cfg.Valid() && m.Frame? && Carries(m, p, c, n)
    requires |bits| == 8 && (bits[4], bits[5]) == n.ToFlag()
    ensures var s := n.ToLeBytes() + (m.payload + tail);
            ParsePayload(cfg, m.kind, m.call, m.terminator, bits, s)
            == if |m.payload| < cfg.ptr.Limit() then Got(m, tail) else Bad(IdxTooBig, m.payload + tail)
  {
    PopulatedOfBytes(n, m.payload + tail);
    IntoUsizeFits(cfg.ptr, n);
    var s1 := m.payload + tail;
    assert s1[..|m.payload|] == m.payload && s1[|m.payload|..] == tail;
  }

  /** What of the fields of a frame is left when one of its integers turns out not to fit the reader: all that is behind
      that integer. */
  function BehindTooBig(reader: Config, m: Message, p: Integer, c: Integer, n: Integer): Bytes
    requires m.Frame?
  {
    if m.call.procedure >= reader.idx.Limit() then c.ToLeBytes() + (n.ToLeBytes() + m.payload)
    else if m.call.index >= reader.idx.Limit() then n.ToLeBytes() + m.payload
    else m.payload
  }

  lemma BehindAssociates(reader: Config, m: Message, p: Integer, c: Integer, n: Integer, tail: Bytes)
    requires m.Frame?
    ensures BehindTooBig(reader, m, p, c, n) + tail
         == if m.call.procedure >= reader.idx.Limit() then c.ToLeBytes() + (n.ToLeBytes() + (m.payload + tail))
            else if m.call.index >= reader.idx.Limit() then n.ToLeBytes() + (m.payload + tail)
            else m.payload + tail
  {
  }

  lemma IndicesRead(cfg: Config, m: Message, p: Integer, c: Integer, n: Integer, bits: seq<bool>, tail: Bytes)
    requires cfg.Valid() && m.Frame? && Carries(m, p, c, n)
    requires |bits| == 8 && (bits[0], bits[1]) == p.ToFlag() && (bits[2], bits[3]) == c.ToFlag()
    requires (bits[4], bits[5]) == n.ToFlag()
    ensures var r := ParseIndices(cfg, m.kind, m.terminator, bits,
                                  p.ToLeBytes() + (c.ToLeBytes() + (n.ToLeBytes() + (m.payload + tail))));
            r == if m.Writable(cfg) then Got(m, tail) else Bad(IdxTooBig, BehindTooBig(cfg, m, p, c, n) + tail)
  {
    hide Populated, ParsePayload, Integer.IntoInt, Integer.IntoUsize, Integer.ToLeBytes, Integer.FromFlag;
    hide Integer.ToFlag;
    hide BehindTooBig;
    BehindAssociates(cfg, m, p, c, n, tail);
    var s2 := n.ToLeBytes() + (m.payload + tail);
    PopulatedOfBytes(p, c.ToLeBytes() + s2);
    PopulatedOfBytes(c, s2);
    IntoIntFits(cfg.idx, p);
    IntoIntFits(cfg.idx, c);
    PayloadReads(cfg, m, p, c, n, bits, tail);
  }

  lemma ConcatAssociates(a: Bytes, b: Bytes, c: Bytes, d: Bytes, e: Bytes, f: Bytes, g: Bytes)
    ensures a + (b + (c + (d + (e + f)))) + g == a + (b + (c + (d + (e + (f + g)))))
  {
  }

  lemma EncodingAssociates(m: Message, p: Integer, c: Integer, n: Integer, tail: Bytes)
    requires m.Frame?
    ensures EncodeWith(m, p, c, n) + tail
         == [TypeByte(m.kind)] + ([Multiflag(p, c, n, m.terminator)]
            + (p.ToLeBytes() + (c.ToLeBytes() + (n.ToLeBytes() + (m.payload + tail)))))
  {
    ConcatAssociates([TypeByte(m.kind)], [Multiflag(p, c, n, m.terminator)], p.ToLeBytes(), c.ToLeBytes(),
                     n.ToLeBytes(), m.payload, tail);
  }

  /** The type byte and the multiflag decide how the fields are read. */
  lemma HeadReads(cfg: Config, moduleStyle: bool, kind: Kind, flag: Byte, t: Terminator, fields: Bytes)
    requires moduleStyle ==> kind.CallFrame?
    requires var bits := BitsOf(flag, 8); TerminatorFromFlag((bits[6], bits[7])) == Ok(t)
    ensures Parse(cfg, moduleStyle, [TypeByte(kind)] + ([flag] + fields))
            == ParseIndices(cfg, kind, t, BitsOf(flag, 8), fields)
  {
    var s1 := [flag] + fields;
    assert ([TypeByte(kind)] + s1)[1..] == s1 && s1[1..] == fields;
    assert ParseFlag(cfg, kind, s1) == ParseIndices(cfg, kind, t, BitsOf(flag, 8), fields);
  }

  /** The reader accepts a frame under every choice of tags that carries it, and it accepts one exactly when both
      indices fit its own `IpfiInteger` and the length its `usize`; otherwise it answers `IdxTooBig`, and has read up to
      the integer that does not fit. */
  lemma FrameReads(cfg: Config, moduleStyle: bool, m: Message, p: Integer, c: Integer, n: Integer, tail: Bytes)
    requires cfg.Valid() && m.Frame? && Carries(m, p, c, n)
    requires moduleStyle ==> m.kind.CallFrame?
    ensures var r := Parse(cfg, moduleStyle, EncodeWith(m, p, c, n) + tail);
            r == if m.Writable(cfg) then Got(m, tail) else Bad(IdxTooBig, BehindTooBig(cfg, m, p, c, n) + tail)
  {
    var flag := Multiflag(p, c, n, m.terminator);
    var fields := p.ToLeBytes() + (c.ToLeBytes() + (n.ToLeBytes() + (m.payload + tail)));
    FlagReads(p, c, n, m.terminator);
    HeadReads(cfg, moduleStyle, m.kind, flag, m.terminator, fields);
    IndicesRead(cfg, m, p, c, n, BitsOf(flag, 8), tail);
    EncodingAssociates(m, p, c, n, tail);
  }

  lemma SmallestCarries(cfg: Config, m: Message)
    requires cfg.Valid() && m.Frame? && m.Writable(cfg)
    ensures var p, c := Smallest(cfg.idx, m.call.procedure), Smallest(cfg.idx, m.call.index);
            var n := SmallestFromUsize(cfg.ptr, |m.payload|);
            Carries(m, p, c, n) && Encode(cfg, m) == EncodeWith(m, p, c, n)
  {
    BoundValues();
  }

  /** What another build leaves of a message that does not fit it. */
  function Unread(writer: Config, reader: Config, m: Message): Bytes
    requires m.Frame?
  {
    BehindTooBig(reader, m, Smallest(writer.idx, m.call.procedure), Smallest(writer.idx, m.call.index),
                 SmallestFromUsize(writer.ptr, |m.payload|))
  }

  /** The writer's bytes, read by a build of the same or another width, are the message with exactly the tail left,
      or are refused exactly when the message does not fit that build, right behind the integer that does not. */
  lemma PeerReads(writer: Config, reader: Config, moduleStyle: bool, m: Message, tail: Bytes)
    requires writer.Valid() && reader.Valid() && m.Writable(writer)
    requires moduleStyle ==> !(m.Frame? && m.kind.ResponseFrame?)
    ensures var r := Parse(reader, moduleStyle, Encode(writer, m) + tail);
            && (m.Writable(reader) ==> r == Got(m, tail))
            && (!m.Writable(reader) ==> m.Frame? && r == Bad(IdxTooBig, Unread(writer, reader, m) + tail))
  {
    if m.Frame? {
      SmallestCarries(writer, m);
      FrameReads(reader, moduleStyle, m, Smallest(writer.idx, m.call.procedure), Smallest(writer.idx, m.call.index),
                 SmallestFromUsize(writer.ptr, |m.payload|), tail);
    } else {
      assert (Encode(writer, m) + tail)[1..] == tail;
    }
  }

  // --- Whole streams ---

  predicate AllWritable(cfg: Config, ms: seq<Message>) {
    forall i :: 0 <= i < |ms| ==> ms[i].Writable(cfg)
  }

  function EncodeAll(cfg: Config, ms: seq<Message>): Bytes {
    if ms == [] then [] else Encode(cfg, ms[0]) + EncodeAll(cfg, ms[1..])
  }

  lemma {:induction false} EncodeAllMore(cfg: Config, ms: seq<Message>, more: seq<Message>)
    ensures EncodeAll(cfg, ms + more) == EncodeAll(cfg, ms) + EncodeAll(cfg, more)
    decreases |ms|
  {
    hide Encode;
    if ms == [] {
      assert ms + more == more;
    } else {
      assert (ms + more)[1..] == ms[1..] + more;
      EncodeAllMore(cfg, ms[1..], more);
    }
  }

  /** The bytes of a queue of encoded messages. */
  function Concat(queue: seq<Bytes>): Bytes {
    if queue == [] then [] else queue[0] + Concat(queue[1..])
  }

  /** Reads `n` messages one after the other. */
  function ParseMany(cfg: Config, moduleStyle: bool, n: nat, s: Bytes): Option<(seq<Message>, Bytes)> {
    if n == 0 then Some(([], s))
    else
      match Parse(cfg, moduleStyle, s)
      case Got(m, rest) =>
        (match ParseMany(cfg, moduleStyle, n - 1, rest)
         case Some((ms, end)) => Some(([m] + ms, end))
         case Nothing => Nothing)
      case _ => Nothing
  }

  /** The stream is self-delimiting: whatever follows the messages is left untouched. */
  lemma {:induction false} StreamRoundTrip(cfg: Config, moduleStyle: bool, ms: seq<Message>, tail: Bytes)
    requires cfg.Valid() && AllWritable(cfg, ms)
    requires moduleStyle ==> forall i :: 0 <= i < |ms| ==> !(ms[i].Frame? && ms[i].kind.ResponseFrame?)
    ensures ParseMany(cfg, moduleStyle, |ms|, EncodeAll(cfg, ms) + tail) == Some((ms, tail))
  {
    if ms != [] {
      var later := EncodeAll(cfg, ms[1..]) + tail;
      assert EncodeAll(cfg, ms) + tail == Encode(cfg, ms[0]) + later;
      PeerReads(cfg, cfg, moduleStyle, ms[0], later);
      StreamRoundTrip(cfg, moduleStyle, ms[1..], tail);
      assert ms == [ms[0]] + ms[1..];
    } else {
      assert EncodeAll(cfg, ms) + tail == tail;
    }
  }

  // --- Prefixes ---

  /** `r`, had `more` been waiting behind the bytes that produced it. */
  function Extended(r: Parsed, more: Bytes): Parsed {
    match r
    case Eof => Eof
    case Bad(e, after) => Bad(e, after + more)
    case Got(m, rest) => Got(m, rest + more)
  }

  lemma SliceExtends(s: Bytes, more: Bytes, n: nat)
    requires n <= |s|
    ensures (s + more)[..n] == s[..n] && (s + more)[n..] == s[n..] + more
  {
  }

  lemma PopulatedExtends(tag: Integer, s: Bytes, more: Bytes)
    requires Populated(tag, s).Some?
    ensures var (i, rest) := Populated(tag, s).value; Populated(tag, s + more) == Some((i, rest + more))
  {
    SliceExtends(s, more, tag.Size());
  }

  lemma PayloadExtends(cfg: Config, kind: Kind, call: Call, t: Terminator, bits: seq<bool>, s: Bytes, more: Bytes)
    requires |bits| == 8 && !ParsePayload(cfg, kind, call, t, bits, s).Eof?
    ensures ParsePayload(cfg, kind, call, t, bits, s + more)
            == Extended(ParsePayload(cfg, kind, call, t, bits, s), more)
  {
    var tag := Integer.FromFlag((bits[4], bits[5]));
    PopulatedExtends(tag, s, more);
    var (n, s1) := Populated(tag, s).value;
    if n.IntoUsize(cfg.ptr).Some? {
      var len := n.IntoUsize(cfg.ptr).value;
      SliceExtends(s1, more, len);
    }
  }

  lemma IndicesExtend(cfg: Config, kind: Kind, t: Terminator, bits: seq<bool>, s: Bytes, more: Bytes)
    requires |bits| == 8 && !ParseIndices(cfg, kind, t, bits, s).Eof?
    ensures ParseIndices(cfg, kind, t, bits, s + more) == Extended(ParseIndices(cfg, kind, t, bits, s), more)
  {
    var tag := Integer.FromFlag((bits[0], bits[1]));
    PopulatedExtends(tag, s, more);
    var (p, s1) := Populated(tag, s).value;
    if p.IntoInt(cfg.idx).Some? {
      var tag1 := Integer.FromFlag((bits[2], bits[3]));
      PopulatedExtends(tag1, s1, more);
      var (c, s2) := Populated(tag1, s1).value;
      if c.IntoInt(cfg.idx).Some? {
        PayloadExtends(cfg, kind, Call(p.IntoInt(cfg.idx).value, c.IntoInt(cfg.idx).value), t, bits, s2, more);
      }
    }
  }

  /** A verdict other than end-of-file does not depend on the bytes that are still to come. */
  lemma VerdictIsStable(cfg: Config, moduleStyle: bool, s: Bytes, more: Bytes)
    requires !Parse(cfg, moduleStyle, s).Eof?
    ensures Parse(cfg, moduleStyle, s + more) == Extended(Parse(cfg, moduleStyle, s), more)
  {
    var s1 := s[1..];
    assert (s + more)[1..] == s1 + more;
    if s[0] in {1, 2} && s1 != [] && !(s[0] == 2 && moduleStyle) {
      assert (s1 + more)[1..] == s1[1..] + more;
      var bits := BitsOf(s1[0], 8);
      var kind := if s[0] == 1 then CallFrame else ResponseFrame;
      match TerminatorFromFlag((bits[6], bits[7]))
      case Ok(t) => IndicesExtend(cfg, kind, t, bits, s1[1..], more);
      case Err(_) =>
    }
  }

  /** A message that has not fully arrived is end-of-file, never a shorter message. */
  lemma StrictPrefixIsEof(cfg: Config, moduleStyle: bool, m: Message, cut: nat)
    requires cfg.Valid() && m.Writable(cfg) && cut < |Encode(cfg, m)|
    requires moduleStyle ==> !(m.Frame? && m.kind.ResponseFrame?)
    ensures Parse(cfg, moduleStyle, Encode(cfg, m)[..cut]).Eof?
  {
    var b := Encode(cfg, m);
    PeerReads(cfg, cfg, moduleStyle, m, []);
    assert b + [] == b && b[..cut] + b[cut..] == b;
    if !Parse(cfg, moduleStyle, b[..cut]).Eof? {
      VerdictIsStable(cfg, moduleStyle, b[..cut], b[cut..]);
    }
  }

  // --- Other encodings ---

  lemma PayloadInverts(cfg: Config, kind: Kind, call: Call, t: Terminator, bits: seq<bool>, s: Bytes)
    returns (n: Integer)
    requires cfg.Valid() && |bits| == 8 && ParsePayload(cfg, kind, call, t, bits, s).Got?
    ensures var Got(m, rest) := ParsePayload(cfg, kind, call, t, bits, s);
            && m == Frame(kind, call, t, m.payload) && n.Valid() && n.val == |m.payload| < cfg.ptr.Limit()
            && n.ToFlag() == (bits[4], bits[5]) && s == n.ToLeBytes() + (m.payload + rest)
  {
    var tag := Integer.FromFlag((bits[4], bits[5]));
    PopulatedValid(tag, s);
    n := Populated(tag, s).value.0;
    var s1 := Populated(tag, s).value.1;
    IntoUsizeFits(cfg.ptr, n);
    assert s1 == s1[..n.val] + s1[n.val..];
  }

  lemma IndicesSplit(cfg: Config, kind: Kind, t: Terminator, bits: seq<bool>, s: Bytes)
    returns (p: Integer, c: Integer, more: Bytes)
    requires |bits| == 8 && ParseIndices(cfg, kind, t, bits, s).Got?
    ensures p.Valid() && c.Valid() && p.val < cfg.idx.Limit() && c.val < cfg.idx.Limit()
    ensures p.ToFlag() == (bits[0], bits[1]) && c.ToFlag() == (bits[2], bits[3])
    ensures s == p.ToLeBytes() + (c.ToLeBytes() + more)
    ensures ParseIndices(cfg, kind, t, bits, s) == ParsePayload(cfg, kind, Call(p.val, c.val), t, bits, more)
  {
    hide LeBytes, FromLe, ParsePayload;
    var tag0, tag1 := Integer.FromFlag((bits[0], bits[1])), Integer.FromFlag((bits[2], bits[3]));
    PopulatedValid(tag0, s);
    p := Populated(tag0, s).value.0;
    var s1 := Populated(tag0, s).value.1;
    PopulatedValid(tag1, s1);
    c := Populated(tag1, s1).value.0;
    more := Populated(tag1, s1).value.1;
    IntoIntFits(cfg.idx, p);
    IntoIntFits(cfg.idx, c);
  }

  lemma IndicesInvert(cfg: Config, kind: Kind, t: Terminator, bits: seq<bool>, s: Bytes)
    returns (p: Integer, c: Integer, n: Integer)
    requires cfg.Valid() && |bits| == 8 && ParseIndices(cfg, kind, t, bits, s).Got?
    ensures var Got(m, rest) := ParseIndices(cfg, kind, t, bits, s);
            && m.Frame? && m.kind == kind && m.terminator == t && m.Writable(cfg) && Carries(m, p, c, n)
            && p.ToFlag() == (bits[0], bits[1]) && c.ToFlag() == (bits[2], bits[3]) && n.ToFlag() == (bits[4], bits[5])
            && s == p.ToLeBytes() + (c.ToLeBytes() + (n.ToLeBytes() + (m.payload + rest)))
  {
    hide LeBytes, FromLe, ParsePayload, ParseIndices;
    var more;
    p, c, more := IndicesSplit(cfg, kind, t, bits, s);
    n := PayloadInverts(cfg, kind, Call(p.val, c.val), t, bits, more);
  }

  /** A frame was recognised by its type byte and its multiflag. */
  lemma HeadInverts(cfg: Config, moduleStyle: bool, s: Bytes)
    requires Parse(cfg, moduleStyle, s).Got? && Parse(cfg, moduleStyle, s).message.Frame?
    ensures |s| >= 2
    ensures var (m, bits) := (Parse(cfg, moduleStyle, s).message, BitsOf(s[1], 8));
            && s[0] == TypeByte(m.kind) && TerminatorFromFlag((bits[6], bits[7])) == Ok(m.terminator)
            && Parse(cfg, moduleStyle, s) == ParseIndices(cfg, m.kind, m.terminator, bits, s[2..])
  {
    hide BitsOf, ParsePayload, Populated;
    var s1 := s[1..];
    assert s1[1..] == s[2..];
    var bits := BitsOf(s1[0], 8);
    match TerminatorFromFlag((bits[6], bits[7]))
    case Ok(t) =>
      assert ParseFlag(cfg, CallFrame, s1) == ParseIndices(cfg, CallFrame, t, bits, s[2..]);
      assert ParseFlag(cfg, ResponseFrame, s1) == ParseIndices(cfg, ResponseFrame, t, bits, s[2..]);
      IndicesKeepHead(cfg, CallFrame, t, bits, s[2..]);
      IndicesKeepHead(cfg, ResponseFrame, t, bits, s[2..]);
    case Err(_) =>
  }

  lemma IndicesKeepHead(cfg: Config, kind: Kind, t: Terminator, bits: seq<bool>, s: Bytes)
    requires |bits| == 8
    ensures var r := ParseIndices(cfg, kind, t, bits, s);
            r.Got? ==> r.message.Frame? && r.message.kind == kind && r.message.terminator == t
  {
  }

  /** Whatever the reader accepts as a frame is one of the encodings of that frame. */
  lemma FrameInverts(cfg: Config, moduleStyle: bool, s: Bytes) returns (p: Integer, c: Integer, n: Integer)
    requires cfg.Valid() && Parse(cfg, moduleStyle, s).Got? && Parse(cfg, moduleStyle, s).message.Frame?
    ensures var Got(m, rest) := Parse(cfg, moduleStyle, s);
            m.Writable(cfg) && Carries(m, p, c, n) && s == EncodeWith(m, p, c, n) + rest
  {
    hide BitsOf, LeBytes, FromLe, ParseIndices, Parse;
    HeadInverts(cfg, moduleStyle, s);
    var Got(m, rest) := Parse(cfg, moduleStyle, s);
    p, c, n := IndicesInvert(cfg, m.kind, m.terminator, BitsOf(s[1], 8), s[2..]);
    FlagInverts(s[1], p, c, n, m.terminator);
    EncodingAssociates(m, p, c, n, rest);
    assert s == [s[0]] + ([s[1]] + s[2..]);
  }

  lemma FlagBitsRead(bits: seq<bool>, p: Integer, c: Integer, n: Integer, t: Terminator)
    requires |bits| == 8 && TerminatorFromFlag((bits[6], bits[7])) == Ok(t)
    requires (bits[0], bits[1]) == p.ToFlag() && (bits[2], bits[3]) == c.ToFlag() && (bits[4], bits[5]) == n.ToFlag()
    ensures bits == FlagBits(p, c, n, t)
  {
  }

  lemma FlagInverts(flag: Byte, p: Integer, c: Integer, n: Integer, t: Terminator)
    requires var bits := BitsOf(flag, 8);
             && (bits[0], bits[1]) == p.ToFlag() && (bits[2], bits[3]) == c.ToFlag() && (bits[4], bits[5]) == n.ToFlag()
             && TerminatorFromFlag((bits[6], bits[7])) == Ok(t)
    ensures flag == Multiflag(p, c, n, t)
  {
    hide BitsOf, BitsValue, Pow2;
    FlagBitsRead(BitsOf(flag, 8), p, c, n, t);
    Pow2Of8();
    ValueOfBits(flag, 8);
  }

  /** What was read of `s` when `rest` is left. */
  function Consumed(s: Bytes, rest: Bytes): Bytes {
    if |rest| <= |s| then s[..|s| - |rest|] else []
  }

  /** Writing again what was read never takes more bytes, and takes as many only if they are the same bytes. */
  lemma ReencodingIsMinimal(cfg: Config, moduleStyle: bool, s: Bytes)
    requires cfg.Valid() && Parse(cfg, moduleStyle, s).Got? && Parse(cfg, moduleStyle, s).message.Frame?
    ensures var Got(m, rest) := Parse(cfg, moduleStyle, s);
            var read := Consumed(s, rest);
            && m.Writable(cfg) && |rest| < |s| && s == read + rest
            && |Encode(cfg, m)| <= |read| && (|Encode(cfg, m)| == |read| ==> Encode(cfg, m) == read)
  {
    hide Parse, LeBytes, FromLe;
    var Got(m, rest) := Parse(cfg, moduleStyle, s);
    var p, c, n := FrameInverts(cfg, moduleStyle, s);
    SmallestCarries(cfg, m);
    SmallestIsSmallest(cfg.idx, p);
    SmallestIsSmallest(cfg.idx, c);
    SmallestUsizeIsSmallest(cfg.ptr, n);
    assert Consumed(s, rest) == EncodeWith(m, p, c, n);
  }

  /** Every read that succeeds consumes at least the type byte, so reading a finite input comes to an end. */
  lemma ReadingProgresses(cfg: Config, moduleStyle: bool, s: Bytes)
    requires cfg.Valid() && Parse(cfg, moduleStyle, s).Got?
    ensures |Parse(cfg, moduleStyle, s).rest| < |s|
  {
    if Parse(cfg, moduleStyle, s).message.Frame? {
      ReencodingIsMinimal(cfg, moduleStyle, s);
    }
  }
}
