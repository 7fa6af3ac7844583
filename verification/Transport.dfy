/** Byte transport refines message transport: filling a wire from the bytes that a peer has flushed is handling the
    peer's messages one after the other. */
module Transport {
  import opened Types
  import opened Stores
  import opened WireFormat
  import opened WireFormatProofs
  import opened Wires
  import opened Hosts
  import opened HostCalls
  import opened HostSteps
  import opened Queues

  /** Every message is handled without an error, and none of them stops the receiver. */
  predicate Smooth(procedures: Procedures, s: Store, w: Wire, ms: seq<Message>, order: seq<Call>)
    requires s.Valid()
    decreases |ms|
  {
    ms == []
    || (var o := Handle(procedures, s, w, ms[0], order);
        HandleKeeps(procedures, s, w, ms[0], order);
        o.result.Ok? && o.result.value.Some? && Smooth(procedures, o.store, o.wire, ms[1..], order))
  }

  /** The store and the wire after handling messages one by one. */
  function HandledAll(procedures: Procedures, s: Store, w: Wire, ms: seq<Message>, order: seq<Call>): (r: (Store, Wire))
    requires s.Valid()
    ensures r.0.Valid()
    decreases |ms|
  {
    if ms == [] then (s, w)
    else
      var o := Handle(procedures, s, w, ms[0], order);
      HandleKeeps(procedures, s, w, ms[0], order);
      HandledAll(procedures, o.store, o.wire, ms[1..], order)
  }

  predicate Readable(cfg: Config, moduleStyle: bool, ms: seq<Message>) {
    && AllWritable(cfg, ms)
    && (moduleStyle ==> forall i :: 0 <= i < |ms| ==> !(ms[i].Frame? && ms[i].kind.ResponseFrame?))
  }

  /** Handling messages one after the other, with what a reader would have left: `tail` follows them. */
  function FillMessages(procedures: Procedures, s: Store, w: Wire, writer: Config, ms: seq<Message>, tail: Bytes,
                        order: seq<Call>): Filled
    requires s.Valid() && w.cfg.Valid()
    decreases |ms|
  {
    if ms == [] then FillLoop(procedures, s, w, tail, order)
    else
      var (o, rest) := (Handle(procedures, s, w, ms[0], order), EncodeAll(writer, ms[1..]) + tail);
      HandleKeeps(procedures, s, w, ms[0], order);
      match o.result
      case Ok(Nothing) => Filled(o.store, o.wire, Ok(()), rest)
      case Ok(Some(_)) => FillMessages(procedures, o.store, o.wire, writer, ms[1..], tail, order)
      case Err(UnexpectedEof) =>
        var (s1, w1) := MarkTerminated(o.store, o.wire, order);
        Filled(s1, w1, Err(UnexpectedEof), rest)
      case Err(e) => Filled(o.store, o.wire, Err(e), rest)
  }

  /** On the bytes of any messages, written by a build of the same or another width, `fill` handles the messages in
      order up to the first one that stops it or fails, and leaves exactly what follows that one. */
  lemma {:induction false} FillHandlesInOrder(procedures: Procedures, s: Store, w: Wire, writer: Config,
                                              ms: seq<Message>, tail: Bytes, order: seq<Call>)
    requires s.Valid() && w.cfg.Valid() && writer.Valid()
    requires AllWritable(writer, ms) && Readable(w.cfg, w.moduleStyle, ms)
    ensures FillLoop(procedures, s, w, EncodeAll(writer, ms) + tail, order)
            == FillMessages(procedures, s, w, writer, ms, tail, order)
    decreases |ms|
  {
    hide Parse, Handle, Encode, Store.Valid, MarkTerminated;
    if ms == [] {
      assert EncodeAll(writer, ms) + tail == tail;
    } else {
      var o := Handle(procedures, s, w, ms[0], order);
      HandleKeeps(procedures, s, w, ms[0], order);
      var later := EncodeAll(writer, ms[1..]) + tail;
      assert EncodeAll(writer, ms) + tail == Encode(writer, ms[0]) + later;
      PeerReads(writer, w.cfg, w.moduleStyle, ms[0], later);
      FillHandlesInOrder(procedures, o.store, o.wire, writer, ms[1..], tail, order);
    }
  }

  lemma {:induction false} SmoothFills(procedures: Procedures, s: Store, w: Wire, writer: Config, ms: seq<Message>,
                                       tail: Bytes, order: seq<Call>)
    requires s.Valid() && w.cfg.Valid() && Smooth(procedures, s, w, ms, order)
    ensures var (t, x) := HandledAll(procedures, s, w, ms, order);
            && SameSetup(w, x)
            && FillMessages(procedures, s, w, writer, ms, tail, order) == FillLoop(procedures, t, x, tail, order)
    decreases |ms|
  {
    hide Handle, Encode, Store.Valid, FillLoop;
    if ms != [] {
      var o := Handle(procedures, s, w, ms[0], order);
      HandleKeeps(procedures, s, w, ms[0], order);
      SmoothFills(procedures, o.store, o.wire, writer, ms[1..], tail, order);
    }
  }

  /** What one wire writes with `flush_end`, another wire's `fill` takes as exactly the messages that were queued, in
      order. It succeeds, and reads up to the end-of-input message and no further. */
  lemma FlushedIsFilled(h: Host, a: nat, procedures: Procedures, s: Store, w: Wire, tail: Bytes, order: seq<Call>)
    requires Inv(h) && a in h.wires && a in h.outbox
    requires s.Valid() && w.cfg.Valid() && h.wires[a].cfg.Valid() && !w.terminated
    requires AllWritable(h.wires[a].cfg, h.outbox[a]) && Readable(w.cfg, w.moduleStyle, h.outbox[a])
    requires Smooth(procedures, s, w, h.outbox[a], order)
    ensures var (t, x) := HandledAll(procedures, s, w, h.outbox[a], order);
            Fill(procedures, s, w, Concat(h.wires[a].queue + [Encode(h.wires[a].cfg, EndOfInput)]) + tail, order)
            == Filled(t, x, Ok(()), tail)
  {
    hide Inv, FillLoop, Parse, Smooth, Store.Valid, Encode, EncodeEach, AllWritable, Readable, HandledAll, EncodeAll;
    hide Concat;
    var (cfg, ms) := (h.wires[a].cfg, h.outbox[a]);
    QueueBytes(h, a);
    EncodeEachAppend(cfg, ms, [EndOfInput]);
    EncodeOne(cfg, EndOfInput);
    ConcatEncodes(cfg, ms + [EndOfInput]);
    EncodeAllMore(cfg, ms, [EndOfInput]);
    EncodeLast(cfg, EndOfInput);
    var end := Encode(cfg, EndOfInput) + tail;
    assert EncodeAll(cfg, ms) + Encode(cfg, EndOfInput) + tail == EncodeAll(cfg, ms) + end;
    FillHandlesInOrder(procedures, s, w, cfg, ms, end, order);
    SmoothFills(procedures, s, w, cfg, ms, end, order);
    var (t, x) := HandledAll(procedures, s, w, ms, order);
    EndStops(procedures, t, x, cfg, tail, order);
  }

  lemma EncodeLast(cfg: Config, m: Message)
    ensures EncodeAll(cfg, [m]) == Encode(cfg, m)
  {
    hide Encode;
    assert [m][1..] == [] && EncodeAll(cfg, []) == [];
  }

  lemma EndStops(procedures: Procedures, s: Store, w: Wire, cfg: Config, tail: Bytes, order: seq<Call>)
    requires s.Valid() && w.cfg.Valid() && cfg.Valid()
    ensures FillLoop(procedures, s, w, Encode(cfg, EndOfInput) + tail, order) == Filled(s, w, Ok(()), tail)
  {
    PeerReads(cfg, w.cfg, w.moduleStyle, EndOfInput, tail);
    hide Parse, Encode, Store.Valid;
  }

  /** An error in the middle ends `fill` with that error and the work done so far; it terminates the wire only if it is
      an end-of-file. */
  lemma ErrorStops(procedures: Procedures, s: Store, w: Wire, writer: Config, ms: seq<Message>, bad: Message,
                   tail: Bytes, order: seq<Call>)
    requires s.Valid() && w.cfg.Valid() && writer.Valid()
    requires AllWritable(writer, ms) && Readable(w.cfg, w.moduleStyle, ms) && Smooth(procedures, s, w, ms, order)
    requires AllWritable(writer, [bad]) && Readable(w.cfg, w.moduleStyle, [bad])
    ensures var (t, x) := HandledAll(procedures, s, w, ms, order);
            var o := Handle(procedures, t, x, bad, order);
            o.result.Err? && !o.result.error.UnexpectedEof? ==>
              FillLoop(procedures, s, w, EncodeAll(writer, ms) + (Encode(writer, bad) + tail), order)
              == Filled(o.store, o.wire, Err(o.result.error), tail)
  {
    FillHandlesInOrder(procedures, s, w, writer, ms, Encode(writer, bad) + tail, order);
    SmoothFills(procedures, s, w, writer, ms, Encode(writer, bad) + tail, order);
    assert [bad][0].Writable(writer) && [bad][0].Writable(w.cfg);
    assert !(w.moduleStyle && [bad][0].Frame? && bad.kind.ResponseFrame?);
    PeerReads(writer, w.cfg, w.moduleStyle, bad, tail);
    hide Parse, Encode, Store.Valid, Handle;
  }

  /** A message that is cut off anywhere is an end-of-file, and receiving it has changed nothing. */
  lemma CutOffChangesNothing(procedures: Procedures, s: Store, w: Wire, m: Message, cut: nat, order: seq<Call>)
    requires s.Valid() && w.cfg.Valid() && !w.terminated && m.Writable(w.cfg) && cut < |Encode(w.cfg, m)|
    requires w.moduleStyle ==> !(m.Frame? && m.kind.ResponseFrame?)
    ensures ReceiveOne(procedures, s, w, Encode(w.cfg, m)[..cut], order) == Outcome(s, w, Err(UnexpectedEof))
  {
    StrictPrefixIsEof(w.cfg, w.moduleStyle, m, cut);
    hide Parse, Encode, Handle;
  }
}
