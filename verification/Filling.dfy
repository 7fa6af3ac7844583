/** `fill` on any bytes whatsoever (`src/wire_common.rs:785-811`): which messages it handles, how it ends, and that an
    end-of-file is the step of a host that terminates the wire. */
module Filling {
  import opened Types
  import opened Stores
  import opened WireFormat
  import opened WireFormatProofs
  import opened Wires
  import opened Hosts
  import opened HostRuns
  import opened HostCode
  import opened HostTheorems
  import opened Reachability
  import opened Transport

  /** The messages that can be read off the front of some bytes, and what reading on then comes to: the bytes have run
      out, or they make no sense. */
  function Messages(cfg: Config, moduleStyle: bool, input: Bytes): (r: (seq<Message>, Parsed))
    requires cfg.Valid()
    ensures r.1.Eof? || (r.1.Bad? && r.1.error in {InvalidTerminator, IdxTooBig})
    decreases |input|
  {
    match Parse(cfg, moduleStyle, input)
    case Got(m, rest) =>
      ReadingProgresses(cfg, moduleStyle, input);
      var (ms, end) := Messages(cfg, moduleStyle, rest);
      ([m] + ms, end)
    case Eof => ([], Eof)
    case Bad(e, after) => ([], Bad(e, after))
  }

  /** How many of the messages are handled before one stops the receiver or fails. */
  function Smoothly(procedures: Procedures, s: Store, w: Wire, ms: seq<Message>, order: seq<Call>): (n: nat)
    requires s.Valid()
    ensures n <= |ms|
    decreases |ms|
  {
    if ms == [] then 0
    else
      var o := Handle(procedures, s, w, ms[0], order);
      HandleKeeps(procedures, s, w, ms[0], order);
      if o.result.Ok? && o.result.value.Some? then 1 + Smoothly(procedures, o.store, o.wire, ms[1..], order) else 0
  }

  /** The store and the wire are those of a termination. */
  predicate IsTerminated(f: Filled, s: Store, w: Wire, order: seq<Call>)
    requires s.Valid()
  {
    (f.store, f.wire) == MarkTerminated(s, w, order)
  }

  /** How `fill` ends after the smooth messages: with the message that stops it or fails, or, after the last message,
      with the end of the bytes or with what makes no sense. Only an end-of-file terminates the wire besides. */
  ghost predicate EndsAs(procedures: Procedures, s: Store, w: Wire, ms: seq<Message>, end: Parsed, order: seq<Call>,
                         f: Filled)
    requires s.Valid()
  {
    var n := Smoothly(procedures, s, w, ms, order);
    var (t, x) := HandledAll(procedures, s, w, ms[..n], order);
    if n < |ms| then
      var o := Handle(procedures, t, x, ms[n], order);
      HandleKeeps(procedures, t, x, ms[n], order);
      match o.result
      case Ok(Nothing) => f.result == Ok(()) && f.store == o.store && f.wire == o.wire
      case Ok(Some(_)) => false
      case Err(UnexpectedEof) => f.result == Err(UnexpectedEof) && IsTerminated(f, o.store, o.wire, order)
      case Err(e) => f.result == Err(e) && f.store == o.store && f.wire == o.wire
    else
      match end
      case Bad(e, after) => f == Filled(t, x, Err(e), after)
      case _ => f.result == Err(UnexpectedEof) && IsTerminated(f, t, x, order)
  }

  /** A message that is handled smoothly comes first. */
  lemma EndsAsMore(procedures: Procedures, s: Store, w: Wire, m: Message, ms: seq<Message>, end: Parsed,
                   order: seq<Call>, f: Filled)
    requires s.Valid()
    requires var r := Handle(procedures, s, w, m, order).result; r.Ok? && r.value.Some?
    requires var o := Handle(procedures, s, w, m, order);
             o.store.Valid() && EndsAs(procedures, o.store, o.wire, ms, end, order, f)
    ensures EndsAs(procedures, s, w, [m] + ms, end, order, f)
  {
    hide Handle, Store.Valid, IsTerminated;
    var (o, all) := (Handle(procedures, s, w, m, order), [m] + ms);
    assert all[0] == m && all[1..] == ms;
    var n := Smoothly(procedures, o.store, o.wire, ms, order);
    assert all[..n + 1][0] == m && all[..n + 1][1..] == ms[..n];
    if n < |ms| {
      assert all[n + 1] == ms[n];
    }
  }

  /** A message that stops the receiver or fails comes first. */
  lemma EndsAsFirst(procedures: Procedures, s: Store, w: Wire, m: Message, ms: seq<Message>, end: Parsed,
                    order: seq<Call>, f: Filled)
    requires s.Valid() && Handle(procedures, s, w, m, order).store.Valid()
    requires var o := Handle(procedures, s, w, m, order);
             match o.result
             case Ok(Nothing) => f.result == Ok(()) && f.store == o.store && f.wire == o.wire
             case Ok(Some(_)) => false
             case Err(UnexpectedEof) => f.result == Err(UnexpectedEof) && IsTerminated(f, o.store, o.wire, order)
             case Err(e) => f.result == Err(e) && f.store == o.store && f.wire == o.wire
    ensures EndsAs(procedures, s, w, [m] + ms, end, order, f)
  {
    hide Handle, Store.Valid, IsTerminated;
    var all := [m] + ms;
    assert all[0] == m && all[..0] == [];
    assert HandledAll(procedures, s, w, [], order) == (s, w);
  }

  lemma NoMessageEnds(procedures: Procedures, s: Store, w: Wire, end: Parsed, order: seq<Call>, f: Filled)
    requires s.Valid()
    requires match end
             case Bad(e, after) => f == Filled(s, w, Err(e), after)
             case _ => f.result == Err(UnexpectedEof) && IsTerminated(f, s, w, order)
    ensures EndsAs(procedures, s, w, [], end, order, f)
  {
    hide Handle, Store.Valid, IsTerminated;
    var none: seq<Message> := [];
    assert none[..0] == none && HandledAll(procedures, s, w, none, order) == (s, w);
  }

  lemma {:induction false} LoopEndsAs(procedures: Procedures, s: Store, w: Wire, input: Bytes, order: seq<Call>)
    requires s.Valid() && w.cfg.Valid()
    ensures var (ms, end) := Messages(w.cfg, w.moduleStyle, input);
            EndsAs(procedures, s, w, ms, end, order, FillLoop(procedures, s, w, input, order))
    decreases |input|
  {
    hide Parse, Handle, Store.Valid, MarkTerminated, EndsAs;
    var f := FillLoop(procedures, s, w, input, order);
    match Parse(w.cfg, w.moduleStyle, input)
    case Got(m, rest) =>
      ReadingProgresses(w.cfg, w.moduleStyle, input);
      var o := Handle(procedures, s, w, m, order);
      HandleKeeps(procedures, s, w, m, order);
      var (ms, end) := Messages(w.cfg, w.moduleStyle, rest);
      if o.result.Ok? && o.result.value.Some? {
        LoopEndsAs(procedures, o.store, o.wire, rest, order);
        EndsAsMore(procedures, s, w, m, ms, end, order, f);
      } else {
        EndsAsFirst(procedures, s, w, m, ms, end, order, f);
      }
    case Eof => NoMessageEnds(procedures, s, w, Eof, order, f);
    case Bad(e, after) => NoMessageEnds(procedures, s, w, Bad(e, after), order, f);
  }

  /** `fill` reads and handles the messages of its input in order, and ends as the first of these decides: a message
      that stops it, a failure, the end of the bytes, or bytes that make no sense. */
  lemma FillEndsAs(procedures: Procedures, s: Store, w: Wire, input: Bytes, order: seq<Call>)
    requires s.Valid() && w.cfg.Valid() && !w.terminated
    ensures var (ms, end) := Messages(w.cfg, w.moduleStyle, input);
            EndsAs(procedures, s, w, ms, end, order, Fill(procedures, s, w, input, order))
  {
    LoopEndsAs(procedures, s, w, input, order);
  }

  // --- Which messages stop it ---

  /** Exactly end-of-input and termination messages stop a receiver, and exactly a termination terminates the wire. */
  lemma StopsIff(procedures: Procedures, s: Store, w: Wire, m: Message, order: seq<Call>)
    requires s.Valid()
    ensures var o := Handle(procedures, s, w, m, order);
            && (o.result == Ok(Nothing) <==> m.EndOfInput? || m.Termination?)
            && (o.wire.terminated <==> w.terminated || m.Termination?)
  {
    hide Store.Valid, MarkTerminated, ReceiveCall, ReceiveResponse;
    HandleKeeps(procedures, s, w, m, order);
    match m
    case Frame(CallFrame, call, t, bytes) => CallGoesOn(procedures, s, w, call, t, bytes);
    case Frame(ResponseFrame, call, t, bytes) => ResponseGoesOn(s, w, call, t, bytes);
    case _ =>
  }

  lemma CallGoesOn(procedures: Procedures, s: Store, w: Wire, call: Call, t: Terminator, bytes: Bytes)
    requires s.Valid()
    ensures ReceiveCall(procedures, s, w, call, t, bytes).result != Ok(Nothing)
  {
    hide Store.Valid, Store.CallProcedure, Store.SendMany, Store.TerminateMessage, Store.GetCallBuffer, Encode;
    GetCallBufferKeeps(s, Key(call, w.id));
    var s1 := s.GetCallBuffer(Key(call, w.id));
    SendManyKeeps(s1, bytes, s1.calls[Key(call, w.id)]);
  }

  lemma ResponseGoesOn(s: Store, w: Wire, call: Call, t: Terminator, bytes: Bytes)
    requires s.Valid()
    ensures ReceiveResponse(s, w, call, t, bytes).result != Ok(Nothing)
  {
    hide Store.Valid, Store.SendMany, Store.TerminateMessage, Store.TerminateChunk;
  }

  lemma {:induction false} HandledStyle(procedures: Procedures, s: Store, w: Wire, ms: seq<Message>, order: seq<Call>)
    requires s.Valid()
    ensures var n := Smoothly(procedures, s, w, ms, order);
            var (t, x) := HandledAll(procedures, s, w, ms[..n], order);
            SameSetup(w, x) && x.terminated == w.terminated
    decreases |ms|
  {
    hide Handle, Store.Valid;
    if ms != [] {
      var o := Handle(procedures, s, w, ms[0], order);
      HandleKeeps(procedures, s, w, ms[0], order);
      StopsIff(procedures, s, w, ms[0], order);
      if o.result.Ok? && o.result.value.Some? {
        HandledStyle(procedures, o.store, o.wire, ms[1..], order);
        var n := Smoothly(procedures, o.store, o.wire, ms[1..], order);
        assert ms[..n + 1][0] == ms[0] && ms[..n + 1][1..] == ms[1..][..n];
      }
    }
  }

  /** The wire is closed: its flag is set, the lock of every handle still registered is decided, and the arguments of
      its ongoing calls are gone. */
  ghost predicate Closed(s: Store, w: Wire) {
    && w.terminated
    && (forall i :: i in w.idle && w.idle[i] < |s.locks| ==> !s.locks[w.idle[i]].Incomplete?)
    && (forall c :: c in w.ongoing ==> Key(c, w.id) !in s.calls)
  }

  lemma TerminationCloses(s: Store, w: Wire, order: seq<Call>)
    requires s.Valid() && Lists(order, w.ongoing)
    ensures var (t, x) := MarkTerminated(s, w, order); Closed(t, x)
  {
    forall c | c in w.ongoing ensures Key(c, w.id) !in DropCalls(s, w.id, order).calls {
      DropCallsIff(s, w.id, order, Key(c, w.id));
    }
    hide Store.Valid, DropCalls;
  }

  /** How `fill` ends on a live wire, for every input. It reports an end-of-file exactly if the bytes run out before a
      message stops it or anything fails, or if a procedure fails with one; then, and only then or when a termination
      message has come, the wire is closed. It succeeds exactly if a message stops it. */
  lemma FillClosesIff(procedures: Procedures, s: Store, w: Wire, input: Bytes, order: seq<Call>)
    requires s.Valid() && w.cfg.Valid() && !w.terminated
    ensures var f := Fill(procedures, s, w, input, order);
            var (ms, end) := Messages(w.cfg, w.moduleStyle, input);
            var n := Smoothly(procedures, s, w, ms, order);
            var (t, x) := HandledAll(procedures, s, w, ms[..n], order);
            && (f.result == Ok(()) <==> n < |ms| && (ms[n].EndOfInput? || ms[n].Termination?))
            && (f.result == Err(UnexpectedEof) <==>
                  if n < |ms| then Handle(procedures, t, x, ms[n], order).result == Err(UnexpectedEof) else end.Eof?)
            && (f.wire.terminated <==>
                  f.result == Err(UnexpectedEof) || (f.result == Ok(()) && n < |ms| && ms[n].Termination?))
            && (f.wire.terminated && Lists(order, f.wire.ongoing) ==> Closed(f.store, f.wire))
  {
    hide Handle, Smoothly, HandledAll, Fill, Store.Valid, Closed, Messages;
    var f := Fill(procedures, s, w, input, order);
    var (ms, end) := Messages(w.cfg, w.moduleStyle, input);
    var n := Smoothly(procedures, s, w, ms, order);
    var (t, x) := HandledAll(procedures, s, w, ms[..n], order);
    FillEndsAs(procedures, s, w, input, order);
    HandledStyle(procedures, s, w, ms, order);
    if n < |ms| {
      var o := Handle(procedures, t, x, ms[n], order);
      HandleKeeps(procedures, t, x, ms[n], order);
      StopsIff(procedures, t, x, ms[n], order);
      TerminationIsThat(procedures, t, x, ms[n], order);
      ClosedBy(f, o.store, o.wire, order);
      ClosedBy(f, t, x, order);
    } else {
      ClosedBy(f, t, x, order);
    }
  }

  lemma TerminationIsThat(procedures: Procedures, s: Store, w: Wire, m: Message, order: seq<Call>)
    requires s.Valid()
    ensures m.Termination? ==>
              var (t, x) := MarkTerminated(s, w, order);
              Handle(procedures, s, w, m, order) == Outcome(t, x, Ok(Nothing))
  {
  }

  lemma ClosedBy(f: Filled, s: Store, w: Wire, order: seq<Call>)
    requires s.Valid()
    ensures IsTerminated(f, s, w, order) ==> f.wire.terminated
    ensures IsTerminated(f, s, w, order) && Lists(order, f.wire.ongoing) ==> Closed(f.store, f.wire)
  {
    if IsTerminated(f, s, w, order) && Lists(order, f.wire.ongoing) {
      TerminationCloses(s, w, order);
    }
    hide Store.Valid, DropCalls, Closed;
  }

  // --- As steps of a host ---

  function Receives(w: nat, ms: seq<Message>, order: seq<Call>): seq<Step> {
    seq(|ms|, i requires 0 <= i < |ms| => Receive(w, ms[i], order))
  }

  /** Receiving messages one after the other is handling them. */
  lemma {:induction false} ReceivesAreHandled(procedures: Procedures, h: Host, w: nat, ms: seq<Message>,
                                              order: seq<Call>)
    requires Inv(h) && h.store.Valid() && w in h.wires && LegalSteps(procedures, h, Receives(w, ms, order))
    ensures var g := RunSteps(procedures, h, Receives(w, ms, order));
            var (t, x) := HandledAll(procedures, h.store, h.wires[w], ms, order);
            Inv(g) && g.store == t && g.wires == h.wires[w := x]
    decreases |ms|
  {
    hide Inv, Enabled, Next, Handle, Store.Valid;
    var steps := Receives(w, ms, order);
    if ms == [] {
      assert steps == [] && h.wires[w := h.wires[w]] == h.wires;
    } else {
      assert steps[0] == Receive(w, ms[0], order) && steps[1..] == Receives(w, ms[1..], order);
      var g := Next(procedures, h, steps[0]);
      StepKeeps(procedures, h, steps[0]);
      InvValid(g);
      ReceiveIsHandled(procedures, h, w, ms[0], order);
      ReceivesAreHandled(procedures, g, w, ms[1..], order);
      var x := HandledAll(procedures, g.store, g.wires[w], ms[1..], order).1;
      assert h.wires[w := g.wires[w]][w := x] == h.wires[w := x];
    }
  }

  lemma ReceiveIsHandled(procedures: Procedures, h: Host, w: nat, m: Message, order: seq<Call>)
    requires Inv(h) && h.store.Valid() && w in h.wires && Enabled(h, Receive(w, m, order))
    ensures Leaves(h, Next(procedures, h, Receive(w, m, order)), w, Handle(procedures, h.store, h.wires[w], m, order))
  {
    StepIsCode(procedures, h, Receive(w, m, order));
  }

  /** The steps that one `fill` amounts to at a host. */
  function FillSteps(procedures: Procedures, s: Store, w: Wire, input: Bytes, order: seq<Call>): seq<Step>
    requires s.Valid() && w.cfg.Valid()
  {
    var ms := Messages(w.cfg, w.moduleStyle, input).0;
    var n := Smoothly(procedures, s, w, ms, order);
    Receives(w.id, if n < |ms| then ms[..n + 1] else ms, order)
    + if Fill(procedures, s, w, input, order).result == Err(UnexpectedEof) then [ReadEof(w.id, order)] else []
  }

  lemma HandledOneMore(procedures: Procedures, s: Store, w: Wire, ms: seq<Message>, order: seq<Call>, n: nat)
    requires s.Valid() && n < |ms|
    ensures var (t, x) := HandledAll(procedures, s, w, ms[..n], order);
            var o := Handle(procedures, t, x, ms[n], order);
            HandledAll(procedures, s, w, ms[..n + 1], order) == (o.store, o.wire)
    decreases |ms|
  {
    hide Handle, Store.Valid;
    var o := Handle(procedures, s, w, ms[0], order);
    HandleKeeps(procedures, s, w, ms[0], order);
    assert ms[..n + 1][0] == ms[0] && ms[..n + 1][1..] == ms[1..][..n];
    if n == 0 {
      assert ms[..0] == [] && ms[1..][..0] == [];
      assert HandledAll(procedures, o.store, o.wire, [], order) == (o.store, o.wire);
    } else {
      assert ms[..n][0] == ms[0] && ms[..n][1..] == ms[1..][..n - 1];
      HandledOneMore(procedures, o.store, o.wire, ms[1..], order, n - 1);
    }
  }

  /** `fill` at a host is a run of it: the messages are received one after the other, and an end-of-file is the step
      that terminates the wire. */
  lemma FillIsRun(procedures: Procedures, h: Host, w: nat, input: Bytes, order: seq<Call>)
    requires Inv(h) && h.store.Valid() && w in h.wires && h.wires[w].cfg.Valid() && !h.wires[w].terminated
    requires h.wires[w].id == w
    requires LegalSteps(procedures, h, FillSteps(procedures, h.store, h.wires[w], input, order))
    ensures var f := Fill(procedures, h.store, h.wires[w], input, order);
            var g := RunSteps(procedures, h, FillSteps(procedures, h.store, h.wires[w], input, order));
            Inv(g) && g.store == f.store && g.wires == h.wires[w := f.wire]
  {
    hide Inv, Handle, Store.Valid, Smoothly, HandledAll, Messages, Fill, MarkTerminated, LegalSteps, RunSteps, Enabled;
    hide Next;
    var (s, x) := (h.store, h.wires[w]);
    var f := Fill(procedures, s, x, input, order);
    var (ms, end) := Messages(x.cfg, x.moduleStyle, input);
    var n := Smoothly(procedures, s, x, ms, order);
    FillEndsAs(procedures, s, x, input, order);
    var done := if n < |ms| then ms[..n + 1] else ms;
    if n < |ms| {
      HandledOneMore(procedures, s, x, ms, order, n);
    } else {
      assert ms[..n] == ms;
    }
    var (first, last) := (Receives(w, done, order), if f.result == Err(UnexpectedEof) then [ReadEof(w, order)] else []);
    assert FillSteps(procedures, s, x, input, order) == first + last;
    LegalFirst(procedures, h, first, last);
    ReceivesAreHandled(procedures, h, w, done, order);
    RunInParts(procedures, h, first, last);
    var g := RunSteps(procedures, h, first);
    if f.result == Err(UnexpectedEof) {
      EofRun(procedures, g, w, order);
      assert h.wires[w := g.wires[w]][w := f.wire] == h.wires[w := f.wire];
    } else {
      assert first + last == first;
    }
  }

  lemma {:induction false} LegalFirst(procedures: Procedures, h: Host, first: seq<Step>, second: seq<Step>)
    requires Inv(h) && LegalSteps(procedures, h, first + second)
    ensures LegalSteps(procedures, h, first)
    decreases |first|
  {
    hide Inv, Enabled, Next;
    if first != [] {
      assert (first + second)[0] == first[0] && (first + second)[1..] == first[1..] + second;
      StepKeeps(procedures, h, first[0]);
      LegalFirst(procedures, Next(procedures, h, first[0]), first[1..], second);
    }
  }

  lemma EofRun(procedures: Procedures, h: Host, w: nat, order: seq<Call>)
    requires Inv(h) && LegalSteps(procedures, h, [ReadEof(w, order)])
    ensures var g := RunSteps(procedures, h, [ReadEof(w, order)]);
            && Inv(g) && h.store.Valid() && w in h.wires
            && var (s, x) := MarkTerminated(h.store, h.wires[w], order);
            g.store == s && g.wires == h.wires[w := x]
  {
    hide Inv, Store.Valid, Next, MarkTerminated, Lists;
    var a := ReadEof(w, order);
    InvValid(h);
    assert [a][1..] == [];
    OneStepRun(procedures, h, a);
    StepIsCode(procedures, h, a);
  }
}
