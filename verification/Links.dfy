/** Two hosts joined by a wire on each side. The bytes that one end flushes reach the other in order; everything else
    about the hosts, including their other wires, is free. */
module Links {
  import opened Types
  import opened RoiQueues
  import opened Stores
  import opened WireFormat
  import opened WireFormatProofs
  import opened Wires
  import opened Hosts
  import opened HostCalls
  import opened HostRuns
  import opened Traces
  import opened CallerTraces
  import opened CalleeTraces
  import opened Demultiplexing

  /** One end. `out` are the bytes flushed and not yet received by the other end; `flight` are the messages in them. */
  datatype End = End(host: Host, procedures: Procedures, wire: nat, trace: Trace, flight: seq<Message>, out: Bytes) {
    function Wire(): Wire
      requires wire in host.wires
    {
      host.wires[wire]
    }
  }

  // --- One end by itself ---

  ghost predicate CallsNothing(sent: seq<Message>) {
    forall c: Call :: Pieces(sent, CallFrame, c) == []
  }

  ghost predicate Local(e: End) {
    && Inv(e.host) && e.wire in e.host.wires && e.wire in e.host.outbox && TidyProcedures(e.procedures)
    && e.Wire().cfg.Valid()
    && ArgumentsFit(e.host, e.wire, e.trace.took)
    && CallerFits(e.host, e.wire, e.trace)
    && CalleeFits(e.procedures, e.host, e.wire, e.trace)
    && (e.Wire().moduleStyle ==> CallsNothing(e.trace.sent))
  }

  /** The end after a step of its own, before its bytes are looked at. */
  function Stepped(e: End, a: Step): End
    requires Local(e) && Enabled(e.host, a)
  {
    e.(host := Next(e.procedures, e.host, a), trace := Traced(e.procedures, e.host, e.wire, e.trace, a))
  }

  lemma LocalStep(e: End, a: Step)
    requires Local(e) && Enabled(e.host, a)
    requires CallerCare(e.host, e.wire, e.trace, a) && CalleeCare(e.host, e.wire, e.trace, a)
    ensures Local(Stepped(e, a)) && SameSetup(e.Wire(), Stepped(e, a).Wire())
  {
    hide Inv, ArgumentsFit, CallerFits, CalleeFits, TidyProcedures, Next, Traced, CallerCare, CalleeCare, CallsNothing;
    NotDropped(e.host, e.wire, e.trace, a);
    StepKeeps(e.procedures, e.host, a);
    ArgumentsStep(e.procedures, e.host, e.wire, e.trace, a);
    CallerStep(e.procedures, e.host, e.wire, e.trace, a);
    CalleeStep(e.procedures, e.host, e.wire, e.trace, a);
    SetupStep(e.procedures, e.host, a, e.wire);
    if e.Wire().moduleStyle {
      ModulesCallNothing(e.procedures, e.host, e.wire, e.trace, a);
    }
  }

  lemma NotDropped(h: Host, w: nat, tr: Trace, a: Step)
    requires w in h.wires && CallerCare(h, w, tr, a)
    ensures !(a.DropWire? && a.wire == w)
  {
  }

  /** A module makes no calls. */
  lemma ModulesCallNothing(procedures: Procedures, h: Host, w: nat, tr: Trace, a: Step)
    requires Inv(h) && Enabled(h, a) && w in h.wires && h.wires[w].moduleStyle && CallsNothing(tr.sent)
    ensures CallsNothing(Traced(procedures, h, w, tr, a).sent)
  {
    hide MessagesInv, MapsInv, Pieces, Posted;
    var more := Posted(procedures, h, w, a);
    forall c: Call ensures Pieces(tr.sent + more, CallFrame, c) == [] {
      PiecesMore(tr.sent, more, CallFrame, c);
      ModulePosts(procedures, h, w, a, c);
    }
  }

  lemma ModulePosts(procedures: Procedures, h: Host, w: nat, a: Step, c: Call)
    requires Inv(h) && Enabled(h, a) && w in h.wires && h.wires[w].moduleStyle
    ensures Pieces(Posted(procedures, h, w, a), CallFrame, c) == []
  {
    hide MessagesInv, MapsInv, Answers;
    InvValid(h);
    match a
    case Receive(_, m, _) =>
      AnswersAreResponses(procedures, h, w, m);
      RepliesAreResponses(Answers(procedures, h, w, m), c);
    case Tell(_, m) => PiecesSingle(m, CallFrame, c);
    case Later(_, d, y) => PiecesSingle(Frame(ResponseFrame, d, y.terminator, y.bytes), CallFrame, c);
    case _ =>
  }

  // --- What is under way from one end to the other ---

  predicate FitsBoth(e: End, f: End, m: Message)
    requires e.wire in e.host.wires && f.wire in f.host.wires
  {
    m.Writable(e.Wire().cfg) && m.Writable(f.Wire().cfg)
  }

  /** Everything sent has been received, is in the bytes under way, or is still queued; in that order. */
  ghost predicate Ways(from: End, to: End)
    requires from.wire in from.host.wires && to.wire in to.host.wires && from.wire in from.host.outbox
  {
    && from.trace.sent == to.trace.got + from.flight + from.host.outbox[from.wire]
    && from.out == EncodeAll(from.Wire().cfg, from.flight)
    && forall i :: 0 <= i < |from.trace.sent| ==> FitsBoth(from, to, from.trace.sent[i])
  }

  /** All frames of a call have been let through; or it is a one-shot call, and it has not. */
  predicate Through(took: seq<Message>, got: seq<Message>, c: Call) {
    var (ts, gs) := (Pieces(took, CallFrame, c), Pieces(got, CallFrame, c));
    ts == gs || (ts == [] && gs != [] && gs[0].terminator.Complete?)
  }

  ghost predicate AllThrough(to: End) {
    forall c: Call :: Through(to.trace.took, to.trace.got, c)
  }

  /** The calls made before position `i` that are still waited for. */
  function OpenBefore(responses: map<Call, nat>, sent: seq<Message>, i: nat): set<Call>
    requires i <= |sent|
  {
    set d | d in responses && Pieces(sent[..i], CallFrame, d) != []
  }

  /** A call made in pieces was begun when there was room for it at the other end. */
  predicate BegunInTime(responses: map<Call, nat>, sent: seq<Message>, max: nat, i: nat)
    requires i < |sent|
  {
    var m := sent[i];
    m.Frame? && m.kind.CallFrame? && !m.terminator.Complete? && Pieces(sent[..i], CallFrame, m.call) == [] ==>
      |OpenBefore(responses, sent, i)| < max
  }

  ghost predicate AllInTime(from: End, to: End)
    requires from.wire in from.host.wires && to.wire in to.host.wires
  {
    forall i :: 0 <= i < |from.trace.sent| ==>
      BegunInTime(from.Wire().responses, from.trace.sent, to.Wire().max, i)
  }

  ghost predicate Direction(from: End, to: End) {
    && Local(from) && Local(to)
    && Ways(from, to) && AllThrough(to) && AllInTime(from, to)
  }

  ghost predicate PairInv(e: End, f: End) {
    Direction(e, f) && Direction(f, e)
  }

  // --- Prefixes ---

  lemma PiecesPrefix(ms: seq<Message>, ns: seq<Message>, kind: Kind, c: Call)
    requires ms <= ns
    ensures Pieces(ms, kind, c) <= Pieces(ns, kind, c)
  {
    PiecesMore(ms, ns[|ms|..], kind, c);
    assert ns == ms + ns[|ms|..];
  }

  lemma EndedPrefix(ps: seq<Yield>, qs: seq<Yield>)
    requires ps <= qs && Tidy(qs)
    ensures Tidy(ps) && (Ended(ps) ==> ps == qs)
  {
    forall i | 0 <= i < |ps| - 1 ensures !ps[i].terminator.Complete? {
      assert ps[i] == qs[i];
    }
    if Ended(ps) {
      assert qs[|ps| - 1] == ps[|ps| - 1];
    }
  }

  lemma GotPrefix(from: End, to: End)
    requires Direction(from, to)
    ensures to.trace.got <= from.trace.sent
  {
    hide Inv, ArgumentsFit, CallerFits, CalleeFits, AllThrough, AllInTime, EncodeAll, TidyProcedures;
    var later := from.flight + from.host.outbox[from.wire];
    assert to.trace.got + from.flight + from.host.outbox[from.wire] == to.trace.got + later;
  }

  /** What one end has of a call or response is a beginning of what the other has sent of it. */
  lemma PiecesArrive(from: End, to: End, kind: Kind, c: Call)
    requires Direction(from, to)
    ensures Pieces(to.trace.got, kind, c) <= Pieces(from.trace.sent, kind, c)
  {
    hide Direction;
    GotPrefix(from, to);
    PiecesPrefix(to.trace.got, from.trace.sent, kind, c);
  }

  // --- What is known of one call ---

  lemma CallFacts(from: End, to: End, c: Call)
    requires Direction(from, to)
    ensures Waits(from.Wire(), from.trace.sent, from.trace.got, c)
    ensures Serves(to.procedures, to.host, to.wire, to.trace.took, to.trace.sent, c)
    ensures Through(to.trace.took, to.trace.got, c)
    ensures Pieces(to.trace.got, CallFrame, c) <= Pieces(from.trace.sent, CallFrame, c)
  {
    hide Inv, ArgumentsFit, Waits, Serves, Through, Ways, AllInTime, TidyProcedures, AnswersFit;
    PiecesArrive(from, to, CallFrame, c);
  }

  /** A call that is answered at all was let through whole, and made. */
  lemma AnsweredWasMade(from: End, to: End, c: Call)
    requires Direction(from, to) && Pieces(to.trace.sent, ResponseFrame, c) != []
    ensures Pieces(to.trace.took, CallFrame, c) == Pieces(to.trace.got, CallFrame, c)
            == Pieces(from.trace.sent, CallFrame, c)
    ensures Ended(Pieces(from.trace.sent, CallFrame, c))
  {
    hide Direction, Pieces, Execute, AnswerPieces;
    CallFacts(from, to, c);
    EndedPrefix(Pieces(to.trace.got, CallFrame, c), Pieces(from.trace.sent, CallFrame, c));
  }

  // --- What arrives ---

  /** The bytes under way start with the oldest message under way, and it is read back as it was sent. */
  lemma ArrivalParses(e: End, f: End)
    requires PairInv(e, f) && Parse(e.Wire().cfg, e.Wire().moduleStyle, f.out).Got?
    ensures f.flight != []
    ensures Parse(e.Wire().cfg, e.Wire().moduleStyle, f.out)
            == Got(f.flight[0], EncodeAll(f.Wire().cfg, f.flight[1..]))
  {
    hide Inv, ArgumentsFit, CallerFits, CalleeFits, AllThrough, AllInTime, Encode, Parse, TidyProcedures;
    if f.flight == [] {
      assert f.out == [];
      NothingParses(e.Wire().cfg, e.Wire().moduleStyle);
    } else {
      var m := f.flight[0];
      InFlight(f.trace.sent, e.trace.got, f.flight, f.host.outbox[f.wire]);
      assert FitsBoth(f, e, f.trace.sent[|e.trace.got|]);
      if e.Wire().moduleStyle && m.Frame? && m.kind.ResponseFrame? {
        ModulesGetNoResponses(e, f, |e.trace.got|);
      }
      PeerReads(f.Wire().cfg, e.Wire().cfg, e.Wire().moduleStyle, m, EncodeAll(f.Wire().cfg, f.flight[1..]));
    }
  }

  lemma NothingParses(cfg: Config, moduleStyle: bool)
    ensures Parse(cfg, moduleStyle, []).Eof?
  {
  }

  lemma InFlight(sent: seq<Message>, got: seq<Message>, flight: seq<Message>, outbox: seq<Message>)
    requires sent == got + flight + outbox && flight != []
    ensures |got| < |sent| && sent[|got|] == flight[0] && got + [flight[0]] <= sent
    ensures sent == got + [flight[0]] + flight[1..] + outbox
  {
  }

  lemma ModulesGetNoResponses(e: End, f: End, i: nat)
    requires PairInv(e, f) && e.Wire().moduleStyle && i < |f.trace.sent|
    ensures !(f.trace.sent[i].Frame? && f.trace.sent[i].kind.ResponseFrame?)
  {
    hide Inv, ArgumentsFit, CallerFits, CalleeFits, Ways, AllThrough, AllInTime, Pieces, TidyProcedures;
    var m := f.trace.sent[i];
    if m.Frame? && m.kind.ResponseFrame? {
      PieceAt(f.trace.sent, i);
      AnsweredWasMade(e, f, m.call);
    }
  }

  lemma PieceAt(ms: seq<Message>, i: nat)
    requires i < |ms| && ms[i].Frame?
    ensures Pieces(ms, ms[i].kind, ms[i].call) != []
  {
    PiecesOne(ms[..i], ms[i], ms[i].kind, ms[i].call);
    assert ms[..i] + [ms[i]] == ms[..i + 1];
    PiecesPrefix(ms[..i + 1], ms, ms[i].kind, ms[i].call);
  }

  /** The peer keeps to the protocol: what is first under way may be received. */
  lemma ArrivalFits(e: End, f: End, m: Message)
    requires PairInv(e, f) && f.flight != [] && m == f.flight[0]
    ensures m.Frame? && m.kind.ResponseFrame? ==> m.call in e.Wire().responses && !e.Wire().moduleStyle
    ensures m.Frame? && m.kind.CallFrame? ==>
              !Ended(Pieces(e.trace.took, CallFrame, m.call)) && Key(m.call, e.wire) !in e.host.streamed
  {
    hide Inv, ArgumentsFit, CallerFits, CalleeFits, AllThrough, AllInTime, TidyProcedures, CallsNothing;
    InFlight(f.trace.sent, e.trace.got, f.flight, f.host.outbox[f.wire]);
    if m.Frame? {
      NextPiece(e, f, m);
      if m.kind.CallFrame? {
        CallArrives(e, f, m);
      } else {
        PieceAt(f.trace.sent, |e.trace.got|);
        ResponseArrives(e, f, m);
      }
    }
  }

  /** What has been received of the call, and this frame, are a beginning of what the peer has sent of it. */
  lemma NextPiece(e: End, f: End, m: Message)
    requires Direction(f, e) && m.Frame? && e.trace.got + [m] <= f.trace.sent
    ensures var (gs, p) := (Pieces(e.trace.got, m.kind, m.call), Yield(m.payload, m.terminator));
            && gs + [p] <= Pieces(f.trace.sent, m.kind, m.call)
            && Pieces(e.trace.got + [m], m.kind, m.call) == gs + [p]
  {
    hide Direction;
    PiecesOne(e.trace.got, m, m.kind, m.call);
    PiecesPrefix(e.trace.got + [m], f.trace.sent, m.kind, m.call);
  }

  lemma NotEndedBefore(gs: seq<Yield>, p: Yield, ss: seq<Yield>)
    requires gs + [p] <= ss && Tidy(ss)
    ensures !Ended(gs) && Tidy(gs) && Tidy(gs + [p]) && (gs != [] ==> !gs[0].terminator.Complete?)
  {
    EndedPrefix(gs + [p], ss);
    assert forall i :: 0 <= i < |gs| ==> gs[i] == (gs + [p])[i];
  }

  lemma CallArrives(e: End, f: End, m: Message)
    requires Direction(f, e) && m.Frame? && m.kind.CallFrame?
    requires Pieces(e.trace.got, CallFrame, m.call) + [Yield(m.payload, m.terminator)]
             <= Pieces(f.trace.sent, CallFrame, m.call)
    ensures var (ts, gs) := (Pieces(e.trace.took, CallFrame, m.call), Pieces(e.trace.got, CallFrame, m.call));
            && ts == gs && !Ended(ts) && Tidy(gs + [Yield(m.payload, m.terminator)])
    ensures Key(m.call, e.wire) !in e.host.streamed
  {
    hide Direction, Pieces, Execute, AnswerPieces, Streams;
    CallFacts(f, e, m.call);
    NotEndedBefore(Pieces(e.trace.got, CallFrame, m.call), Yield(m.payload, m.terminator),
                   Pieces(f.trace.sent, CallFrame, m.call));
  }

  lemma ResponseArrives(e: End, f: End, m: Message)
    requires PairInv(e, f) && m.Frame? && m.kind.ResponseFrame?
    requires Pieces(f.trace.sent, ResponseFrame, m.call) != []
    requires Pieces(e.trace.got, ResponseFrame, m.call) + [Yield(m.payload, m.terminator)]
             <= Pieces(f.trace.sent, ResponseFrame, m.call)
    ensures m.call in e.Wire().responses && !e.Wire().moduleStyle
  {
    hide Inv, ArgumentsFit, CallerFits, CalleeFits, Ways, AllThrough, AllInTime, Pieces, TidyProcedures;
    AnsweredWasMade(e, f, m.call);
    hide CallsNothing;
    MadeCalls(e, m.call);
    CallFacts(e, f, m.call);
    hide Direction;
    NotEndedBefore(Pieces(e.trace.got, ResponseFrame, m.call), Yield(m.payload, m.terminator),
                   Pieces(f.trace.sent, ResponseFrame, m.call)) by {
      hide Execute, AnswerPieces, Streams;
    }
  }

  lemma MadeCalls(e: End, c: Call)
    requires Local(e) && Pieces(e.trace.sent, CallFrame, c) != []
    ensures !e.Wire().moduleStyle
  {
  }

  // --- Whether a call is let through ---

  lemma EndsThere(from: End, to: End)
    requires Direction(from, to)
    ensures from.wire in from.host.wires && to.wire in to.host.wires
    ensures from.wire in from.host.outbox && to.wire in to.host.outbox
  {
  }

  /** Whatever is ongoing at one end was made by the other before what arrives now, and is still waited for there. */
  lemma OngoingIsOpen(to: End, from: End)
    requires Direction(from, to) && Direction(to, from) && |to.trace.got| <= |from.trace.sent|
    ensures to.Wire().ongoing <= OpenBefore(from.Wire().responses, from.trace.sent, |to.trace.got|)
  {
    hide Direction, Pieces, Execute, AnswerPieces, Streams;
    GotPrefix(from, to);
    assert from.trace.sent[..|to.trace.got|] == to.trace.got;
    EndsThere(from, to);
    forall d | d in to.Wire().ongoing
      ensures d in OpenBefore(from.Wire().responses, from.trace.sent, |to.trace.got|)
    {
      CallFacts(from, to, d);
      PiecesArrive(to, from, ResponseFrame, d);
      EndedPrefix(Pieces(from.trace.got, ResponseFrame, d), Pieces(to.trace.sent, ResponseFrame, d));
    }
  }

  /** A call that is turned away is a one-shot call: one that is made in pieces finds room. */
  lemma TurnedAwayIsOneShot(e: End, f: End, m: Message)
    requires PairInv(e, f) && f.flight != [] && m == f.flight[0]
    requires m.Frame? && m.kind.CallFrame? && OverLimit(e.Wire(), m.call)
    ensures Pieces(e.trace.got, CallFrame, m.call) == [] && m.terminator.Complete?
  {
    hide Inv, ArgumentsFit, CallerFits, CalleeFits, AllThrough, TidyProcedures, CallsNothing, Pieces, OpenBefore;
    var i := |e.trace.got|;
    InFlight(f.trace.sent, e.trace.got, f.flight, f.host.outbox[f.wire]);
    NextPiece(e, f, m);
    CallArrives(e, f, m);
    CallFacts(f, e, m.call);
    assert f.trace.sent[..i] == e.trace.got;
    OngoingIsOpen(e, f);
    SubsetSize(e.Wire().ongoing, OpenBefore(f.Wire().responses, f.trace.sent, i));
    assert BegunInTime(f.Wire().responses, f.trace.sent, e.Wire().max, i);
    hide Execute, AnswerPieces, Streams, Ways, AllInTime, BegunInTime;
  }
}
