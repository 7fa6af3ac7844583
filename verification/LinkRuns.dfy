/** Runs of two linked hosts, and what holds in all of them. */
module LinkRuns {
  import opened Types
  import opened RoiQueues
  import opened Stores
  import opened WireFormat
  import opened WireFormatProofs
  import opened Wires
  import opened Hosts
  import opened HostRuns
  import opened Traces
  import opened CallerTraces
  import opened CalleeTraces
  import opened Queues
  import opened Links

  // --- What the ends may do ---

  predicate OwnReceive(e: End, a: Step) {
    a.Receive? && a.wire == e.wire
  }

  /** Every message is one that both builds have integers wide enough for. */
  ghost predicate AllFit(e: End, f: End, ms: seq<Message>)
    requires e.wire in e.host.wires && f.wire in f.host.wires
  {
    forall i :: 0 <= i < |ms| ==> FitsBoth(e, f, ms[i])
  }

  /** A message has arrived whole. Message identifiers are not exhausted, and answers are vectors. */
  ghost predicate Arrives(e: End, f: End, a: Step)
    requires PairInv(e, f) && OwnReceive(e, a)
  {
    LocalInv(e, f);
    InvValid(e.host);
    var m := a.message;
    && !e.Wire().terminated
    && Parse(e.Wire().cfg, e.Wire().moduleStyle, f.out).Got?
    && m == Parse(e.Wire().cfg, e.Wire().moduleStyle, f.out).message
    && (m.Frame? && m.kind.CallFrame? ==>
          Key(m.call, e.wire) in e.host.store.calls || OverLimit(e.Wire(), m.call) || Room(e.host))
    && (m.Termination? ==> Lists(a.order, e.Wire().ongoing))
    && AllFit(e, f, Answers(e.procedures, e.host, e.wire, m))
  }

  lemma LocalInv(e: End, f: End)
    requires PairInv(e, f)
    ensures Local(e) && Local(f) && Inv(e.host) && Inv(f.host)
  {
  }

  /** Own steps besides receiving, meeting the end of the input included. No more calls of a procedure are made than
      there are indices; a call is continued and ended only while it is being made, and made in pieces only with fewer
      calls waited for than the other end's limit; closures yield only while they may; and messages fit. */
  ghost predicate Careful(e: End, f: End, a: Step)
    requires PairInv(e, f) && Enabled(e.host, a)
  {
    LocalInv(e, f);
    && CallerCare(e.host, e.wire, e.trace, a) && CalleeCare(e.host, e.wire, e.trace, a)
    && (a.Start? && a.wire == e.wire && Starts(e.host, a) ==> |e.Wire().responses| < f.Wire().max)
    && AllFit(e, f, Posted(e.procedures, e.host, e.wire, a))
  }

  ghost predicate Allowed(e: End, f: End, a: Step)
    requires PairInv(e, f)
  {
    LocalInv(e, f);
    InvValid(e.host);
    if OwnReceive(e, a) then Arrives(e, f, a) else Enabled(e.host, a) && Careful(e, f, a)
  }

  lemma AllowedIsEnabled(e: End, f: End, a: Step)
    requires PairInv(e, f) && Allowed(e, f, a)
    ensures Local(e) && Enabled(e.host, a)
    ensures CallerCare(e.host, e.wire, e.trace, a) && CalleeCare(e.host, e.wire, e.trace, a)
    ensures AllFit(e, f, Posted(e.procedures, e.host, e.wire, a))
    ensures OwnReceive(e, a) ==> f.flight != [] && a.message == f.flight[0] && !e.Wire().terminated
  {
    hide PairInv, Inv, ArgumentsFit, CallerFits, CalleeFits, TidyProcedures, CallsNothing, Enabled, CallerCare;
    hide CalleeCare;
    hide Parse, FitsBoth, Answers, Posted, Arrives, Careful;
    LocalInv(e, f);
    InvValid(e.host);
    if OwnReceive(e, a) {
      ArrivalIsEnabled(e, f, a);
    } else {
      CarefulIsEnabled(e, f, a);
    }
  }

  lemma CarefulIsEnabled(e: End, f: End, a: Step)
    requires PairInv(e, f) && Inv(e.host) && e.host.store.Valid() && Enabled(e.host, a) && Careful(e, f, a)
    ensures Local(e) && Local(f)
    ensures CallerCare(e.host, e.wire, e.trace, a) && CalleeCare(e.host, e.wire, e.trace, a)
    ensures AllFit(e, f, Posted(e.procedures, e.host, e.wire, a))
  {
    hide PairInv, Inv, ArgumentsFit, CallerFits, CalleeFits, TidyProcedures, CallsNothing, Enabled, CallerCare;
    hide CalleeCare;
    hide FitsBoth, Posted, AllFit;
    LocalInv(e, f);
  }

  lemma ArrivalIsEnabled(e: End, f: End, a: Step)
    requires PairInv(e, f) && OwnReceive(e, a) && Arrives(e, f, a)
    ensures Local(e) && Local(f) && Inv(e.host) && e.host.store.Valid() && Enabled(e.host, a)
    ensures CallerCare(e.host, e.wire, e.trace, a) && CalleeCare(e.host, e.wire, e.trace, a)
    ensures AllFit(e, f, Posted(e.procedures, e.host, e.wire, a))
    ensures f.flight != [] && a.message == f.flight[0] && !e.Wire().terminated
  {
    hide PairInv, Inv, ArgumentsFit, CallerFits, CalleeFits, TidyProcedures, CallsNothing, Parse, FitsBoth, Answers;
    hide Store.Valid, Pieces, Room, OverLimit, Lists;
    LocalInv(e, f);
    InvValid(e.host);
    ArrivalParses(e, f);
    ArrivalFits(e, f, a.message);
  }

  lemma PairDirections(e: End, f: End)
    requires PairInv(e, f)
    ensures Direction(e, f) && Direction(f, e)
  {
  }

  // --- Steps ---

  predicate FlushesOut(e: End, a: Step)
    requires e.wire in e.host.wires
  {
    a.Flush? && a.wire == e.wire && !e.Wire().terminated
  }

  /** The end that takes the step. What it flushes is under way from then on. */
  function After(e: End, a: Step): End
    requires Local(e) && Enabled(e.host, a)
  {
    var g := Stepped(e, a);
    if FlushesOut(e, a) then
      g.(flight := e.flight + e.host.outbox[e.wire], out := e.out + Concat(e.Wire().queue))
    else g
  }

  /** The other end. What has been received is no longer under way. */
  function Beside(e: End, f: End, a: Step): End
    requires PairInv(e, f) && Allowed(e, f, a)
  {
    AllowedIsEnabled(e, f, a);
    if OwnReceive(e, a) then f.(flight := f.flight[1..], out := ParsedRest(e, f)) else f
  }

  function ParsedRest(e: End, f: End): Bytes
    requires Local(e)
  {
    match Parse(e.Wire().cfg, e.Wire().moduleStyle, f.out)
    case Got(_, rest) => rest
    case _ => f.out
  }

  /** Only what is under way differs. */
  ghost predicate SameButUnderWay(f: End, g: End) {
    g == f.(flight := g.flight, out := g.out)
  }

  lemma LocalIgnores(f: End, g: End)
    requires Local(f) && SameButUnderWay(f, g)
    ensures Local(g)
  {
    hide Inv, ArgumentsFit, CallerFits, CalleeFits, TidyProcedures, CallsNothing;
  }

  lemma AfterIsLocal(e: End, f: End, a: Step)
    requires PairInv(e, f) && Allowed(e, f, a)
    ensures Local(e) && Enabled(e.host, a) && Local(After(e, a)) && SameSetup(e.Wire(), After(e, a).Wire())
    ensures Local(Beside(e, f, a)) && SameButUnderWay(f, Beside(e, f, a))
  {
    hide PairInv, Inv, ArgumentsFit, CallerFits, CalleeFits, TidyProcedures, CallsNothing, Allowed, Enabled, Next;
    hide Traced;
    AllowedIsEnabled(e, f, a);
    LocalInv(e, f);
    LocalStep(e, a);
    LocalIgnores(Stepped(e, a), After(e, a));
    LocalIgnores(f, Beside(e, f, a));
  }

  // --- What the end sends ---

  lemma WaysOut(e: End, f: End, a: Step)
    requires PairInv(e, f) && Allowed(e, f, a)
    ensures Local(e) && Enabled(e.host, a) && Local(After(e, a)) && Local(f)
    ensures Ways(After(e, a), f)
  {
    AllowedIsEnabled(e, f, a);
    AfterIsLocal(e, f, a);
    LocalInv(e, f);
    PairDirections(e, f);
    hide PairInv, Local, Inv, AllThrough, AllInTime, Allowed, Enabled, Encode, EncodeEach;
    EndsThere(e, f);
    if FlushesOut(e, a) {
      WaysFlush(e, f, a);
    } else {
      WaysPost(e, f, a);
    }
  }

  lemma WaysFlush(e: End, f: End, a: Step)
    requires Local(e) && Local(f) && Ways(e, f) && Enabled(e.host, a) && FlushesOut(e, a) && Local(After(e, a))
    ensures Ways(After(e, a), f)
  {
    hide Inv, ArgumentsFit, CallerFits, CalleeFits, TidyProcedures, CallsNothing, EncodeAll, EncodeEach, Next, Posted;
    FlushDone(e.procedures, e.host, e.wire, a);
    QueueBytes(e.host, e.wire);
    var (cfg, box) := (e.Wire().cfg, e.host.outbox[e.wire]);
    EncodeAllMore(cfg, e.flight, box);
    ConcatEncodes(cfg, box);
    assert e.trace.sent + [] == e.trace.sent;
    assert f.trace.got + e.flight + box == f.trace.got + (e.flight + box) + [];
  }

  lemma WaysPost(e: End, f: End, a: Step)
    requires Local(e) && Local(f) && Ways(e, f) && Enabled(e.host, a) && !FlushesOut(e, a) && Local(After(e, a))
    requires !(a.DropWire? && a.wire == e.wire)
    requires AllFit(e, f, Posted(e.procedures, e.host, e.wire, a))
    ensures Ways(After(e, a), f)
  {
    hide Inv, ArgumentsFit, CallerFits, CalleeFits, TidyProcedures, CallsNothing, Next, Posted, EncodeAll;
    var more := Posted(e.procedures, e.host, e.wire, a);
    if a.Flush? && a.wire == e.wire {
      FlushRefused(e.procedures, e.host, e.wire, a);
    } else {
      StepQueues(e.procedures, e.host, a, e.wire);
    }
    assert f.trace.got + e.flight + e.host.outbox[e.wire] + more
        == f.trace.got + e.flight + (e.host.outbox[e.wire] + more);
  }

  lemma FlushRefused(procedures: Procedures, h: Host, w: nat, a: Step)
    requires Inv(h) && Enabled(h, a) && w in h.wires && a == Flush(w) && h.wires[w].terminated
    ensures Next(procedures, h, a) == h && Posted(procedures, h, w, a) == []
    ensures w in h.outbox && h.outbox[w] + [] == h.outbox[w]
  {
    hide MessagesInv, MapsInv;
    WireFacts(h, w);
  }

  lemma FlushDone(procedures: Procedures, h: Host, w: nat, a: Step)
    requires Inv(h) && Enabled(h, a) && w in h.wires && a == Flush(w) && !h.wires[w].terminated
    ensures w in h.outbox && Posted(procedures, h, w, a) == []
    ensures Next(procedures, h, a) == h.(wires := h.wires[w := h.wires[w].(queue := [])], outbox := h.outbox[w := []])
  {
    hide MessagesInv, MapsInv;
    WireFacts(h, w);
  }

  // --- What the end receives ---

  lemma WaysIn(e: End, f: End, a: Step)
    requires PairInv(e, f) && Allowed(e, f, a)
    ensures Local(e) && Enabled(e.host, a) && Local(After(e, a)) && Local(Beside(e, f, a))
    ensures Ways(Beside(e, f, a), After(e, a))
  {
    hide PairInv, Inv, ArgumentsFit, CallerFits, CalleeFits, AllThrough, AllInTime, Allowed, Enabled, Parse, Next;
    hide Posted;
    hide TidyProcedures, CallsNothing, Encode, Ways;
    AllowedIsEnabled(e, f, a);
    AfterIsLocal(e, f, a);
    LocalInv(e, f);
    PairDirections(e, f);
    var (g, k) := (After(e, a), Beside(e, f, a));
    if OwnReceive(e, a) {
      ArrivesParsed(e, f, a);
      ArrivalParses(e, f);
      WaysRead(e, f, g, k);
    } else {
      WaysSame(e, f, g);
    }
  }

  lemma WaysSame(e: End, f: End, g: End)
    requires Local(e) && Local(f) && Local(g) && Ways(f, e)
    requires g.trace.got == e.trace.got && SameSetup(e.Wire(), g.Wire())
    ensures Ways(f, g)
  {
    hide Inv, ArgumentsFit, CallerFits, CalleeFits, TidyProcedures, CallsNothing, EncodeAll;
    forall i | 0 <= i < |f.trace.sent| ensures FitsBoth(f, g, f.trace.sent[i]) {
      assert FitsBoth(f, e, f.trace.sent[i]);
    }
  }

  lemma WaysRead(e: End, f: End, g: End, k: End)
    requires Local(e) && Local(f) && Local(g) && Local(k) && Ways(f, e) && SameSetup(e.Wire(), g.Wire())
    requires f.flight != [] && g.trace.got == e.trace.got + [f.flight[0]]
    requires k == f.(flight := f.flight[1..], out := EncodeAll(f.Wire().cfg, f.flight[1..]))
    ensures Ways(k, g)
  {
    hide Inv, ArgumentsFit, CallerFits, CalleeFits, TidyProcedures, CallsNothing, EncodeAll;
    InFlight(f.trace.sent, e.trace.got, f.flight, f.host.outbox[f.wire]);
    forall i | 0 <= i < |k.trace.sent| ensures FitsBoth(k, g, k.trace.sent[i]) {
      assert FitsBoth(f, e, f.trace.sent[i]);
    }
  }

  lemma ArrivesParsed(e: End, f: End, a: Step)
    requires PairInv(e, f) && Allowed(e, f, a) && OwnReceive(e, a)
    ensures Local(e) && Parse(e.Wire().cfg, e.Wire().moduleStyle, f.out).Got?
  {
    LocalInv(e, f);
    hide PairInv, Local, Parse, Inv, Store.Valid;
  }

  lemma ThroughIn(e: End, f: End, a: Step)
    requires PairInv(e, f) && Allowed(e, f, a)
    ensures Local(e) && Enabled(e.host, a) && AllThrough(After(e, a))
  {
    hide PairInv, Inv, ArgumentsFit, CallerFits, CalleeFits, TidyProcedures, CallsNothing, Ways, AllInTime, Allowed;
    hide Enabled, Next, Posted, Through, OverLimit;
    AllowedIsEnabled(e, f, a);
    LocalInv(e, f);
    PairDirections(e, f);
    var g := After(e, a);
    if OwnReceive(e, a) {
      forall c: Call ensures Through(g.trace.took, g.trace.got, c) {
        assert Through(e.trace.took, e.trace.got, c);
        ThroughOne(e, f, a.message, c);
      }
    } else {
      assert AllThrough(e);
    }
  }

  lemma ThroughOne(e: End, f: End, m: Message, c: Call)
    requires PairInv(e, f) && f.flight != [] && m == f.flight[0] && e.wire in e.host.wires
    ensures Through(e.trace.took + (if LetsThrough(e.host, e.wire, m) then [m] else []), e.trace.got + [m], c)
  {
    hide PairInv, Inv, ArgumentsFit, CallerFits, CalleeFits, TidyProcedures, CallsNothing, AllInTime, Pieces, OverLimit;
    PairDirections(e, f);
    FlightNext(e, f);
    var (gs, ts) := (Pieces(e.trace.got, CallFrame, c), Pieces(e.trace.took, CallFrame, c));
    PiecesOne(e.trace.got, m, CallFrame, c);
    PiecesOne(e.trace.took, m, CallFrame, c);
    assert e.trace.took + [] == e.trace.took;
    assert Through(e.trace.took, e.trace.got, c);
    assert gs + [] == gs && ts + [] == ts;
    if m.Frame? && m.kind.CallFrame? && m.call == c {
      NextPiece(e, f, m);
      CallArrives(e, f, m);
      hide Direction;
      if OverLimit(e.host.wires[e.wire], c) {
        TurnedAwayIsOneShot(e, f, m);
      }
    }
  }

  lemma FlightNext(e: End, f: End)
    requires Direction(f, e) && f.flight != []
    ensures e.trace.got + [f.flight[0]] <= f.trace.sent
  {
    EndsThere(f, e);
    InFlight(f.trace.sent, e.trace.got, f.flight, f.host.outbox[f.wire]);
  }

  // --- Room at the other end ---

  /** Later steps leave no more of the earlier calls open. */
  lemma OpenShrinks(e: End, g: End, i: nat)
    requires Local(e) && Local(g) && e.trace.sent <= g.trace.sent && e.trace.got <= g.trace.got && i <= |e.trace.sent|
    ensures OpenBefore(g.Wire().responses, g.trace.sent, i)
            <= OpenBefore(e.Wire().responses, e.trace.sent, i)
    ensures OpenBefore(g.Wire().responses, g.trace.sent, i) <= e.Wire().responses.Keys
  {
    hide Inv, ArgumentsFit, AnswersFit, CalleeFits, TidyProcedures, CallsNothing, Pieces;
    assert g.trace.sent[..i] == e.trace.sent[..i] <= e.trace.sent;
    forall d | d in g.Wire().responses && Pieces(g.trace.sent[..i], CallFrame, d) != []
      ensures d in e.Wire().responses
    {
      assert Waits(e.Wire(), e.trace.sent, e.trace.got, d);
      assert Waits(g.Wire(), g.trace.sent, g.trace.got, d);
      PiecesPrefix(e.trace.sent[..i], e.trace.sent, CallFrame, d);
      PiecesPrefix(e.trace.got, g.trace.got, ResponseFrame, d);
      EndedPrefix(Pieces(e.trace.got, ResponseFrame, d), Pieces(g.trace.got, ResponseFrame, d));
    }
  }

  lemma TimeOut(e: End, f: End, a: Step)
    requires PairInv(e, f) && Allowed(e, f, a)
    ensures Local(e) && Enabled(e.host, a) && Local(After(e, a)) && Local(f) && AllInTime(After(e, a), f)
  {
    AllowedIsEnabled(e, f, a);
    AfterIsLocal(e, f, a);
    LocalInv(e, f);
    PairDirections(e, f);
    var g := After(e, a);
    AfterGrows(e, a);
    hide PairInv, Local, Inv, Ways, AllThrough, Allowed, Enabled, After, BegunInTime;
    EndsThere(e, f);
    forall i | 0 <= i < |g.trace.sent| ensures BegunInTime(g.Wire().responses, g.trace.sent, f.Wire().max, i) {
      if i < |e.trace.sent| {
        assert BegunInTime(e.Wire().responses, e.trace.sent, f.Wire().max, i);
        StillInTime(e, g, f.Wire().max, i);
      } else {
        NewInTime(e, f, a, i);
      }
    }
  }

  lemma AfterGrows(e: End, a: Step)
    requires Local(e) && Enabled(e.host, a)
    ensures var g := After(e, a);
            && g.trace.sent == e.trace.sent + Posted(e.procedures, e.host, e.wire, a)
            && e.trace.sent <= g.trace.sent && e.trace.got <= g.trace.got && g.wire == e.wire
  {
    hide Inv, ArgumentsFit, CallerFits, CalleeFits, TidyProcedures, CallsNothing, Next, Posted;
  }

  lemma StillInTime(e: End, g: End, max: nat, i: nat)
    requires Local(e) && Local(g) && e.trace.sent <= g.trace.sent && e.trace.got <= g.trace.got && i < |e.trace.sent|
    requires BegunInTime(e.Wire().responses, e.trace.sent, max, i)
    ensures BegunInTime(g.Wire().responses, g.trace.sent, max, i)
  {
    hide Inv, ArgumentsFit, CallerFits, CalleeFits, TidyProcedures, CallsNothing, Pieces, OpenBefore;
    OpenShrinks(e, g, i);
    SubsetSize(OpenBefore(g.Wire().responses, g.trace.sent, i), OpenBefore(e.Wire().responses, e.trace.sent, i));
    assert g.trace.sent[..i] == e.trace.sent[..i];
  }

  lemma NewInTime(e: End, f: End, a: Step, i: nat)
    requires PairInv(e, f) && Allowed(e, f, a)
    requires Local(e) && Enabled(e.host, a) && Local(After(e, a)) && Local(f)
    requires |e.trace.sent| <= i < |After(e, a).trace.sent|
    ensures BegunInTime(After(e, a).Wire().responses, After(e, a).trace.sent, f.Wire().max, i)
  {
    hide PairInv, Inv, ArgumentsFit, CallerFits, CalleeFits, TidyProcedures, CallsNothing, Pieces, OpenBefore, Allowed;
    hide Enabled, Next, After, Posted;
    AllowedIsEnabled(e, f, a);
    AfterGrows(e, a);
    var (g, more, j) := (After(e, a), Posted(e.procedures, e.host, e.wire, a), i - |e.trace.sent|);
    var m := more[j];
    assert g.trace.sent[i] == m;
    if m.Frame? && m.kind.CallFrame? && !m.terminator.Complete? && Pieces(g.trace.sent[..i], CallFrame, m.call) == [] {
      PiecesPrefix(e.trace.sent, g.trace.sent[..i], CallFrame, m.call);
      OnlyStartBegins(e.procedures, e.host, e.wire, e.trace, a, j);
      StartsInTime(e, f, a);
      assert i == |e.trace.sent|;
      OpenShrinks(e, g, i);
      SubsetSize(OpenBefore(g.Wire().responses, g.trace.sent, i), e.Wire().responses.Keys);
    }
  }

  /** A step that posts the first frame of a call, and not its only one, starts the call. */
  lemma OnlyStartBegins(procedures: Procedures, h: Host, w: nat, tr: Trace, a: Step, j: nat)
    requires Inv(h) && Enabled(h, a) && w in h.wires && CallerCare(h, w, tr, a) && j < |Posted(procedures, h, w, a)|
    requires var m := Posted(procedures, h, w, a)[j];
             m.Frame? && m.kind.CallFrame? && !m.terminator.Complete? && Pieces(tr.sent, CallFrame, m.call) == []
    ensures a.Start? && a.wire == w && Starts(h, a) && j == 0
  {
    hide MessagesInv, MapsInv, Pieces, Answers;
    InvValid(h);
    if a.Receive? && a.wire == w {
      AnswersAreResponses(procedures, h, w, a.message);
    }
  }

  lemma StartsInTime(e: End, f: End, a: Step)
    requires PairInv(e, f) && Allowed(e, f, a) && a.Start? && a.wire == e.wire
    requires Local(e) && Local(f) && Starts(e.host, a)
    ensures |e.Wire().responses| < f.Wire().max
  {
    hide PairInv, Inv, ArgumentsFit, CallerFits, CalleeFits, TidyProcedures, CallsNothing, Enabled, AllFit;
  }

  lemma TimeIn(e: End, f: End, a: Step)
    requires PairInv(e, f) && Allowed(e, f, a)
    ensures Local(e) && Enabled(e.host, a) && Local(After(e, a)) && Local(Beside(e, f, a))
    ensures AllInTime(Beside(e, f, a), After(e, a))
  {
    AfterIsLocal(e, f, a);
    LocalInv(e, f);
    PairDirections(e, f);
    hide PairInv, Inv, ArgumentsFit, CallerFits, CalleeFits, TidyProcedures, CallsNothing, Allowed, Enabled, After;
    hide Beside;
    hide BegunInTime, Ways, AllThrough;
  }

  /** Whichever end takes an allowed step, the invariant of the pair stays. */
  lemma PairStep(e: End, f: End, a: Step)
    requires PairInv(e, f) && Allowed(e, f, a)
    ensures Local(e) && Enabled(e.host, a) && PairInv(After(e, a), Beside(e, f, a))
  {
    PairThrough(e, f);
    hide PairInv, Local, Ways, AllThrough, AllInTime, After, Beside, Allowed, Enabled, SameButUnderWay;
    AfterIsLocal(e, f, a);
    LocalInv(e, f);
    WaysOut(e, f, a);
    WaysIn(e, f, a);
    ThroughIn(e, f, a);
    TimeOut(e, f, a);
    TimeIn(e, f, a);
    SameDirection(After(e, a), f, Beside(e, f, a));
    Together(After(e, a), Beside(e, f, a));
  }

  lemma Together(g: End, k: End)
    requires Local(g) && Local(k) && Ways(g, k) && Ways(k, g)
    requires AllThrough(g) && AllThrough(k) && AllInTime(g, k) && AllInTime(k, g)
    ensures PairInv(g, k)
  {
    hide Local, Ways, AllThrough, AllInTime;
  }

  lemma PairThrough(e: End, f: End)
    requires PairInv(e, f)
    ensures AllThrough(e) && AllThrough(f)
  {
    hide Local, Ways, AllThrough, AllInTime;
  }

  lemma SameDirection(g: End, f: End, k: End)
    requires Local(g) && Local(f) && Local(k) && SameButUnderWay(f, k) && AllThrough(f)
    requires Ways(g, f) && AllInTime(g, f)
    ensures Ways(g, k) && AllInTime(g, k) && AllThrough(k)
  {
    hide Inv, ArgumentsFit, CallerFits, CalleeFits, TidyProcedures, CallsNothing, EncodeAll, Through, BegunInTime;
  }
}
