/** The calling side of a wire: which of its calls are waited for, and what their responses hold. */
module CallerTraces {
  import opened Types
  import opened RoiQueues
  import opened Stores
  import opened Chunks
  import opened WireFormat
  import opened Wires
  import opened Hosts
  import opened HostCalls
  import opened HostResponses
  import opened HostSteps
  import opened HostRuns
  import opened HostContents
  import opened HostEffects
  import opened Traces

  predicate InProgress(sent: seq<Message>, c: Call) {
    Pieces(sent, CallFrame, c) != [] && !Ended(Pieces(sent, CallFrame, c))
  }

  /** How many calls of a procedure have been made, of those that there are indices for. */
  function Made(sent: seq<Message>, procedure: nat, limit: nat): nat {
    |set i: nat | i < limit && Pieces(sent, CallFrame, Call(procedure, i)) != []|
  }

  /** The user of the wire: no more calls of a procedure are made than there are indices, and a call is continued or
      ended only while it is being made. The peer: a response is for a call that is waited for. */
  ghost predicate CallerCare(h: Host, w: nat, tr: Trace, a: Step)
    requires w in h.wires
  {
    match a
    case Start(v, p, args) =>
      v == w && Starts(h, a) ==> Made(tr.sent, p, h.wires[w].cfg.idx.Limit()) < h.wires[w].cfg.idx.Limit()
    case Once(v, p, _) =>
      v == w && Starts(h, a) ==> Made(tr.sent, p, h.wires[w].cfg.idx.Limit()) < h.wires[w].cfg.idx.Limit()
    case More(v, c, args) => v == w && h.wires[w].CanCall().Ok? && args != [] ==> InProgress(tr.sent, c)
    case Finally(v, c) => v == w && h.wires[w].CanCall().Ok? ==> InProgress(tr.sent, c)
    case Receive(v, m, _) => v == w && m.Frame? && m.kind.ResponseFrame? ==> m.call in h.wires[w].responses
    case DropWire(v, _) => v != w
    case _ => true
  }

  predicate AnswerFits(chunks: seq<Bytes>, finished: bool, ps: seq<Yield>) {
    chunks == Gather([[]], ps) && (finished <==> Ended(ps))
  }

  ghost predicate AnswerAt(h: Host, id: nat, got: seq<Message>)
    requires h.store.Valid()
  {
    && id in h.owner && (h.owner[id].Response? || h.owner[id].Finished?) && id in h.store.messages
    && AnswerFits(Content(h.store, id), h.owner[id].Finished?, Pieces(got, ResponseFrame, h.owner[id].call))
  }

  /** A response holds the pieces received for its call and is finished when they are. */
  ghost predicate AnswersFit(h: Host, w: nat, got: seq<Message>) {
    h.store.Valid() && forall id :: id in h.owner && BelongsTo(h.owner[id], w) ==> AnswerAt(h, id, got)
  }

  predicate Waits(x: Wire, sent: seq<Message>, got: seq<Message>, c: Call) {
    && (c in x.responses <==> Pieces(sent, CallFrame, c) != [] && !Ended(Pieces(got, ResponseFrame, c)))
    && (Pieces(sent, CallFrame, c) == [] ==> Pieces(got, ResponseFrame, c) == [])
    && Tidy(Pieces(sent, CallFrame, c)) && Tidy(Pieces(got, ResponseFrame, c))
  }

  /** The calls waited for are those made whose last response piece has not come. */
  ghost predicate WaitingFits(x: Wire, sent: seq<Message>, got: seq<Message>) {
    forall c: Call :: Waits(x, sent, got, c)
  }

  ghost predicate CallerWaits(h: Host, w: nat, tr: Trace) {
    w in h.wires && AnswersFit(h, w, tr.got) && WaitingFits(h.wires[w], tr.sent, tr.got)
  }

  /** The calls made of a procedure are those up to its counter. */
  ghost predicate CountersFit(x: Wire, sent: seq<Message>) {
    && (forall c: Call :: Pieces(sent, CallFrame, c) != [] <==>
          c.procedure in x.counters && c.index <= x.counters[c.procedure])
    && (forall p: nat :: p in x.counters ==> x.counters[p] < x.cfg.idx.Limit())
  }

  ghost predicate CallerFits(h: Host, w: nat, tr: Trace) {
    CallerWaits(h, w, tr) && CountersFit(h.wires[w], tr.sent)
  }

  // --- Call indices ---

  /** The next index of a procedure is unused exactly as long as fewer calls of it have been made than there are
      indices. */
  lemma UnusedIff(x: Wire, sent: seq<Message>, procedure: nat)
    requires CountersFit(x, sent)
    ensures Pieces(sent, CallFrame, x.NextCall(procedure)) == []
            <==> Made(sent, procedure, x.cfg.idx.Limit()) < x.cfg.idx.Limit()
  {
    hide Pieces;
    var limit := x.cfg.idx.Limit();
    var made := set i: nat | i < limit && Pieces(sent, CallFrame, Call(procedure, i)) != [];
    assert forall i: nat :: i in made <==> procedure in x.counters && i <= x.counters[procedure];
    if procedure in x.counters {
      assert made == Below(x.counters[procedure] + 1);
    } else {
      assert made == {};
    }
  }

  lemma CountersPost(x: Wire, y: Wire, sent: seq<Message>, more: seq<Message>)
    requires CountersFit(x, sent) && y.counters == x.counters && y.cfg == x.cfg
    requires forall c: Call :: Pieces(more, CallFrame, c) != [] ==> Pieces(sent, CallFrame, c) != []
    ensures CountersFit(y, sent + more)
  {
    hide Pieces;
    forall c: Call
      ensures Pieces(sent + more, CallFrame, c) == Pieces(sent, CallFrame, c) + Pieces(more, CallFrame, c)
    {
      PiecesMore(sent, more, CallFrame, c);
    }
  }

  lemma CountersBegin(x: Wire, y: Wire, sent: seq<Message>, m: Message)
    requires CountersFit(x, sent) && m.Frame? && m.kind.CallFrame? && m.call == x.NextCall(m.call.procedure)
    requires y.counters == x.counters[m.call.procedure := m.call.index] && y.cfg == x.cfg
    requires Made(sent, m.call.procedure, x.cfg.idx.Limit()) < x.cfg.idx.Limit()
    ensures CountersFit(y, sent + [m])
  {
    hide Pieces, Made;
    UnusedIff(x, sent, m.call.procedure);
    forall c: Call
      ensures Pieces(sent + [m], CallFrame, c) != [] <==> Pieces(sent, CallFrame, c) != [] || c == m.call
    {
      PiecesOne(sent, m, CallFrame, c);
    }
  }

  lemma CountersStep(procedures: Procedures, h: Host, w: nat, tr: Trace, a: Step)
    requires Inv(h) && Enabled(h, a) && w in h.wires && CountersFit(h.wires[w], tr.sent) && CallerCare(h, w, tr, a)
    ensures var g := Next(procedures, h, a);
            w in g.wires && CountersFit(g.wires[w], Traced(procedures, h, w, tr, a).sent)
  {
    hide MessagesInv, MapsInv, Store.Valid, Received, Terminate, MayReceive, CountersFit, LetsThrough, Made, CanBegin;
    hide Answers, NextHandling, NextCalling, Pieces;
    InvValid(h);
    WireFacts(h, w);
    var (x, g, more) := (h.wires[w], Next(procedures, h, a), Posted(procedures, h, w, a));
    NoCallPieces();
    if !Touches(a, w) {
      StepElsewhere(procedures, h, a, w);
      ElsewhereThere(h, g, w);
      forall c: Call | Pieces(more, CallFrame, c) != [] ensures Pieces(tr.sent, CallFrame, c) != [] {
        PostedCalls(procedures, h, w, tr, a, c);
      }
      CountersPost(x, g.wires[w], tr.sent, more);
    } else {
      match a
      case Receive(_, m, order) =>
        ReceivedCounts(procedures, h, w, m, order);
        AnswersAreResponses(procedures, h, w, m);
        forall c: Call ensures Pieces(more, CallFrame, c) == [] {
          RepliesAreResponses(more, c);
        }
        CountersPost(x, g.wires[w], tr.sent, more);
      case ReadEof(_, order) =>
        TerminateShape(h, w, order);
        CountersPost(x, g.wires[w], tr.sent, []);
      case Later(_, call, y) =>
        forall c: Call ensures Pieces(more, CallFrame, c) == [] {
          RepliesAreResponses(more, c);
        }
        CountersPost(x, g.wires[w], tr.sent, more);
      case _ => CountersBeginning(procedures, h, w, tr, a);
    }
  }

  lemma NoCallPieces()
    ensures forall c :: Pieces([], CallFrame, c) == []
  {
  }

  lemma CountersBeginning(procedures: Procedures, h: Host, w: nat, tr: Trace, a: Step)
    requires Inv(h) && Enabled(h, a) && w in h.wires && CountersFit(h.wires[w], tr.sent) && CallerCare(h, w, tr, a)
    requires (a.Start? || a.Once?) && a.wire == w
    ensures var g := NextCalling(h, a);
            w in g.wires && CountersFit(g.wires[w], tr.sent + Posted(procedures, h, w, a))
  {
    hide MessagesInv, MapsInv, Store.Valid, CountersFit, Made, CanBegin, Begin, Register, Content, Undisturbed;
    WireFacts(h, w);
    NoCallPieces();
    if Starts(h, a) {
      BeginningCalls(h, a, w);
      BeginningCounts(h, a, w);
      CountersBegin(h.wires[w], NextCalling(h, a).wires[w], tr.sent, Posted(procedures, h, w, a)[0]);
    } else {
      CountersPost(h.wires[w], NextCalling(h, a).wires[w], tr.sent, []);
    }
  }

  // --- Pieces of what a step posts ---

  /** Replies are no call frames. */
  lemma {:induction false} RepliesAreResponses(ms: seq<Message>, c: Call)
    requires forall i :: 0 <= i < |ms| ==> ms[i].Frame? && ms[i].kind.ResponseFrame?
    ensures Pieces(ms, CallFrame, c) == []
    decreases |ms|
  {
    if ms != [] {
      RepliesAreResponses(ms[..|ms| - 1], c);
    }
  }

  lemma PiecesSingle(m: Message, kind: Kind, c: Call)
    ensures Pieces([m], kind, c) == PieceOf(m, kind, c)
  {
    PiecesOne([], m, kind, c);
    assert [] + [m] == [m];
  }

  /** The call frames that a step posts: at most one, of the call the step is about. */
  lemma PostedCalls(procedures: Procedures, h: Host, w: nat, tr: Trace, a: Step, c: Call)
    requires Inv(h) && Enabled(h, a) && w in h.wires && !Touches(a, w) && CallerCare(h, w, tr, a)
    ensures var more := Pieces(Posted(procedures, h, w, a), CallFrame, c);
            more == [] || (InProgress(tr.sent, c) && |more| == 1)
  {
    hide MessagesInv, MapsInv;
    match a
    case More(v, d, args) => PiecesSingle(Frame(CallFrame, d, None, args), CallFrame, c);
    case Finally(v, d) => PiecesSingle(Frame(CallFrame, d, Complete, []), CallFrame, c);
    case Tell(v, m) => PiecesSingle(m, CallFrame, c);
    case _ =>
  }

  // --- Steps elsewhere ---

  lemma CallerElsewhere(procedures: Procedures, h: Host, w: nat, tr: Trace, a: Step)
    requires Inv(h) && Enabled(h, a) && CallerWaits(h, w, tr) && CallerCare(h, w, tr, a) && !Touches(a, w)
    ensures CallerWaits(Next(procedures, h, a), w, Traced(procedures, h, w, tr, a))
  {
    hide MessagesInv, MapsInv, Store.Valid, Content, Posted, Next, Pieces, InProgress, CallerCare, Elsewhere;
    var g := Next(procedures, h, a);
    StepElsewhere(procedures, h, a, w);
    ElsewhereThere(h, g, w);
    AnswersElsewhere(h, g, w, tr.got);
    var more := Posted(procedures, h, w, a);
    forall c: Call ensures Waits(g.wires[w], tr.sent + more, tr.got, c) {
      PostedCalls(procedures, h, w, tr, a, c);
      PiecesMore(tr.sent, more, CallFrame, c);
      assert Waits(h.wires[w], tr.sent, tr.got, c);
      PostingWaits(h.wires[w], g.wires[w], tr.sent, more, tr.got, c);
    }
  }

  lemma PostingWaits(x: Wire, y: Wire, sent: seq<Message>, more: seq<Message>, got: seq<Message>, c: Call)
    requires Waits(x, sent, got, c) && y.responses == x.responses
    requires Pieces(sent + more, CallFrame, c) == Pieces(sent, CallFrame, c) + Pieces(more, CallFrame, c)
    requires var qs := Pieces(more, CallFrame, c); qs == [] || (InProgress(sent, c) && |qs| == 1)
    ensures Waits(y, sent + more, got, c)
  {
    hide Pieces;
    var (ps, qs) := (Pieces(sent, CallFrame, c), Pieces(more, CallFrame, c));
    if qs == [] {
      assert ps + qs == ps;
    } else {
      assert ps + qs == ps + [qs[0]];
      TidyMore(ps, qs[0]);
    }
  }

  lemma AnswersElsewhere(h: Host, g: Host, w: nat, got: seq<Message>)
    requires Elsewhere(h, g, w) && AnswersFit(h, w, got)
    ensures AnswersFit(g, w, got)
  {
    hide Store.Valid, Content, Pieces, AnswerFits;
  }

  // --- Calls begin ---

  lemma CallerBegins(procedures: Procedures, h: Host, w: nat, tr: Trace, a: Step)
    requires Inv(h) && Enabled(h, a) && CallerWaits(h, w, tr) && CallerCare(h, w, tr, a)
    requires (a.Start? || a.Once?) && a.wire == w
    requires Starts(h, a) ==> Pieces(tr.sent, CallFrame, h.wires[w].NextCall(a.procedure)) == []
    ensures CallerWaits(Next(procedures, h, a), w, Traced(procedures, h, w, tr, a))
  {
    hide MessagesInv, MapsInv, Store.Valid, Content, Begin, Register, CanBegin;
    InvValid(h);
    WireFacts(h, w);
    assert tr.sent + [] == tr.sent;
    if Starts(h, a) {
      BeginningCalls(h, a, w);
      var (g, c) := (NextCalling(h, a), h.wires[w].NextCall(a.procedure));
      var m := Frame(CallFrame, c, if a.Start? then None else Complete, a.args);
      BegunAnswers(h, g, w, tr.got, c, h.store.messageIds.Next(), tr.sent);
      BegunWaits(h.wires[w], g.wires[w], tr.sent, m, tr.got);
    }
  }

  lemma BegunAnswers(h: Host, g: Host, w: nat, got: seq<Message>, c: Call, id: nat, sent: seq<Message>)
    requires w in h.wires && AnswersFit(h, w, got) && WaitingFits(h.wires[w], sent, got)
    requires Pieces(sent, CallFrame, c) == []
    requires Undisturbed(h, g, w, {id}) && g.owner == h.owner[id := Response(w, c)]
    requires id in g.store.messages && Content(g.store, id) == [[]]
    ensures AnswersFit(g, w, got)
  {
    hide Store.Valid, Content, Pieces;
    assert Waits(h.wires[w], sent, got, c);
    assert Gather([[]], []) == [[]];
  }

  lemma BegunWaits(x: Wire, y: Wire, sent: seq<Message>, m: Message, got: seq<Message>)
    requires WaitingFits(x, sent, got) && m.Frame? && m.kind.CallFrame? && Pieces(sent, CallFrame, m.call) == []
    requires y.responses.Keys == x.responses.Keys + {m.call}
    ensures WaitingFits(y, sent + [m], got)
  {
    hide Pieces;
    forall c: Call ensures Waits(y, sent + [m], got, c) {
      assert Waits(x, sent, got, c);
      PiecesOne(sent, m, CallFrame, c);
      var ps := Pieces(sent, CallFrame, c);
      if c == m.call {
        TidyMore(ps, Yield(m.payload, m.terminator));
      } else {
        assert ps + [] == ps;
      }
    }
  }

  // --- Responses come ---

  lemma CallerResponds(h: Host, w: nat, sent: seq<Message>, got: seq<Message>, m: Message)
    requires Inv(h) && w in h.wires && AnswersFit(h, w, got) && WaitingFits(h.wires[w], sent, got)
    requires m.Frame? && m.kind.ResponseFrame? && m.call in h.wires[w].responses
    requires h.store.Valid() && h.wires[w].responses[m.call] in h.store.messages
    ensures var g := Respond(h, w, m.call, m.terminator, m.payload);
            w in g.wires && AnswersFit(g, w, got + [m]) && WaitingFits(g.wires[w], sent, got + [m])
  {
    hide MessagesInv, MapsInv, Store.Valid, Content, Respond, AnswersFit, WaitingFits;
    var g := Respond(h, w, m.call, m.terminator, m.payload);
    RespondKeeps(h, w, m.call, m.terminator, m.payload);
    InvValid(g);
    RespondShape(h, w, m.call, m.terminator, m.payload);
    RespondedAnswers(h, w, sent, got, m);
    RespondedWaits(h.wires[w], g.wires[w], sent, got, m);
  }

  lemma RespondedWaits(x: Wire, y: Wire, sent: seq<Message>, got: seq<Message>, m: Message)
    requires WaitingFits(x, sent, got) && m.Frame? && m.kind.ResponseFrame? && m.call in x.responses
    requires y == if m.terminator.Complete? then x.(responses := x.responses - {m.call}) else x
    ensures WaitingFits(y, sent, got + [m])
  {
    hide Pieces;
    forall c: Call ensures Waits(y, sent, got + [m], c) {
      assert Waits(x, sent, got, c);
      PiecesOne(got, m, ResponseFrame, c);
      var ps := Pieces(got, ResponseFrame, c);
      if c == m.call {
        TidyMore(ps, Yield(m.payload, m.terminator));
      } else {
        assert ps + [] == ps;
      }
    }
  }

  lemma RespondedAnswers(h: Host, w: nat, sent: seq<Message>, got: seq<Message>, m: Message)
    requires Inv(h) && w in h.wires && AnswersFit(h, w, got) && WaitingFits(h.wires[w], sent, got)
    requires m.Frame? && m.kind.ResponseFrame? && m.call in h.wires[w].responses
    requires h.store.Valid() && h.wires[w].responses[m.call] in h.store.messages
    ensures AnswersFit(Respond(h, w, m.call, m.terminator, m.payload), w, got + [m])
  {
    hide MessagesInv, MapsInv, Store.Valid, Content, Respond, Pieces, Gather, Gathered, AnswerAt, WaitingFits;
    var g := Respond(h, w, m.call, m.terminator, m.payload);
    RespondKeeps(h, w, m.call, m.terminator, m.payload);
    InvValid(g);
    forall id | id in g.owner && BelongsTo(g.owner[id], w) ensures AnswerAt(g, id, got + [m]) {
      RespondedOne(h, w, sent, got, m, id);
    }
  }

  lemma RespondedOne(h: Host, w: nat, sent: seq<Message>, got: seq<Message>, m: Message, id: nat)
    requires Inv(h) && w in h.wires && AnswersFit(h, w, got) && WaitingFits(h.wires[w], sent, got)
    requires m.Frame? && m.kind.ResponseFrame? && m.call in h.wires[w].responses
    requires h.store.Valid() && h.wires[w].responses[m.call] in h.store.messages
    requires var g := Respond(h, w, m.call, m.terminator, m.payload); id in g.owner && BelongsTo(g.owner[id], w)
    ensures var g := Respond(h, w, m.call, m.terminator, m.payload); g.store.Valid() && AnswerAt(g, id, got + [m])
  {
    hide MessagesInv, MapsInv, Store.Valid, Content, Respond, Pieces, Gather, Gathered;
    var (g, target) := (Respond(h, w, m.call, m.terminator, m.payload), h.wires[w].responses[m.call]);
    RespondKeeps(h, w, m.call, m.terminator, m.payload);
    Owned(g);
    Owned(h);
    RespondShape(h, w, m.call, m.terminator, m.payload);
    AwaitsThere(h, w, m.call);
    assert Waits(h.wires[w], sent, got, m.call);
    var ps := Pieces(got, ResponseFrame, g.owner[id].call);
    PiecesOne(got, m, ResponseFrame, g.owner[id].call);
    assert AnswerAt(h, id, got);
    if id == target {
      var p := Yield(m.payload, m.terminator);
      RespondContent(h, w, m.call, m.terminator, m.payload);
      GatherAppend([[]], ps, p);
      TidyMore(ps, p);
    } else {
      OtherCall(h, w, m.call, id);
      assert ps + [] == ps;
    }
  }

  lemma OtherCall(h: Host, w: nat, call: Call, id: nat)
    requires Inv(h) && w in h.wires && call in h.wires[w].responses && id != h.wires[w].responses[call]
    ensures id in h.owner ==> h.owner[id] != Response(w, call)
  {
    hide MessagesInv, WireIds, ArgumentsOwned, StreamsKnown, Queued;
  }

  // --- Any step ---

  lemma CallerTerminates(h: Host, w: nat, order: seq<Call>, sent: seq<Message>, got: seq<Message>)
    requires Inv(h) && w in h.wires && Lists(order, h.wires[w].ongoing)
    requires AnswersFit(h, w, got) && WaitingFits(h.wires[w], sent, got)
    ensures h.store.Valid()
    ensures var g := Terminate(h, w, order); w in g.wires && AnswersFit(g, w, got) && WaitingFits(g.wires[w], sent, got)
  {
    hide MessagesInv, MapsInv, Store.Valid, Content, Terminate, Pieces, AnswerFits;
    InvValid(h);
    var g := Terminate(h, w, order);
    TerminateKeeps(h, w, order);
    Owned(g);
    TerminateShape(h, w, order);
    forall id | id in g.owner && BelongsTo(g.owner[id], w) ensures AnswerAt(g, id, got) {
      assert AnswerAt(h, id, got);
    }
    forall c: Call ensures Waits(g.wires[w], sent, got, c) {
      assert Waits(h.wires[w], sent, got, c);
    }
  }

  /** Messages that are no response frames say nothing about responses. */
  lemma CallerIgnores(h: Host, g: Host, w: nat, sent: seq<Message>, got: seq<Message>, m: Message)
    requires AnswersFit(h, w, got) && w in h.wires && WaitingFits(h.wires[w], sent, got)
    requires !(m.Frame? && m.kind.ResponseFrame?)
    requires w in g.wires && g.wires[w].responses == h.wires[w].responses && SameResponses(h, g)
    ensures AnswersFit(g, w, got + [m]) && WaitingFits(g.wires[w], sent, got + [m])
  {
    hide Store.Valid, Content, Pieces, AnswerFits;
    forall c: Call ensures Pieces(got + [m], ResponseFrame, c) == Pieces(got, ResponseFrame, c) {
      PiecesOne(got, m, ResponseFrame, c);
      assert Pieces(got, ResponseFrame, c) + [] == Pieces(got, ResponseFrame, c);
    }
    forall id | id in g.owner && BelongsTo(g.owner[id], w) ensures AnswerAt(g, id, got + [m]) {
      assert AnswerAt(h, id, got);
    }
    forall c: Call ensures Waits(g.wires[w], sent, got + [m], c) {
      assert Waits(h.wires[w], sent, got, c);
    }
  }

  /** What is sent besides call frames says nothing about calls. */
  lemma CallerPosts(x: Wire, sent: seq<Message>, more: seq<Message>, got: seq<Message>)
    requires WaitingFits(x, sent, got)
    requires forall i :: 0 <= i < |more| ==> more[i].Frame? && more[i].kind.ResponseFrame?
    ensures WaitingFits(x, sent + more, got)
  {
    hide Pieces;
    forall c: Call ensures Waits(x, sent + more, got, c) {
      assert Waits(x, sent, got, c);
      PiecesMore(sent, more, CallFrame, c);
      RepliesAreResponses(more, c);
      assert Pieces(sent, CallFrame, c) + [] == Pieces(sent, CallFrame, c);
    }
  }

  lemma SameResponsesItself(h: Host)
    requires Inv(h)
    ensures SameResponses(h, h)
  {
    Owned(h);
  }

  lemma CallerReceives(procedures: Procedures, h: Host, w: nat, sent: seq<Message>, got: seq<Message>, m: Message,
                       order: seq<Call>)
    requires Inv(h) && w in h.wires && !h.wires[w].terminated && MayReceive(h, w, m, order)
    requires AnswersFit(h, w, got) && WaitingFits(h.wires[w], sent, got)
    requires m.Frame? && m.kind.ResponseFrame? ==> m.call in h.wires[w].responses
    ensures h.store.Valid()
    ensures var g := Received(procedures, h, w, m, order);
            && w in g.wires && AnswersFit(g, w, got + [m])
            && WaitingFits(g.wires[w], sent + Answers(procedures, h, w, m), got + [m])
  {
    hide MessagesInv, MapsInv, Store.Valid, Admit, Respond, Terminate, AnswersFit, WaitingFits, Replies, ArgumentsWith;
    hide Execute, SameResponses, ArgsOf;
    InvValid(h);
    WireFacts(h, w);
    var g := Received(procedures, h, w, m, order);
    assert sent + [] == sent;
    if LetsThrough(h, w, m) {
      AdmitArgs(procedures, h, w, m.call, m.terminator, m.payload);
      AdmittedWire(procedures, h, w, m.call, m.terminator, m.payload);
      CallerIgnores(h, g, w, sent, got, m);
      AnswersAreResponses(procedures, h, w, m);
      CallerPosts(g.wires[w], sent, Answers(procedures, h, w, m), got + [m]);
    } else if m.Frame? && m.kind.ResponseFrame? {
      RespondKeeps(h, w, m.call, m.terminator, m.payload);
      CallerResponds(h, w, sent, got, m);
    } else if m.Termination? {
      CallerTerminates(h, w, order, sent, got);
      SameResponsesItself(g) by {
        TerminateKeeps(h, w, order);
      }
      CallerIgnores(g, g, w, sent, got, m);
    } else {
      SameResponsesItself(h);
      CallerIgnores(h, h, w, sent, got, m);
    }
  }

  lemma AnswersAreResponses(procedures: Procedures, h: Host, w: nat, m: Message)
    requires h.store.Valid() && w in h.wires
    ensures var ms := Answers(procedures, h, w, m);
            forall i :: 0 <= i < |ms| ==> ms[i].Frame? && ms[i].kind.ResponseFrame?
  {
    hide Store.Valid, Execute, ArgumentsWith;
  }

  /** The caller's bookkeeping and the responses stay accounted for, whatever the other wires do. */
  lemma CallerStep(procedures: Procedures, h: Host, w: nat, tr: Trace, a: Step)
    requires Inv(h) && Enabled(h, a) && CallerFits(h, w, tr) && CallerCare(h, w, tr, a)
    ensures CallerFits(Next(procedures, h, a), w, Traced(procedures, h, w, tr, a))
  {
    hide MessagesInv, MapsInv, Store.Valid, Received, Terminate, MayReceive, AnswersFit, WaitingFits, LetsThrough;
    hide Answers, NextHandling, NextCalling, Starts, Content;
    InvValid(h);
    assert tr.sent + [] == tr.sent;
    CountersStep(procedures, h, w, tr, a);
    if !Touches(a, w) {
      CallerElsewhere(procedures, h, w, tr, a);
    } else {
      match a
      case Receive(_, m, order) => CallerReceives(procedures, h, w, tr.sent, tr.got, m, order);
      case ReadEof(_, order) => CallerTerminates(h, w, order, tr.sent, tr.got);
      case Later(_, call, y) => CallerYields(procedures, h, w, tr, a);
      case Start(_, p, _) =>
        UnusedIff(h.wires[w], tr.sent, p);
        CallerBegins(procedures, h, w, tr, a);
      case Once(_, p, _) =>
        UnusedIff(h.wires[w], tr.sent, p);
        CallerBegins(procedures, h, w, tr, a);
      case _ =>
    }
  }

  lemma CallerYields(procedures: Procedures, h: Host, w: nat, tr: Trace, a: Step)
    requires Inv(h) && Enabled(h, a) && CallerWaits(h, w, tr) && a.Later? && a.wire == w
    ensures CallerWaits(Next(procedures, h, a), w, Traced(procedures, h, w, tr, a))
  {
    hide MessagesInv, MapsInv, Store.Valid, Content, Pieces, AnswerFits, Encode, WaitingFits;
    InvValid(h);
    var g := Next(procedures, h, a);
    var more := Posted(procedures, h, w, a);
    forall id | id in g.owner && BelongsTo(g.owner[id], w) ensures AnswerAt(g, id, tr.got) {
      assert AnswerAt(h, id, tr.got);
    }
    CallerPosts(h.wires[w], tr.sent, more, tr.got);
    SameWaits(h.wires[w], g.wires[w], tr.sent + more, tr.got);
  }

  lemma SameWaits(x: Wire, y: Wire, sent: seq<Message>, got: seq<Message>)
    requires WaitingFits(x, sent, got) && y.responses == x.responses
    ensures WaitingFits(y, sent, got)
  {
    hide Pieces;
    forall c: Call ensures Waits(y, sent, got, c) {
      assert Waits(x, sent, got, c);
    }
  }
}
