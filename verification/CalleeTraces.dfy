/** The answering side of a wire: which calls are ongoing, and what has been answered to each. */
module CalleeTraces {
  import opened Types
  import opened Stores
  import opened Chunks
  import opened WireFormat
  import opened Wires
  import opened Hosts
  import opened HostCalls
  import opened HostResponses
  import opened HostSteps
  import opened HostRuns
  import opened HostContents
  import opened HostEffects
  import opened Traces

  /** What a procedure answers before the call that ran it returns. */
  function AnswerPieces(ex: Execution): seq<Yield> {
    ex.yielded + match ex.result
                 case Ok(Some(ret)) => [Yield(ret, Complete)]
                 case _ => []
  }

  /** Streaming closures yield nothing after they have completed their response. */
  ghost predicate TidyProcedures(procedures: Procedures) {
    forall p, args :: p in procedures && procedures[p].Streaming? ==> Tidy(procedures[p].start(args).yielded)
  }

  /** The peer sends no frames of a call after its last one, and the closure of a streaming procedure yields nothing
      once it has completed the response or let its yielder go. */
  ghost predicate CalleeCare(h: Host, w: nat, tr: Trace, a: Step)
    requires w in h.wires
  {
    match a
    case Receive(v, m, _) => v == w && m.Frame? && m.kind.CallFrame? ==> !Ended(Pieces(tr.took, CallFrame, m.call))
    case Later(v, call, _) => v == w ==> Key(call, w) in h.streamed
    case DropWire(v, _) => v != w
    case _ => true
  }

  /** A call is ongoing from its first frame to its last answer. Once its arguments are complete it is answered with
      what its procedure makes of all of them, and by a streaming procedure with whatever is yielded later. */
  predicate Served(procedures: Procedures, procedure: nat, ongoing: bool, streamed: bool, ps: seq<Yield>,
                   rs: seq<Yield>) {
    && Tidy(ps) && Tidy(rs)
    && (ongoing <==> ps != [] && !Ended(rs))
    && (streamed ==> Ended(ps) && Streams(procedures, procedure) && !Ended(rs))
    && (!Ended(ps) ==> rs == [])
    && (Ended(ps) ==>
          var answer := AnswerPieces(Execute(procedures, procedure, Joined(ps)));
          answer <= rs && (!Streams(procedures, procedure) ==> rs == answer))
  }

  predicate Serves(procedures: Procedures, h: Host, w: nat, took: seq<Message>, sent: seq<Message>, c: Call)
    requires w in h.wires
  {
    Served(procedures, c.procedure, c in h.wires[w].ongoing, Key(c, w) in h.streamed,
           Pieces(took, CallFrame, c), Pieces(sent, ResponseFrame, c))
  }

  ghost predicate CalleeFits(procedures: Procedures, h: Host, w: nat, tr: Trace) {
    w in h.wires && forall c: Call :: Serves(procedures, h, w, tr.took, tr.sent, c)
  }

  // --- Answers, exactly ---

  lemma {:induction false} YieldedAllOngoing(w: Wire, call: Call, ys: seq<Yield>)
    requires !w.terminated
    ensures w.YieldedAll(call, ys).ongoing == if Completes(ys) then w.ongoing - {call} else w.ongoing
    decreases |ys|
  {
    hide Encode;
    if ys != [] {
      YieldedAllOngoing(w.Yielded(call, ys[0]), call, ys[1..]);
    }
  }

  lemma {:induction false} TidyCompletes(ys: seq<Yield>)
    requires Tidy(ys)
    ensures Completes(ys) <==> Ended(ys)
    decreases |ys|
  {
    if |ys| > 1 {
      forall i | 0 <= i < |ys[1..]| - 1 ensures !ys[1..][i].terminator.Complete? {
        assert ys[1..][i] == ys[i + 1];
      }
      assert !ys[0].terminator.Complete?;
      TidyCompletes(ys[1..]);
    } else if |ys| == 1 {
      assert ys[1..] == [];
    }
  }

  lemma AnsweredOngoing(procedures: Procedures, w: Wire, call: Call, args: Bytes)
    requires !w.terminated && TidyProcedures(procedures)
    ensures var ex := Execute(procedures, call.procedure, args);
            && Tidy(AnswerPieces(ex))
            && (YieldsOn(procedures, call.procedure, ex) ==>
                  Streams(procedures, call.procedure) && !Ended(AnswerPieces(ex)))
            && Answered(w, call, ex).ongoing == if Ended(AnswerPieces(ex)) then w.ongoing - {call} else w.ongoing
  {
    hide Encode;
    var ex := Execute(procedures, call.procedure, args);
    YieldedAllOngoing(w, call, ex.yielded);
    TidyCompletes(ex.yielded);
    match ex.result
    case Ok(Some(ret)) =>
      assert ex.yielded == [];
      assert AnswerPieces(ex) == [Yield(ret, Complete)];
    case _ => assert AnswerPieces(ex) == ex.yielded;
  }

  lemma {:induction false} ReplyEachPieces(call: Call, ys: seq<Yield>, c: Call)
    ensures Pieces(ReplyEach(call, ys), ResponseFrame, c) == if c == call then ys else []
    decreases |ys|
  {
    hide ReplyEach, Pieces;
    if ys == [] {
      NoReplies(call, c);
    } else {
      var (init, y) := (ys[..|ys| - 1], ys[|ys| - 1]);
      ReplyEachOne(call, init, y);
      ReplyEachPieces(call, init, c);
      assert ys == init + [y];
      PiecesOne(ReplyEach(call, init), Frame(ResponseFrame, call, y.terminator, y.bytes), ResponseFrame, c);
    }
  }

  lemma NoReplies(call: Call, c: Call)
    ensures Pieces(ReplyEach(call, []), ResponseFrame, c) == []
  {
    assert ReplyEach(call, []) == [];
  }

  lemma ReplyEachOne(call: Call, ys: seq<Yield>, y: Yield)
    ensures ReplyEach(call, ys + [y]) == ReplyEach(call, ys) + [Frame(ResponseFrame, call, y.terminator, y.bytes)]
  {
  }

  lemma RepliesPieces(call: Call, ex: Execution, c: Call)
    ensures Pieces(Replies(call, ex), ResponseFrame, c) == if c == call then AnswerPieces(ex) else []
  {
    hide ReplyEach, Pieces;
    ReplyEachPieces(call, ex.yielded, c);
    var rs := ReplyEach(call, ex.yielded);
    match ex.result
    case Ok(Some(ret)) => PiecesOne(rs, Frame(ResponseFrame, call, Complete, ret), ResponseFrame, c);
    case _ => assert rs + [] == rs && ex.yielded + [] == ex.yielded;
  }

  // --- Steps that are not about the calls of this wire ---

  lemma CallFrameIsNoResponse(m: Message, c: Call)
    requires !(m.Frame? && m.kind.ResponseFrame?)
    ensures Pieces([m], ResponseFrame, c) == []
  {
    PiecesOne([], m, ResponseFrame, c);
    assert [] + [m] == [m];
  }

  /** Besides what is received and what closures yield, no step answers anything. */
  lemma PostedResponses(procedures: Procedures, h: Host, w: nat, a: Step, c: Call)
    requires Inv(h) && Enabled(h, a) && w in h.wires && (Touches(a, w) ==> a.Start? || a.Once? || a.ReadEof?)
    ensures Pieces(Posted(procedures, h, w, a), ResponseFrame, c) == []
  {
    hide MessagesInv, MapsInv, Starts;
    var more := Posted(procedures, h, w, a);
    if more != [] {
      assert more == [more[0]];
      CallFrameIsNoResponse(more[0], c);
    }
  }

  /** Nothing is let through or answered, and the ongoing calls and those streamed are the same. */
  lemma CalleeSame(procedures: Procedures, h: Host, g: Host, w: nat, tr: Trace, more: seq<Message>)
    requires CalleeFits(procedures, h, w, tr) && w in g.wires && g.wires[w].ongoing == h.wires[w].ongoing
    requires forall c :: Key(c, w) in g.streamed ==> Key(c, w) in h.streamed
    requires forall c :: Pieces(more, ResponseFrame, c) == []
    ensures CalleeFits(procedures, g, w, Trace(tr.sent + more, tr.got, tr.took))
  {
    hide Pieces, Execute, AnswerPieces, Streams;
    forall c: Call ensures Serves(procedures, g, w, tr.took, tr.sent + more, c) {
      assert Serves(procedures, h, w, tr.took, tr.sent, c);
      PiecesMore(tr.sent, more, ResponseFrame, c);
      assert Pieces(tr.sent, ResponseFrame, c) + [] == Pieces(tr.sent, ResponseFrame, c);
    }
  }

  /** What was received does not matter, only what was let through. */
  lemma CalleeGot(procedures: Procedures, h: Host, w: nat, tr: Trace, got: seq<Message>)
    requires CalleeFits(procedures, h, w, tr)
    ensures CalleeFits(procedures, h, w, tr.(got := got))
  {
    hide Pieces, Served;
  }

  lemma CalleeElsewhere(procedures: Procedures, h: Host, w: nat, tr: Trace, a: Step)
    requires Inv(h) && Enabled(h, a) && CalleeFits(procedures, h, w, tr)
    requires !Touches(a, w) || ((a.Start? || a.Once?) && a.wire == w)
    ensures CalleeFits(procedures, Next(procedures, h, a), w, Traced(procedures, h, w, tr, a))
  {
    hide MessagesInv, MapsInv, Store.Valid, Content, Posted, Next, Pieces, CalleeFits;
    var g := Next(procedures, h, a);
    OngoingElsewhere(procedures, h, w, a) by {
      CalleeThere(procedures, h, w, tr);
    }
    CalleeThere(procedures, h, w, tr);
    var more := Posted(procedures, h, w, a);
    forall c: Call ensures Pieces(more, ResponseFrame, c) == [] {
      PostedResponses(procedures, h, w, a, c);
    }
    CalleeSame(procedures, h, g, w, tr, more);
  }

  lemma CalleeThere(procedures: Procedures, h: Host, w: nat, tr: Trace)
    requires CalleeFits(procedures, h, w, tr)
    ensures w in h.wires
  {
  }

  lemma OngoingElsewhere(procedures: Procedures, h: Host, w: nat, a: Step)
    requires Inv(h) && Enabled(h, a) && w in h.wires && (!Touches(a, w) || ((a.Start? || a.Once?) && a.wire == w))
    ensures var g := Next(procedures, h, a);
            && w in g.wires && g.wires[w].ongoing == h.wires[w].ongoing
            && forall c :: Key(c, w) in g.streamed ==> Key(c, w) in h.streamed
  {
    hide MessagesInv, MapsInv, Store.Valid, Content, Begin, Register, CanBegin, Undisturbed;
    if !Touches(a, w) {
      hide Next;
      StepElsewhere(procedures, h, a, w);
    } else {
      InvValid(h);
      WireFacts(h, w);
      if Starts(h, a) {
        BeginningCalls(h, a, w);
      }
    }
  }

  // --- A call frame is let through ---

  lemma CalleeAdmits(procedures: Procedures, h: Host, w: nat, tr: Trace, m: Message)
    requires Inv(h) && w in h.wires && !h.wires[w].terminated && w in h.outbox && h.store.Valid()
    requires LetsThrough(h, w, m) && (Key(m.call, w) in h.store.calls || Room(h))
    requires TidyProcedures(procedures) && ArgumentsFit(h, w, tr.took) && CalleeFits(procedures, h, w, tr)
    requires !Ended(Pieces(tr.took, CallFrame, m.call))
    ensures CalleeFits(procedures, Admit(procedures, h, w, m.call, m.terminator, m.payload), w,
                       Trace(tr.sent + Answers(procedures, h, w, m), tr.got + [m], tr.took + [m]))
  {
    hide Inv, Store.Valid, Admit, Serves, Pieces, OverLimit, Answers, TidyProcedures, ArgumentsFit, Room;
    AdmittedWire(procedures, h, w, m.call, m.terminator, m.payload);
    var g := Admit(procedures, h, w, m.call, m.terminator, m.payload);
    forall c: Call ensures Serves(procedures, g, w, tr.took + [m], tr.sent + Answers(procedures, h, w, m), c) {
      AdmittedOne(procedures, h, w, tr, m, c);
    }
  }

  /** A call that has not been ended has no closure that may yield. */
  lemma NotStreamedYet(procedures: Procedures, h: Host, w: nat, tr: Trace, c: Call)
    requires CalleeFits(procedures, h, w, tr) && !Ended(Pieces(tr.took, CallFrame, c))
    ensures Key(c, w) !in h.streamed
  {
    hide Pieces, Execute, AnswerPieces, Streams, Tidy;
    assert Serves(procedures, h, w, tr.took, tr.sent, c);
  }

  lemma AdmittedOne(procedures: Procedures, h: Host, w: nat, tr: Trace, m: Message, c: Call)
    requires Inv(h) && w in h.wires && !h.wires[w].terminated && w in h.outbox && h.store.Valid()
    requires LetsThrough(h, w, m) && (Key(m.call, w) in h.store.calls || Room(h))
    requires TidyProcedures(procedures) && ArgumentsFit(h, w, tr.took) && CalleeFits(procedures, h, w, tr)
    requires !Ended(Pieces(tr.took, CallFrame, m.call))
    ensures var g := Admit(procedures, h, w, m.call, m.terminator, m.payload);
            w in g.wires && Serves(procedures, g, w, tr.took + [m], tr.sent + Answers(procedures, h, w, m), c)
  {
    hide MessagesInv, MapsInv, Store.Valid, Admit, Execute, Answered, Replies, ArgsOf, AnswerPieces, Streams, Pieces;
    hide SameOtherArgs, SameResponses, Served, Answers, OverLimit, TidyProcedures, ArgumentsFit, YieldsOn;
    var call := m.call;
    NotStreamedYet(procedures, h, w, tr, call);
    AdmitArgs(procedures, h, w, call, m.terminator, m.payload);
    var (args, x) := (ArgumentsWith(h, w, m), h.wires[w].(ongoing := h.wires[w].ongoing + {call}));
    AnsweredOngoing(procedures, x, call, args);
    assert Serves(procedures, h, w, tr.took, tr.sent, c);
    PiecesOne(tr.took, m, CallFrame, c);
    PiecesMore(tr.sent, Answers(procedures, h, w, m), ResponseFrame, c);
    AnswersPieces(procedures, h, w, m, c);
    var (ps, rs) := (Pieces(tr.took, CallFrame, c), Pieces(tr.sent, ResponseFrame, c));
    assert ps + [] == ps && rs + [] == rs;
    if c == call {
      WholeArguments(procedures, h, w, tr, m);
      var p := Yield(m.payload, m.terminator);
      if m.terminator.Complete? {
        ServedRun(procedures, c.procedure, c in h.wires[w].ongoing, Key(c, w) in h.streamed, ps, rs, p,
                  Key(c, w) in Admit(procedures, h, w, call, m.terminator, m.payload).streamed);
      } else {
        ServedMore(procedures, c.procedure, c in h.wires[w].ongoing, Key(c, w) in h.streamed, ps, rs, p);
      }
    }
  }

  lemma ServedMore(procedures: Procedures, procedure: nat, ongoing: bool, streamed: bool, ps: seq<Yield>,
                   rs: seq<Yield>, p: Yield)
    requires Served(procedures, procedure, ongoing, streamed, ps, rs) && !Ended(ps) && !p.terminator.Complete?
    ensures Served(procedures, procedure, true, streamed, ps + [p], rs)
  {
    hide Execute, AnswerPieces, Streams;
  }

  lemma ServedRun(procedures: Procedures, procedure: nat, ongoing: bool, streamed: bool, ps: seq<Yield>,
                  rs: seq<Yield>, p: Yield, still: bool)
    requires Served(procedures, procedure, ongoing, streamed, ps, rs) && !Ended(ps) && p.terminator.Complete?
    requires still ==> Streams(procedures, procedure)
                       && !Ended(AnswerPieces(Execute(procedures, procedure, Joined(ps + [p]))))
    requires Tidy(AnswerPieces(Execute(procedures, procedure, Joined(ps + [p]))))
    ensures var answer := AnswerPieces(Execute(procedures, procedure, Joined(ps + [p])));
            && rs == [] && rs + answer == answer
            && Served(procedures, procedure, !Ended(answer), still, ps + [p], answer)
  {
    hide Execute, AnswerPieces, Streams;
  }

  lemma AnswersPieces(procedures: Procedures, h: Host, w: nat, m: Message, c: Call)
    requires h.store.Valid() && w in h.wires && LetsThrough(h, w, m)
    ensures Pieces(Answers(procedures, h, w, m), ResponseFrame, c)
            == if c == m.call && m.terminator.Complete? then
                 AnswerPieces(Execute(procedures, m.call.procedure, ArgumentsWith(h, w, m)))
               else []
  {
    hide Store.Valid, Execute, ArgumentsWith, Replies, AnswerPieces, OverLimit;
    RepliesPieces(m.call, Execute(procedures, m.call.procedure, ArgumentsWith(h, w, m)), c);
  }

  /** The arguments a procedure gets are all the pieces of the call. */
  lemma WholeArguments(procedures: Procedures, h: Host, w: nat, tr: Trace, m: Message)
    requires h.store.Valid() && w in h.wires && !h.wires[w].terminated && LetsThrough(h, w, m)
    requires ArgumentsFit(h, w, tr.took) && CalleeFits(procedures, h, w, tr)
    requires !Ended(Pieces(tr.took, CallFrame, m.call))
    ensures ArgumentsWith(h, w, m) == Joined(Pieces(tr.took + [m], CallFrame, m.call))
  {
    hide Store.Valid, Pieces, ArgsOf, Execute, AnswerPieces, Streams;
    var ps := Pieces(tr.took, CallFrame, m.call);
    assert Serves(procedures, h, w, tr.took, tr.sent, m.call);
    assert ArgsOf(h.store, Key(m.call, w)) == ExpectedArgs(h, w, tr.took, m.call);
    PendingOnce(tr.took, m.call);
    PiecesOne(tr.took, m, CallFrame, m.call);
    JoinedOne(ps, Yield(m.payload, m.terminator));
    if ps == [] {
      assert Joined(ps) == [];
    }
  }

  // --- Any step ---

  lemma CalleeReceives(procedures: Procedures, h: Host, w: nat, tr: Trace, m: Message, order: seq<Call>)
    requires Inv(h) && w in h.wires && !h.wires[w].terminated && MayReceive(h, w, m, order) && h.store.Valid()
    requires TidyProcedures(procedures) && ArgumentsFit(h, w, tr.took) && CalleeFits(procedures, h, w, tr)
    requires m.Frame? && m.kind.CallFrame? ==> !Ended(Pieces(tr.took, CallFrame, m.call))
    ensures CalleeFits(procedures, Received(procedures, h, w, m, order), w,
                       Trace(tr.sent + Answers(procedures, h, w, m), tr.got + [m],
                             tr.took + if LetsThrough(h, w, m) then [m] else []))
  {
    hide MessagesInv, MapsInv, Store.Valid, Admit, Respond, Terminate, CalleeFits, ArgumentsFit, Pieces, Content;
    WireFacts(h, w);
    var g := Received(procedures, h, w, m, order);
    if LetsThrough(h, w, m) {
      CalleeAdmits(procedures, h, w, tr, m);
    } else {
      assert tr.took + [] == tr.took;
      if m.Frame? && m.kind.ResponseFrame? {
        RespondKeeps(h, w, m.call, m.terminator, m.payload);
        RespondShape(h, w, m.call, m.terminator, m.payload);
      } else if m.Termination? {
        TerminateShape(h, w, order);
      }
      assert forall c :: Pieces([], ResponseFrame, c) == [] by {
        NoPieces();
      }
      CalleeSame(procedures, h, g, w, tr, []);
      CalleeGot(procedures, g, w, Trace(tr.sent + [], tr.got, tr.took), tr.got + [m]);
    }
  }

  lemma NoPieces()
    ensures forall kind, c :: Pieces([], kind, c) == []
  {
  }

  lemma CalleeYields(procedures: Procedures, h: Host, w: nat, tr: Trace, a: Step)
    requires Inv(h) && Enabled(h, a) && CalleeFits(procedures, h, w, tr) && a.Later? && a.wire == w
    requires Key(a.call, w) in h.streamed
    ensures CalleeFits(procedures, Next(procedures, h, a), w, Traced(procedures, h, w, tr, a))
  {
    hide MessagesInv, MapsInv, Store.Valid, Pieces, Execute, AnswerPieces, Streams, Encode;
    InvValid(h);
    var (g, more, call) := (Next(procedures, h, a), Posted(procedures, h, w, a), a.call);
    NoPieces();
    if h.wires[w].terminated {
      CalleeSame(procedures, h, g, w, tr, []);
    } else {
      var m := Frame(ResponseFrame, call, a.piece.terminator, a.piece.bytes);
      forall c: Call ensures Serves(procedures, g, w, tr.took, tr.sent + [m], c) {
        assert Serves(procedures, h, w, tr.took, tr.sent, c);
        PiecesOne(tr.sent, m, ResponseFrame, c);
        var rs := Pieces(tr.sent, ResponseFrame, c);
        assert rs + [] == rs;
        if c == call {
          TidyMore(rs, a.piece);
        }
      }
    }
  }

  /** The ongoing calls and the answers stay accounted for, whatever the other wires do. */
  lemma CalleeStep(procedures: Procedures, h: Host, w: nat, tr: Trace, a: Step)
    requires Inv(h) && Enabled(h, a) && TidyProcedures(procedures)
    requires ArgumentsFit(h, w, tr.took) && CalleeFits(procedures, h, w, tr) && CalleeCare(h, w, tr, a)
    ensures CalleeFits(procedures, Next(procedures, h, a), w, Traced(procedures, h, w, tr, a))
  {
    hide MessagesInv, MapsInv, Store.Valid, Received, Terminate, MayReceive, ArgumentsFit, LetsThrough, Served, Pieces;
    hide Answers, NextHandling, NextCalling, Starts, Content, TidyProcedures;
    InvValid(h);
    if !Touches(a, w) || a.Start? || a.Once? {
      CalleeElsewhere(procedures, h, w, tr, a);
    } else {
      match a
      case Receive(_, m, order) => CalleeReceives(procedures, h, w, tr, m, order);
      case ReadEof(_, order) =>
        TerminateShape(h, w, order);
        NoPieces();
        CalleeSame(procedures, h, Next(procedures, h, a), w, tr, []);
      case Later(_, call, y) => CalleeYields(procedures, h, w, tr, a);
    }
  }

  /** The ongoing calls of a wire whose peer keeps to the protocol: those that gather arguments, and those that have run
      and whose last answer has not been queued, because they failed or because they still stream. */
  lemma OngoingIff(procedures: Procedures, h: Host, w: nat, tr: Trace, c: Call)
    requires CalleeFits(procedures, h, w, tr)
    ensures w in h.wires
    ensures var (ps, rs) := (Pieces(tr.took, CallFrame, c), Pieces(tr.sent, ResponseFrame, c));
            c in h.wires[w].ongoing <==>
              || (ps != [] && !Ended(ps))
              || (Ended(ps) && !Streams(procedures, c.procedure)
                  && Execute(procedures, c.procedure, Joined(ps)).result.Err?)
              || (Ended(ps) && Streams(procedures, c.procedure) && !Ended(rs))
  {
    hide Pieces;
    assert Serves(procedures, h, w, tr.took, tr.sent, c);
    var ps := Pieces(tr.took, CallFrame, c);
    if Ended(ps) && !Streams(procedures, c.procedure) {
      var ex := Execute(procedures, c.procedure, Joined(ps));
      assert ex.yielded == [];
      if ex.result.Ok? {
        assert AnswerPieces(ex) == [Yield(ex.result.value.value, Complete)];
      } else {
        assert AnswerPieces(ex) == [];
      }
    }
  }

  /** Once a frame of a call has been let through, so are the rest. */
  lemma LetThroughToTheEnd(procedures: Procedures, h: Host, w: nat, tr: Trace, m: Message)
    requires CalleeFits(procedures, h, w, tr) && m.Frame? && m.kind.CallFrame? && w in h.wires
    requires Pieces(tr.took, CallFrame, m.call) != [] && !Ended(Pieces(tr.took, CallFrame, m.call))
    ensures LetsThrough(h, w, m)
  {
    hide Pieces, Execute, AnswerPieces;
    assert Serves(procedures, h, w, tr.took, tr.sent, m.call);
  }
}
