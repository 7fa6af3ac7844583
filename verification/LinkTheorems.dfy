/** Remote procedure calls mean procedure calls: in every run of two linked hosts a finished response is what the
    procedure makes of the bytes that the caller supplied. */
module LinkTheorems {
  import opened Types
  import opened RoiQueues
  import opened Stores
  import opened Chunks
  import opened WireFormat
  import opened WireFormatProofs
  import opened Wires
  import opened Hosts
  import opened HostCalls
  import opened HostResponses
  import opened HostSteps
  import opened HostRuns
  import opened HostContents
  import opened HostEffects
  import opened Traces
  import opened CallerTraces
  import opened CalleeTraces
  import opened HostAnswers
  import opened HostStreams
  import opened HostTheorems
  import opened Links
  import opened LinkRuns

  // --- Beginnings ---

  /** A wire that has just been connected at a host. */
  function NewEnd(h: Host, procedures: Procedures, cfg: Config, moduleStyle: bool, max: nat): End {
    End(Connect(h, cfg, moduleStyle, max), procedures, h.store.wireIds.Next(), Trace([], [], []), [], [])
  }

  /** The host may have any past and any other wires, as long as no arguments are left under the identifier that the
      wire is going to get. */
  ghost predicate CanJoin(h: Host, procedures: Procedures, cfg: Config) {
    && Inv(h) && |h.wires| < h.store.wireIds.limit && Clean(h, h.store.wireIds.Next())
    && TidyProcedures(procedures) && cfg.Valid()
  }

  /** Recycling a wire identifier: whatever host the wire is connected at and whichever wire had its identifier before,
      it inherits no arguments, no responses and no ongoing or streaming calls. */
  lemma NewEndIsLocal(h: Host, procedures: Procedures, cfg: Config, moduleStyle: bool, max: nat)
    requires CanJoin(h, procedures, cfg)
    ensures var e := NewEnd(h, procedures, cfg, moduleStyle, max);
            && Local(e) && e.Wire().cfg == cfg && e.host.outbox[e.wire] == []
  {
    hide TidyProcedures, MessagesInv, MapsInv, Store.Valid, Serves, Waits;
    var (w, g) := (h.store.wireIds.Next(), Connect(h, cfg, moduleStyle, max));
    ConnectKeeps(h, cfg, moduleStyle, max);
    Owned(g);
    NothingInherited(h, cfg, moduleStyle, max);
    forall c: Call ensures ArgsOf(g.store, Key(c, w)) == ExpectedArgs(g, w, [], c) {
    }
    forall c: Call ensures Waits(g.wires[w], [], [], c) {
      EmptyWaits(g.wires[w], c);
    }
    forall c: Call ensures Serves(procedures, g, w, [], [], c) {
      EmptyServes(procedures, g, w, c);
    }
  }

  lemma EmptyWaits(x: Wire, c: Call)
    requires c !in x.responses
    ensures Waits(x, [], [], c)
  {
  }

  lemma EmptyServes(procedures: Procedures, h: Host, w: nat, c: Call)
    requires w in h.wires && c !in h.wires[w].ongoing && Key(c, w) !in h.streamed
    ensures Serves(procedures, h, w, [], [], c)
  {
    hide Execute, AnswerPieces, Streams;
  }

  lemma NothingInherited(h: Host, cfg: Config, moduleStyle: bool, max: nat)
    requires Inv(h) && |h.wires| < h.store.wireIds.limit && Clean(h, h.store.wireIds.Next())
    ensures var (g, w) := (Connect(h, cfg, moduleStyle, max), h.store.wireIds.Next());
            && w !in h.wires && w in g.wires && g.wires[w] == NewWire(w, cfg, moduleStyle, max)
            && (forall c :: Key(c, w) !in g.store.calls && Key(c, w) !in g.streamed)
            && (forall id :: id in g.owner ==> !Concerns(g.owner[id], w))
  {
    hide MessagesInv, Store.Valid, Queued, Roi.Accounts;
    ConnectKeeps(h, cfg, moduleStyle, max);
  }

  lemma NewPair(e: End, f: End)
    requires Local(e) && Local(f) && e.trace == f.trace == Trace([], [], [])
    requires e.flight == f.flight == [] && e.out == f.out == []
    requires e.host.outbox[e.wire] == f.host.outbox[f.wire] == []
    ensures PairInv(e, f)
  {
    hide Inv, ArgumentsFit, CallerFits, CalleeFits, TidyProcedures, CallsNothing, BegunInTime, Encode;
  }

  // --- Runs ---

  /** Two ends and whether their wires are still there. Once its wire has been dropped, an end is kept as it was then:
      whatever its host does later cannot reach the other end, where what is under way still arrives. */
  datatype Link = Link(left: End, right: End, leftUp: bool, rightUp: bool)

  /** Either end takes a step. */
  datatype Event = OnLeft(step: Step) | OnRight(step: Step)

  predicate Drops(e: End, a: Step) {
    a.DropWire? && a.wire == e.wire
  }

  /** The wire may be dropped at any time. */
  ghost predicate May(e: End, f: End, a: Step)
    requires PairInv(e, f)
  {
    LocalInv(e, f);
    InvValid(e.host);
    if Drops(e, a) then Enabled(e.host, a) else Allowed(e, f, a)
  }

  ghost predicate Possible(l: Link, v: Event)
    requires PairInv(l.left, l.right)
  {
    match v
    case OnLeft(a) => l.leftUp && May(l.left, l.right, a)
    case OnRight(a) =>
      PairSwaps(l.left, l.right);
      l.rightUp && May(l.right, l.left, a)
  }

  lemma PairSwaps(e: End, f: End)
    requires PairInv(e, f)
    ensures PairInv(f, e)
  {
    hide Direction;
  }

  function Happens(l: Link, v: Event): Link
    requires PairInv(l.left, l.right) && Possible(l, v)
  {
    var (e, f) := (l.left, l.right);
    match v
    case OnLeft(a) =>
      if Drops(e, a) then l.(leftUp := false)
      else
        PairStep(e, f, a);
        l.(left := After(e, a), right := Beside(e, f, a))
    case OnRight(a) =>
      PairSwaps(e, f);
      if Drops(f, a) then l.(rightUp := false)
      else
        PairStep(f, e, a);
        l.(left := Beside(f, e, a), right := After(f, a))
  }

  lemma HappensKeeps(l: Link, v: Event)
    requires PairInv(l.left, l.right) && Possible(l, v)
    ensures var m := Happens(l, v);
            && PairInv(m.left, m.right)
            && m.left.procedures == l.left.procedures && m.right.procedures == l.right.procedures
  {
    hide PairInv, Allowed, Enabled, After, Beside;
    var (e, f) := (l.left, l.right);
    match v
    case OnLeft(a) =>
      if !Drops(e, a) {
        EndsKeep(e, f, a);
      }
    case OnRight(a) =>
      PairSwaps(e, f);
      if !Drops(f, a) {
        EndsKeep(f, e, a);
        PairSwaps(After(f, a), Beside(f, e, a));
      }
  }

  lemma EndsKeep(e: End, f: End, a: Step)
    requires PairInv(e, f) && Allowed(e, f, a)
    ensures Local(e) && Enabled(e.host, a) && PairInv(After(e, a), Beside(e, f, a))
    ensures After(e, a).procedures == e.procedures && Beside(e, f, a).procedures == f.procedures
  {
    hide PairInv, Local, Allowed, Enabled, Next, Traced;
    PairStep(e, f, a);
  }

  ghost predicate LegalRun(l: Link, events: seq<Event>)
    requires PairInv(l.left, l.right)
    decreases |events|
  {
    events == []
    || (Possible(l, events[0])
        && (HappensKeeps(l, events[0]);
            LegalRun(Happens(l, events[0]), events[1..])))
  }

  function RunOf(l: Link, events: seq<Event>): Link
    requires PairInv(l.left, l.right) && LegalRun(l, events)
    decreases |events|
  {
    if events == [] then l
    else
      HappensKeeps(l, events[0]);
      RunOf(Happens(l, events[0]), events[1..])
  }

  lemma {:induction false} RunKeeps(l: Link, events: seq<Event>)
    requires PairInv(l.left, l.right) && LegalRun(l, events)
    ensures var m := RunOf(l, events);
            && PairInv(m.left, m.right)
            && m.left.procedures == l.left.procedures && m.right.procedures == l.right.procedures
    decreases |events|
  {
    hide PairInv, Possible, Happens;
    if events != [] {
      HappensKeeps(l, events[0]);
      RunKeeps(Happens(l, events[0]), events[1..]);
    }
  }

  /** At a linked end a new call needs nothing but room for its response, and that fewer calls of its procedure have
      been made on the wire than there are indices. */
  lemma NewCallNeedsRoom(e: End, f: End, procedure: nat)
    requires PairInv(e, f) && e.wire in e.host.wires && Room(e.host)
    requires Made(e.trace.sent, procedure, e.Wire().cfg.idx.Limit()) < e.Wire().cfg.idx.Limit()
    ensures CanBegin(e.host, e.wire, procedure)
  {
    PairDirections(e, f);
    hide PairInv, Inv, ArgumentsFit, CalleeFits, TidyProcedures, CallsNothing, Pieces, Made;
    UnusedIff(e.Wire(), e.trace.sent, procedure);
    assert Waits(e.Wire(), e.trace.sent, e.trace.got, e.Wire().NextCall(procedure));
  }

  // --- What holds in every state of a run ---

  /** The bytes that the users of an end have supplied for a call, in order. */
  function Supplied(e: End, c: Call): Bytes {
    Joined(Pieces(e.trace.sent, CallFrame, c))
  }

  /** Everything that has been said in answer to a call at an end. */
  function AnswerTo(f: End, c: Call): seq<Yield> {
    Pieces(f.trace.sent, ResponseFrame, c)
  }

  /** The messages of a call whose answer has begun. Its procedure got exactly the supplied bytes. */
  lemma AnswersAreOfSupplied(e: End, f: End, c: Call)
    requires PairInv(e, f) && AnswerTo(f, c) != []
    ensures var answer := AnswerPieces(Execute(f.procedures, c.procedure, Supplied(e, c)));
            && answer <= AnswerTo(f, c)
            && (!Streams(f.procedures, c.procedure) ==> AnswerTo(f, c) == answer)
  {
    PairDirections(e, f);
    hide PairInv, Direction, Pieces, Execute, AnswerPieces, Streams;
    AnsweredWasMade(e, f, c);
    CallFacts(e, f, c);
  }

  /** A response that is being received holds what has arrived of the answer, grouped into its chunks; a finished one
      holds all of the answer. */
  lemma ResponseHolds(e: End, f: End, id: nat)
    requires PairInv(e, f) && e.wire in e.host.wires && id in e.host.owner && BelongsTo(e.host.owner[id], e.wire)
    ensures e.host.store.Valid() && id in e.host.store.messages
    ensures var (c, n) := (e.host.owner[id].call, |Pieces(e.trace.got, ResponseFrame, e.host.owner[id].call)|);
            && n <= |AnswerTo(f, c)| && Content(e.host.store, id) == Grouped(AnswerTo(f, c)[..n])
            && (e.host.owner[id].Finished? ==> n == |AnswerTo(f, c)| && Ended(AnswerTo(f, c)))
  {
    hide PairInv, Direction, Pieces, Content, Store.Valid, Gather, Grouped, Ended, Tidy;
    ResponseFits(e, f, id);
    var (c, ps) := (e.host.owner[id].call, Pieces(e.trace.got, ResponseFrame, e.host.owner[id].call));
    GatheredFromNothing(ps);
    ResponsePrefix(e, f, c);
    assert AnswerTo(f, c)[..|ps|] == ps;
  }

  lemma ResponsePrefix(e: End, f: End, c: Call)
    requires PairInv(e, f)
    ensures var ps := Pieces(e.trace.got, ResponseFrame, c);
            ps <= AnswerTo(f, c) && (Ended(ps) ==> ps == AnswerTo(f, c))
  {
    PairDirections(e, f);
    hide PairInv, Direction, Pieces, Execute, AnswerPieces, Streams;
    PiecesArrive(f, e, ResponseFrame, c);
    CallFacts(e, f, c);
    EndedPrefix(Pieces(e.trace.got, ResponseFrame, c), AnswerTo(f, c));
  }

  lemma ResponseFits(e: End, f: End, id: nat)
    requires PairInv(e, f) && e.wire in e.host.wires && id in e.host.owner && BelongsTo(e.host.owner[id], e.wire)
    ensures e.host.store.Valid() && id in e.host.store.messages
    ensures AnswerFits(Content(e.host.store, id), e.host.owner[id].Finished?,
                       Pieces(e.trace.got, ResponseFrame, e.host.owner[id].call))
  {
    LocalInv(e, f);
    hide PairInv, Inv, ArgumentsFit, CalleeFits, TidyProcedures, CallsNothing, Content, Store.Valid, Pieces, AnswerFits;
    assert AnswerAt(e.host, id, e.trace.got);
  }

  /** A remote call of a standard procedure is a call of it: a finished response is one chunk, which is what the
      procedure returned for exactly the bytes supplied, however they were split and whatever else went on. */
  lemma RemoteCallIsCall(e: End, f: End, id: nat, c: Call)
    requires PairInv(e, f) && e.wire in e.host.wires && id in e.host.owner && e.host.owner[id] == Finished(e.wire, c)
    requires !Streams(f.procedures, c.procedure)
    ensures e.host.store.Valid() && id in e.host.store.messages
    ensures c.procedure in f.procedures && f.procedures[c.procedure].Standard?
    ensures var r := f.procedures[c.procedure].run(Supplied(e, c));
            r.Ok? && Content(e.host.store, id) == [r.value]
  {
    hide PairInv, Pieces, Content, Store.Valid;
    ResponseHolds(e, f, id);
    AnswersAreOfSupplied(e, f, c);
    var ex := Execute(f.procedures, c.procedure, Supplied(e, c));
    assert ex.yielded == [] && AnswerPieces(ex) == [Yield(ex.result.value.value, Complete)];
    OneGroup(ex.result.value.value);
  }

  lemma OneGroup(bytes: Bytes)
    ensures Grouped([Yield(bytes, Complete)]) == [bytes]
  {
    var (p, none: seq<Yield>) := (Yield(bytes, Complete), []);
    assert [p][1..] == none && FirstBreak(none) == 0 && FirstBreak([p]) == 1;
    assert Joined([p]) == bytes + Joined(none) == bytes;
  }

  /** A streaming procedure's finished response is what its closure yielded for exactly the bytes supplied and what it
      has yielded later, joined into chunks as the closure marked them. */
  lemma RemoteStreamIsStream(e: End, f: End, id: nat, c: Call)
    requires PairInv(e, f) && e.wire in e.host.wires && id in e.host.owner && e.host.owner[id] == Finished(e.wire, c)
    requires c.procedure in f.procedures && f.procedures[c.procedure].Streaming?
    ensures e.host.store.Valid() && id in e.host.store.messages
    ensures f.procedures[c.procedure].start(Supplied(e, c)).yielded <= AnswerTo(f, c)
    ensures Content(e.host.store, id) == Grouped(AnswerTo(f, c))
  {
    hide PairInv, Pieces, Content, Store.Valid;
    ResponseHolds(e, f, id);
    AnswersAreOfSupplied(e, f, c);
    var all := AnswerTo(f, c);
    assert all[..|all|] == all;
  }

  /** A stream that is listened to when the last piece arrives has been sent, behind the chunks that were finished
      before it was opened, all of the answer; and its message is gone. */
  lemma StreamDeliversAnswer(e: End, f: End, a: Step, id: nat)
    requires PairInv(e, f) && Allowed(e, f, a) && OwnReceive(e, a)
    requires var m := a.message; m.Frame? && m.kind.ResponseFrame? && m.terminator.Complete?
    requires e.wire in e.host.wires && a.message.call in e.Wire().responses && e.Wire().responses[a.message.call] == id
    requires e.host.store.Valid() && id in e.host.store.messages && e.host.store.Streams(e.host.store.messages[id])
    ensures Local(e) && Enabled(e.host, a)
    ensures var (b, t) := (e.host.store.messages[id], After(e, a).host.store);
            && id !in t.messages && b.sender.channel < |t.channels| && b.chunks != []
            && AllButLast(b.chunks) + t.channels[b.sender.channel].sent == Grouped(AnswerTo(f, a.message.call))
  {
    hide PairInv, Inv, ArgumentsFit, CallerFits, CalleeFits, TidyProcedures, CallsNothing, Allowed, Enabled;
    hide Store.Valid, Store.SendMany, Store.TerminateMessage, Store.Streams, Content, Grouped, Gather, Pieces, Respond;
    AllowedIsEnabled(e, f, a);
    LocalInv(e, f);
    var (h, w, m, c) := (e.host, e.wire, a.message, a.message.call);
    LastPiece(e, f, m);
    ReceivedStore(e, a, id);
    AwaitsThere(h, w, c);
    var s1 := h.store.SendMany(m.payload, id);
    SendManyThere(h.store, m.payload, id);
    SendManyContent(h.store, m.payload, id);
    StillStreams(h.store, m.payload, id);
    TerminationConserves(s1, id);
    ResponseFits(e, f, id);
    var (ps, p) := (Pieces(e.trace.got, ResponseFrame, c), Yield(m.payload, m.terminator));
    GatherAppend([[]], ps, p);
    GatheredFromNothing(ps + [p]);
  }

  /** It stays so whatever the host does later: a reader that has met the end of the stream has all of the answer. */
  lemma StreamKeepsAnswer(e: End, f: End, a: Step, id: nat, st: Stream, later: seq<Step>)
    requires PairInv(e, f) && Allowed(e, f, a) && OwnReceive(e, a)
    requires var m := a.message; m.Frame? && m.kind.ResponseFrame? && m.terminator.Complete?
    requires e.wire in e.host.wires && a.message.call in e.Wire().responses && e.Wire().responses[a.message.call] == id
    requires e.host.store.Valid() && id in e.host.store.messages && e.host.store.Streams(e.host.store.messages[id])
    requires Feeds(e.host.store, st) && e.host.store.messages[id].sender == Sender(st.channel, true)
    ensures Local(e) && Enabled(e.host, a) && Inv(After(e, a).host) && Feeds(After(e, a).host.store, st)
    ensures LegalSteps(e.procedures, After(e, a).host, later) ==>
              var (b, t) := (e.host.store.messages[id], RunSteps(e.procedures, After(e, a).host, later).store);
              && Feeds(t, st) && b.chunks != []
              && AllButLast(b.chunks) + t.channels[st.channel].sent == Grouped(AnswerTo(f, a.message.call))
  {
    hide PairInv, Inv, Allowed, Enabled, Next, LegalSteps, RunSteps, Local, Grouped, AnswerTo, Store.Valid;
    hide Store.Streams;
    AllowedIsEnabled(e, f, a);
    AfterIsLocal(e, f, a);
    LocalHost(e);
    LocalHost(After(e, a));
    StreamDeliversAnswer(e, f, a, id);
    CarriesStep(e.procedures, e.host, a, st);
    var g := After(e, a).host;
    assert g == Next(e.procedures, e.host, a);
    OneFeeder(e.host.store, st, id);
    if LegalSteps(e.procedures, g, later) {
      EndIsFinal(e.procedures, g, later, st);
    }
  }

  lemma OneFeeder(s: Store, st: Stream, id: nat)
    requires s.Valid() && Feeds(s, st) && id in s.messages && s.messages[id].sender == Sender(st.channel, true)
    ensures st.id == id
  {
  }

  lemma LocalHost(e: End)
    requires Local(e)
    ensures Inv(e.host)
  {
  }

  lemma StillStreams(s: Store, bytes: Bytes, id: nat)
    requires s.Valid() && s.Accepts(id).Ok?
    ensures var t := s.SendMany(bytes, id);
            && t.Valid() && id in t.messages && t.Streams(t.messages[id]) == s.Streams(s.messages[id])
            && s.messages[id].chunks != [] && t.messages[id].chunks != []
            && AllButLast(t.messages[id].chunks) == AllButLast(s.messages[id].chunks)
            && t.messages[id].sender == s.messages[id].sender
            && (s.Streams(s.messages[id]) ==> s.messages[id].sender.Sender?)
  {
    SendManyKeeps(s, bytes, id);
  }

  lemma ReceivedStore(e: End, a: Step, id: nat)
    requires Local(e) && Enabled(e.host, a) && OwnReceive(e, a) && e.host.store.Valid()
    requires var m := a.message; m.Frame? && m.kind.ResponseFrame? && m.terminator.Complete?
    requires a.message.call in e.Wire().responses && e.Wire().responses[a.message.call] == id
    ensures id in e.host.store.messages && e.host.store.Accepts(id).Ok?
    ensures var s1 := e.host.store.SendMany(a.message.payload, id);
            && s1.Valid() && After(e, a).host.store == s1.TerminateMessage(id)
            && e.host.owner[id] == Response(e.wire, a.message.call)
  {
    hide Inv, ArgumentsFit, CallerFits, CalleeFits, TidyProcedures, CallsNothing, Store.Valid, Store.SendMany;
    hide Store.TerminateMessage, Respond, Traced;
    var m := a.message;
    AwaitsThere(e.host, e.wire, m.call);
    SendManyKeeps(e.host.store, m.payload, id);
    ReceiveResponseEffect(e.host, e.wire, m.call, m.terminator, m.payload);
  }

  lemma LastPiece(e: End, f: End, m: Message)
    requires PairInv(e, f) && f.flight != [] && m == f.flight[0]
    requires m.Frame? && m.kind.ResponseFrame? && m.terminator.Complete?
    ensures Pieces(e.trace.got, ResponseFrame, m.call) + [Yield(m.payload, m.terminator)] == AnswerTo(f, m.call)
  {
    hide PairInv, Direction, Pieces, Execute, AnswerPieces, Streams;
    PairDirections(e, f);
    FlightNext(e, f);
    NextPiece(e, f, m);
    CallFacts(e, f, m.call);
    EndedPrefix(Pieces(e.trace.got, ResponseFrame, m.call) + [Yield(m.payload, m.terminator)], AnswerTo(f, m.call));
  }

  /** When nothing is queued or under way, a call is waited for exactly if it was made and its answer has not ended. */
  lemma WaitedForIff(e: End, f: End, c: Call)
    requires PairInv(e, f) && e.wire in e.host.wires && e.wire in e.host.outbox && f.wire in f.host.outbox
    requires e.flight == f.flight == [] && e.host.outbox[e.wire] == f.host.outbox[f.wire] == []
    ensures c in e.Wire().responses <==> Pieces(e.trace.sent, CallFrame, c) != [] && !Ended(AnswerTo(f, c))
  {
    hide PairInv, Direction, Pieces, Ended, Tidy, Serves, Through;
    PairDirections(e, f);
    AllArrived(f, e);
    CallFacts(e, f, c);
  }

  /** The answer to a call that was let through and ended has itself ended, unless the procedure failed or still
      streams. */
  lemma AnswerEndsIff(e: End, f: End, c: Call)
    requires PairInv(e, f) && e.flight == [] && e.wire in e.host.outbox && e.host.outbox[e.wire] == []
    requires Ended(Pieces(e.trace.sent, CallFrame, c)) && Pieces(f.trace.took, CallFrame, c) != []
    ensures !Streams(f.procedures, c.procedure) ==>
              (Ended(AnswerTo(f, c)) <==> Execute(f.procedures, c.procedure, Supplied(e, c)).result.Ok?)
    ensures f.wire in f.host.wires && (c in f.Wire().ongoing <==> !Ended(AnswerTo(f, c)))
  {
    hide PairInv, Direction, Pieces, Tidy, Execute, Streams, Through;
    PairDirections(e, f);
    AllArrived(e, f);
    CallFacts(e, f, c);
    EndsThere(e, f);
    LetThroughWhole(f.trace, c);
    if !Streams(f.procedures, c.procedure) {
      StandardAnswers(f.procedures, c.procedure, Supplied(e, c));
    }
  }

  lemma StandardAnswers(procedures: Procedures, procedure: nat, args: Bytes)
    requires !Streams(procedures, procedure)
    ensures var ex := Execute(procedures, procedure, args);
            Ended(AnswerPieces(ex)) <==> ex.result.Ok?
  {
    var ex := Execute(procedures, procedure, args);
    assert ex.yielded == [];
    if ex.result.Ok? {
      assert AnswerPieces(ex) == [Yield(ex.result.value.value, Complete)];
    } else {
      assert AnswerPieces(ex) == [];
    }
  }

  /** When nothing is queued or under way, an ended call that was let through is still waited for exactly if it is
      still ongoing at the other end: its standard procedure failed, or its streaming procedure has not completed the
      response. */
  lemma EverythingIsAnswered(e: End, f: End, c: Call)
    requires PairInv(e, f) && e.wire in e.host.wires && f.wire in f.host.wires
    requires e.wire in e.host.outbox && f.wire in f.host.outbox
    requires e.flight == f.flight == [] && e.host.outbox[e.wire] == f.host.outbox[f.wire] == []
    requires Ended(Pieces(e.trace.sent, CallFrame, c)) && Pieces(f.trace.took, CallFrame, c) != []
    ensures c in e.Wire().responses <==> c in f.Wire().ongoing
    ensures c in e.Wire().responses <==>
              if Streams(f.procedures, c.procedure) then !Ended(AnswerTo(f, c))
              else Execute(f.procedures, c.procedure, Supplied(e, c)).result.Err?
  {
    hide PairInv, Pieces, Execute, Streams;
    WaitedForIff(e, f, c);
    AnswerEndsIff(e, f, c);
  }

  lemma LetThroughWhole(tr: Trace, c: Call)
    requires Through(tr.took, tr.got, c) && Pieces(tr.took, CallFrame, c) != []
    ensures Pieces(tr.took, CallFrame, c) == Pieces(tr.got, CallFrame, c)
  {
    hide Pieces;
  }

  lemma AllArrived(from: End, to: End)
    requires Direction(from, to) && from.wire in from.host.outbox
    requires from.flight == [] && from.host.outbox[from.wire] == []
    ensures to.trace.got == from.trace.sent
  {
    hide Local, AllThrough, AllInTime, EncodeAll;
  }

  // --- The main theorem ---

  /** A finished response at one end means the call of the procedure at the other: one chunk, which is what a standard
      procedure returned for exactly the bytes supplied; or the chunks that a streaming procedure yielded for them, at
      once and later. */
  ghost predicate MeansCall(e: End, f: End, id: nat, c: Call) {
    && e.host.store.Valid() && id in e.host.store.messages && c.procedure in f.procedures
    && match f.procedures[c.procedure]
       case Standard(run) =>
         run(Supplied(e, c)).Ok? && Content(e.host.store, id) == [run(Supplied(e, c)).value]
       case Streaming(start) =>
         start(Supplied(e, c)).yielded <= AnswerTo(f, c) && Content(e.host.store, id) == Grouped(AnswerTo(f, c))
  }

  ghost predicate FinishedMeanCalls(e: End, f: End) {
    forall id, c :: id in e.host.owner && e.host.owner[id] == Finished(e.wire, c) ==> MeansCall(e, f, id, c)
  }

  lemma PairMeansCalls(e: End, f: End)
    requires PairInv(e, f)
    ensures FinishedMeanCalls(e, f)
  {
    hide PairInv, Content, Store.Valid, Supplied, AnswerTo, Grouped;
    EndsThere(e, f) by { PairDirections(e, f); }
    forall id, c | id in e.host.owner && e.host.owner[id] == Finished(e.wire, c) ensures MeansCall(e, f, id, c) {
      if Streams(f.procedures, c.procedure) {
        RemoteStreamIsStream(e, f, id, c);
      } else {
        RemoteCallIsCall(e, f, id, c);
      }
    }
  }

  /** What a user gets who waits for a finished response: the result that the procedure returned for what was supplied,
      or all that a streaming one yielded, joined into its chunks. */
  ghost predicate WaitReturnsCall(e: End, f: End, id: nat, c: Call) {
    && e.host.store.Valid() && e.host.store.Ready(id) && c.procedure in f.procedures
    && match f.procedures[c.procedure]
       case Standard(run) =>
         run(Supplied(e, c)).Ok? && e.host.store.GetRaw(id).1 == Ok([run(Supplied(e, c)).value])
       case Streaming(_) => e.host.store.GetRaw(id).1 == Ok(Grouped(AnswerTo(f, c)))
  }

  ghost predicate WaitsReturnCalls(e: End, f: End) {
    forall id, c :: id in e.host.handles && id in e.host.owner && e.host.owner[id] == Finished(e.wire, c) ==>
      WaitReturnsCall(e, f, id, c)
  }

  lemma PairReturnsCalls(e: End, f: End)
    requires PairInv(e, f)
    ensures WaitsReturnCalls(e, f)
  {
    hide PairInv, Inv, Content, Store.Valid, Supplied, AnswerTo, Grouped, Store.Ready, Store.GetRaw;
    PairMeansCalls(e, f);
    LocalInv(e, f);
    forall id, c | id in e.host.handles && id in e.host.owner && e.host.owner[id] == Finished(e.wire, c)
      ensures WaitReturnsCall(e, f, id, c)
    {
      assert MeansCall(e, f, id, c);
      FinishedIsReady(e.host, id);
    }
  }

  /** A wait for a finished response does not block, and returns what was written to it. */
  lemma FinishedIsReady(h: Host, id: nat)
    requires Inv(h) && id in h.handles && id in h.owner && h.owner[id].Finished?
    ensures h.store.Valid() && h.store.Ready(id) && h.store.GetRaw(id).1 == Ok(Content(h.store, id))
  {
    hide Decided, Registered, MapsInv, Roi.Accounts, Store.Pop;
  }

  /** Dropping a wire takes nothing away from the responses that it has finished: whatever the host does later, they say
      what they said until somebody waits for them. */
  lemma DropKeepsMeaning(e: End, f: End, a: Step, id: nat, c: Call, later: seq<Step>)
    requires PairInv(e, f) && May(e, f, a) && Drops(e, a)
    requires id in e.host.owner && e.host.owner[id] == Finished(e.wire, c)
    ensures MeansCall(e, f, id, c) && Inv(e.host) && Enabled(e.host, a)
    ensures var g := Next(e.procedures, e.host, a);
            && Inv(g) && id in g.owner && g.owner[id] == Detached
            && (LegalSteps(e.procedures, g, later) && NobodyWaitsFor(later, id) ==>
                  SameContent(e.host, RunSteps(e.procedures, g, later), id))
  {
    hide PairInv, Inv, Content, Store.Valid, Supplied, AnswerTo, Grouped, Next, LegalSteps, RunSteps;
    PairMeansCalls(e, f);
    LocalInv(e, f);
    DropKept(e.procedures, e.host, e.wire, a.order, id);
    StepKeeps(e.procedures, e.host, a);
    var g := Next(e.procedures, e.host, a);
    if LegalSteps(e.procedures, g, later) && NobodyWaitsFor(later, id) {
      SettledStays(e.procedures, g, later, id);
    }
  }

  /** A wire that is linked gathers arguments only for calls that it knows to be ongoing, whatever the peers of other
      wires send: its identifier is clean when it is dropped. */
  lemma LinkedWireLeavesNothing(e: End, f: End, a: Step)
    requires PairInv(e, f) && May(e, f, a) && Drops(e, a)
    ensures Inv(e.host) && Enabled(e.host, a) && Clean(Next(e.procedures, e.host, a), e.wire)
  {
    hide PairInv, Inv, Next, Store.Valid, Local;
    LocalInv(e, f);
    DropLeavesIff(e.procedures, e.host, e.wire, a.order);
    forall c: Call | Key(c, e.wire) in e.host.store.calls ensures c in e.host.wires[e.wire].ongoing {
      GatheredIsOngoing(e, c);
    }
  }

  lemma GatheredIsOngoing(e: End, c: Call)
    requires Local(e) && Key(c, e.wire) in e.host.store.calls
    ensures c in e.Wire().ongoing
  {
    hide Inv, CallerFits, TidyProcedures, CallsNothing, Pieces, ArgsOf, Execute, AnswerPieces, Streams;
    HasBuffer(e.host, Key(c, e.wire));
    assert ArgsOf(e.host.store, Key(c, e.wire)) == ExpectedArgs(e.host, e.wire, e.trace.took, c);
    assert Serves(e.procedures, e.host, e.wire, e.trace.took, e.trace.sent, c);
    PendingOnce(e.trace.took, c);
  }

  function NewLink(h: Host, k: Host, hp: Procedures, kp: Procedures, hc: Config, kc: Config, hm: bool, km: bool,
                   hMax: nat, kMax: nat): Link
  {
    Link(NewEnd(h, hp, hc, hm, hMax), NewEnd(k, kp, kc, km, kMax), true, true)
  }

  lemma NewLinkIsSound(h: Host, k: Host, hp: Procedures, kp: Procedures, hc: Config, kc: Config, hm: bool, km: bool,
                       hMax: nat, kMax: nat)
    requires CanJoin(h, hp, hc) && CanJoin(k, kp, kc)
    ensures var l := NewLink(h, k, hp, kp, hc, kc, hm, km, hMax, kMax); PairInv(l.left, l.right)
  {
    NewEndIsLocal(h, hp, hc, hm, hMax);
    NewEndIsLocal(k, kp, kc, km, kMax);
    NewPair(NewEnd(h, hp, hc, hm, hMax), NewEnd(k, kp, kc, km, kMax));
  }

  /** From the moment two wires are connected, at hosts that may have any other wires and any past as long as nothing
      is left under the new identifiers, until any later moment: whatever both sides call, in whole or in pieces, flush,
      receive, yield, wait for and recycle, whatever their other wires do, and whether the wires are terminated, meet
      the end of their input or are dropped, a finished response at either end is the procedure applied to what the
      caller supplied, and that is what a wait for it returns. */
  lemma EveryRunRefinesCalls(h: Host, k: Host, hp: Procedures, kp: Procedures, hc: Config, kc: Config, hm: bool,
                             km: bool, hMax: nat, kMax: nat, events: seq<Event>)
    requires CanJoin(h, hp, hc) && CanJoin(k, kp, kc)
    ensures var l := NewLink(h, k, hp, kp, hc, kc, hm, km, hMax, kMax);
            && PairInv(l.left, l.right)
            && (LegalRun(l, events) ==>
                  var m := RunOf(l, events);
                  && m.left.procedures == hp && m.right.procedures == kp
                  && FinishedMeanCalls(m.left, m.right) && FinishedMeanCalls(m.right, m.left)
                  && WaitsReturnCalls(m.left, m.right) && WaitsReturnCalls(m.right, m.left))
  {
    hide CanJoin, PairInv, FinishedMeanCalls, WaitsReturnCalls;
    var l := NewLink(h, k, hp, kp, hc, kc, hm, km, hMax, kMax);
    NewLinkIsSound(h, k, hp, kp, hc, kc, hm, km, hMax, kMax);
    if LegalRun(l, events) {
      RunKeeps(l, events);
      var m := RunOf(l, events);
      PairMeansCalls(m.left, m.right);
      PairSwaps(m.left, m.right);
      PairMeansCalls(m.right, m.left);
      PairReturnsCalls(m.left, m.right);
      PairReturnsCalls(m.right, m.left);
    }
  }
}
