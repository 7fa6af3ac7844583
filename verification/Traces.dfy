/** What one wire of a host has sent, received and let through in its life, and how this history accounts for the
    arguments, the responses, the ongoing calls and the answers of that wire, whatever happens to other wires. */
module Traces {
  import opened Types
  import opened Stores
  import opened Chunks
  import opened WireFormat
  import opened Wires
  import opened Hosts
  import opened HostCalls
  import opened HostResponses
  import opened HostSteps
  import opened HostRuns
  import opened HostContents
  import opened HostEffects

  /** Messages queued for sending, messages received, and those call frames among them that were under the limit. */
  datatype Trace = Trace(sent: seq<Message>, got: seq<Message>, took: seq<Message>)

  // --- The pieces of one call ---

  function PieceOf(m: Message, kind: Kind, call: Call): seq<Yield> {
    if m.Frame? && m.kind == kind && m.call == call then [Yield(m.payload, m.terminator)] else []
  }

  /** What the frames of one kind say about one call, in order. */
  function Pieces(ms: seq<Message>, kind: Kind, call: Call): seq<Yield>
    decreases |ms|
  {
    if ms == [] then [] else Pieces(ms[..|ms| - 1], kind, call) + PieceOf(ms[|ms| - 1], kind, call)
  }

  predicate Ended(ps: seq<Yield>) {
    ps != [] && ps[|ps| - 1].terminator.Complete?
  }

  /** Nothing comes after a piece that completes. */
  predicate Tidy(ps: seq<Yield>) {
    forall i :: 0 <= i < |ps| - 1 ==> !ps[i].terminator.Complete?
  }

  lemma TidyMore(ps: seq<Yield>, p: Yield)
    requires Tidy(ps) && !Ended(ps)
    ensures Tidy(ps + [p]) && ps + [p] != [] && (Ended(ps + [p]) <==> p.terminator.Complete?)
  {
  }

  lemma PiecesOne(ms: seq<Message>, m: Message, kind: Kind, call: Call)
    ensures Pieces(ms + [m], kind, call) == Pieces(ms, kind, call) + PieceOf(m, kind, call)
  {
    assert (ms + [m])[..|ms|] == ms;
  }

  lemma {:induction false} PiecesMore(ms: seq<Message>, more: seq<Message>, kind: Kind, call: Call)
    ensures Pieces(ms + more, kind, call) == Pieces(ms, kind, call) + Pieces(more, kind, call)
    decreases |more|
  {
    if more == [] {
      assert ms + more == ms;
    } else {
      var (init, last) := (more[..|more| - 1], more[|more| - 1]);
      assert ms + more == ms + init + [last];
      PiecesOne(ms + init, last, kind, call);
      PiecesMore(ms, init, kind, call);
    }
  }

  lemma {:induction false} JoinedOne(ps: seq<Yield>, p: Yield)
    ensures Joined(ps + [p]) == Joined(ps) + p.bytes
    decreases |ps|
  {
    if ps == [] {
      assert [p][1..] == [] && ps + [p] == [p];
      assert Joined([p]) == p.bytes + Joined([]);
    } else {
      assert (ps + [p])[1..] == ps[1..] + [p];
      JoinedOne(ps[1..], p);
    }
  }

  /** The bytes let through for a call since it last ran, if there has been a frame since. */
  function Pending(took: seq<Message>, call: Call): Option<Bytes>
    decreases |took|
  {
    if took == [] then Nothing
    else PendingAfter(Pending(took[..|took| - 1], call), took[|took| - 1], call)
  }

  function PendingAfter(before: Option<Bytes>, m: Message, call: Call): Option<Bytes> {
    if m.Frame? && m.kind.CallFrame? && m.call == call then
      if m.terminator.Complete? then Nothing else Some(OrEmpty(before) + m.payload)
    else before
  }

  lemma PendingOne(took: seq<Message>, m: Message, call: Call)
    ensures Pending(took + [m], call) == PendingAfter(Pending(took, call), m, call)
  {
    assert (took + [m])[..|took|] == took;
  }

  /** For a call that runs once, these are all of its bytes until it has run. */
  lemma {:induction false} PendingOnce(took: seq<Message>, call: Call)
    requires Tidy(Pieces(took, CallFrame, call))
    ensures var ps := Pieces(took, CallFrame, call);
            Pending(took, call) == if ps == [] || Ended(ps) then Nothing else Some(Joined(ps))
    decreases |took|
  {
    if took != [] {
      var (init, m) := (took[..|took| - 1], took[|took| - 1]);
      var (ps, qs) := (Pieces(took, CallFrame, call), Pieces(init, CallFrame, call));
      assert took == init + [m];
      PiecesOne(init, m, CallFrame, call);
      forall i | 0 <= i < |qs| - 1 ensures !qs[i].terminator.Complete? {
        assert qs[i] == ps[i];
      }
      PendingOnce(init, call);
      PendingOne(init, m, call);
      if PieceOf(m, CallFrame, call) == [] {
        assert ps == qs;
      } else {
        var p := Yield(m.payload, m.terminator);
        assert ps == qs + [p];
        JoinedOne(qs, p);
        if qs == [] {
          assert Joined(qs) == [];
        } else {
          assert ps[|qs| - 1] == qs[|qs| - 1] && !Ended(qs);
        }
      }
    }
  }

  // --- How steps extend the history ---

  predicate Starts(h: Host, a: Step)
    requires (a.Start? || a.Once?) && a.wire in h.wires
  {
    h.wires[a.wire].CanCall().Ok? && (a.Start? ==> a.args != [])
  }

  /** The messages that a step queues on wire `w`. */
  function Posted(procedures: Procedures, h: Host, w: nat, a: Step): seq<Message>
    requires Inv(h) && Enabled(h, a) && w in h.wires
  {
    InvValid(h);
    var wire := h.wires[w];
    match a
    case Start(v, p, args) =>
      if v == w && Starts(h, a) then [Frame(CallFrame, wire.NextCall(p), None, args)] else []
    case Once(v, p, args) =>
      if v == w && Starts(h, a) then [Frame(CallFrame, wire.NextCall(p), Complete, args)] else []
    case More(v, c, args) =>
      if v == w && wire.CanCall().Ok? && args != [] then [Frame(CallFrame, c, None, args)] else []
    case Finally(v, c) => if v == w && wire.CanCall().Ok? then [Frame(CallFrame, c, Complete, [])] else []
    case Tell(v, m) => if v == w && !(wire.terminated && m.EndOfInput?) then [m] else []
    case Receive(v, m, _) => if v == w then Answers(procedures, h, w, m) else []
    case Later(v, c, y) =>
      if v == w && !wire.terminated then [Frame(ResponseFrame, c, y.terminator, y.bytes)] else []
    case _ => []
  }

  predicate LetsThrough(h: Host, w: nat, m: Message)
    requires w in h.wires
  {
    m.Frame? && m.kind.CallFrame? && !OverLimit(h.wires[w], m.call)
  }

  /** The arguments that a call frame makes complete, or would. */
  function ArgumentsWith(h: Host, w: nat, m: Message): Bytes
    requires h.store.Valid() && m.Frame?
  {
    OrEmpty(ArgsOf(h.store, Key(m.call, w))) + m.payload
  }

  /** What a received message is answered with at once. */
  function Answers(procedures: Procedures, h: Host, w: nat, m: Message): seq<Message>
    requires h.store.Valid() && w in h.wires
  {
    if LetsThrough(h, w, m) && m.terminator.Complete? then
      Replies(m.call, Execute(procedures, m.call.procedure, ArgumentsWith(h, w, m)))
    else []
  }

  function Traced(procedures: Procedures, h: Host, w: nat, tr: Trace, a: Step): Trace
    requires Inv(h) && Enabled(h, a) && w in h.wires
  {
    var sent := tr.sent + Posted(procedures, h, w, a);
    if a.Receive? && a.wire == w then
      Trace(sent, tr.got + [a.message], tr.took + if LetsThrough(h, w, a.message) then [a.message] else [])
    else Trace(sent, tr.got, tr.took)
  }

  // --- Demultiplexing ---

  /** Exactly the calls that have frames since they last ran have a buffer, and it holds the bytes of those frames in
      order. Termination takes the buffers of the ongoing ones. */
  ghost predicate ArgumentsFit(h: Host, w: nat, took: seq<Message>) {
    && w in h.wires && h.store.Valid()
    && forall c: Call :: ArgsOf(h.store, Key(c, w)) == ExpectedArgs(h, w, took, c)
  }

  function ExpectedArgs(h: Host, w: nat, took: seq<Message>, c: Call): Option<Bytes>
    requires w in h.wires
  {
    if h.wires[w].terminated && c in h.wires[w].ongoing then Nothing else Pending(took, c)
  }

  /** No arguments are gathered under the identifier. */
  ghost predicate Clean(h: Host, w: nat) {
    forall c: Call :: Key(c, w) !in h.store.calls
  }

  lemma ArgumentsElsewhere(h: Host, g: Host, w: nat, took: seq<Message>)
    requires Inv(h) && Inv(g) && Elsewhere(h, g, w) && ArgumentsFit(h, w, took)
    ensures ArgumentsFit(g, w, took)
  {
    hide MessagesInv, MapsInv, Store.Valid, Content, Pending, ArgsOf, Elsewhere;
    InvValid(g);
    ElsewhereThere(h, g, w);
    forall c: Call ensures ArgsOf(g.store, Key(c, w)) == ArgsOf(h.store, Key(c, w)) {
      ArgsElsewhere(h, g, w, c);
    }
  }

  lemma ArgsElsewhere(h: Host, g: Host, w: nat, c: Call)
    requires Inv(h) && Inv(g) && Elsewhere(h, g, w)
    ensures h.store.Valid() && g.store.Valid() && ArgsOf(g.store, Key(c, w)) == ArgsOf(h.store, Key(c, w))
  {
    hide MessagesInv, MapsInv, Store.Valid, Content;
    Owned(h);
    Owned(g);
    var key := Key(c, w);
    if key in g.store.calls {
      GathersThere(g, key);
      GathersThere(h, key);
    }
  }

  lemma ArgumentsReceived(procedures: Procedures, h: Host, w: nat, m: Message, order: seq<Call>, took: seq<Message>)
    requires Inv(h) && w in h.wires && !h.wires[w].terminated && MayReceive(h, w, m, order)
    requires ArgumentsFit(h, w, took)
    ensures ArgumentsFit(Received(procedures, h, w, m, order), w, took + if LetsThrough(h, w, m) then [m] else [])
  {
    hide MessagesInv, MapsInv, Store.Valid, Pending, ArgsOf, Admit, Respond, Terminate, Execute, Answered;
    InvValid(h);
    WireFacts(h, w);
    assert took + [] == took;
    if LetsThrough(h, w, m) {
      AdmitArgs(procedures, h, w, m.call, m.terminator, m.payload);
      AdmittedWire(procedures, h, w, m.call, m.terminator, m.payload);
      forall c: Call ensures Pending(took + [m], c) == PendingAfter(Pending(took, c), m, c) {
        PendingOne(took, m, c);
      }
      var g := Admit(procedures, h, w, m.call, m.terminator, m.payload);
      forall c: Call ensures ArgsOf(g.store, Key(c, w)) == ExpectedArgs(g, w, took + [m], c) {
        PendingOne(took, m, c);
        OtherArg(h.store, g.store, Key(m.call, w), Key(c, w));
      }
    } else if m.Frame? && m.kind.ResponseFrame? {
      RespondKeeps(h, w, m.call, m.terminator, m.payload);
      ArgumentsRespond(h, w, m.call, m.terminator, m.payload, took);
    } else if m.Termination? {
      ArgumentsTerminate(h, w, order, took);
    }
  }

  lemma OtherArg(s: Store, t: Store, key: Key, k: Key)
    requires SameOtherArgs(s, t, key)
    ensures s.Valid() && t.Valid() && (k != key ==> ArgsOf(t, k) == ArgsOf(s, k))
  {
  }

  lemma AdmittedWire(procedures: Procedures, h: Host, w: nat, call: Call, t: Terminator, bytes: Bytes)
    requires Inv(h) && w in h.wires && !h.wires[w].terminated && w in h.outbox
    requires Key(call, w) in h.store.calls || Room(h)
    ensures var g := Admit(procedures, h, w, call, t, bytes);
            && g.store.Valid() && w in g.wires && !g.wires[w].terminated && SameSetup(h.wires[w], g.wires[w])
            && g.wires[w].responses == h.wires[w].responses && g.wires[w].counters == h.wires[w].counters
  {
    hide MessagesInv, MapsInv, Store.Valid, Admit, Answered, Execute, ArgsOf, SameOtherArgs, SameResponses, Replies;
    AdmitArgs(procedures, h, w, call, t, bytes);
    var args := OrEmpty(ArgsOf(h.store, Key(call, w))) + bytes;
    var x := h.wires[w].(ongoing := h.wires[w].ongoing + {call});
    AnsweredEffect(x, call, Execute(procedures, call.procedure, args));
  }

  lemma ArgumentsRespond(h: Host, w: nat, call: Call, t: Terminator, bytes: Bytes, took: seq<Message>)
    requires Inv(h) && w in h.wires && ArgumentsFit(h, w, took)
    requires call in h.wires[w].responses ==> h.wires[w].responses[call] in h.store.messages
    ensures ArgumentsFit(Respond(h, w, call, t, bytes), w, took)
  {
    hide MessagesInv, MapsInv, Store.Valid, Pending, Respond, Content;
    InvValid(h);
    RespondKeeps(h, w, call, t, bytes);
    var g := Respond(h, w, call, t, bytes);
    RespondShape(h, w, call, t, bytes);
    if call in h.wires[w].responses {
      AwaitsThere(h, w, call);
      Owned(g);
      Owned(h);
      forall c: Call ensures ArgsOf(g.store, Key(c, w)) == ArgsOf(h.store, Key(c, w)) {
        if Key(c, w) in h.store.calls {
          GathersThere(h, Key(c, w));
          GathersThere(g, Key(c, w));
        }
      }
    }
  }

  lemma ArgumentsTerminate(h: Host, w: nat, order: seq<Call>, took: seq<Message>)
    requires Inv(h) && w in h.wires && !h.wires[w].terminated && Lists(order, h.wires[w].ongoing)
    requires ArgumentsFit(h, w, took)
    ensures ArgumentsFit(Terminate(h, w, order), w, took)
  {
    hide MessagesInv, MapsInv, Store.Valid, Pending, Terminate, Content, ArgsOf;
    var g := Terminate(h, w, order);
    TerminateKeeps(h, w, order);
    InvValid(g);
    TerminateShape(h, w, order);
    forall c: Call ensures ArgsOf(g.store, Key(c, w)) == ExpectedArgs(g, w, took, c) {
      TerminateArgs(h, w, order, c);
    }
  }

  lemma TerminateArgs(h: Host, w: nat, order: seq<Call>, c: Call)
    requires Inv(h) && w in h.wires && Lists(order, h.wires[w].ongoing)
    ensures h.store.Valid() && Terminate(h, w, order).store.Valid()
    ensures ArgsOf(Terminate(h, w, order).store, Key(c, w))
            == if c in h.wires[w].ongoing then Nothing else ArgsOf(h.store, Key(c, w))
  {
    hide MessagesInv, MapsInv, Store.Valid, Terminate, Content;
    InvValid(h);
    var (g, key) := (Terminate(h, w, order), Key(c, w));
    TerminateKeeps(h, w, order);
    Owned(h);
    Owned(g);
    TerminateShape(h, w, order);
    if key in g.store.calls {
      GathersThere(h, key);
      GathersThere(g, key);
    }
  }

  /** Demultiplexing. However frames of other calls and wires interleave, and whichever identifiers are recycled, a
      call's buffer holds exactly the bytes let through for it since it last ran. */
  lemma ArgumentsStep(procedures: Procedures, h: Host, w: nat, tr: Trace, a: Step)
    requires Inv(h) && Enabled(h, a) && ArgumentsFit(h, w, tr.took) && !(a.DropWire? && a.wire == w)
    ensures ArgumentsFit(Next(procedures, h, a), w, Traced(procedures, h, w, tr, a).took)
  {
    hide MessagesInv, MapsInv, Elsewhere, Begin, Received, Terminate, MayReceive, ArgumentsFit, Store.Valid;
    hide LetsThrough, NextHandling, Answers;
    InvValid(h);
    StepKeeps(procedures, h, a);
    ArgumentsFitThere(h, w, tr.took);
    if !Touches(a, w) {
      StepElsewhere(procedures, h, a, w);
      ArgumentsElsewhere(h, Next(procedures, h, a), w, tr.took);
    } else {
      match a
      case Receive(_, m, order) => ArgumentsReceived(procedures, h, w, m, order, tr.took);
      case ReadEof(_, order) => ArgumentsTerminate(h, w, order, tr.took);
      case Later(_, call, y) => ArgumentsSame(h, Next(procedures, h, a), w, tr.took);
      case _ => ArgumentsBegin(h, a, w, tr.took);
    }
  }

  lemma ArgumentsFitThere(h: Host, w: nat, took: seq<Message>)
    requires ArgumentsFit(h, w, took)
    ensures w in h.wires && h.store.Valid()
  {
  }

  lemma ArgumentsSame(h: Host, g: Host, w: nat, took: seq<Message>)
    requires ArgumentsFit(h, w, took) && w in g.wires && g.wires[w].terminated == h.wires[w].terminated
    requires g.store == h.store && (h.wires[w].terminated ==> g.wires[w].ongoing == h.wires[w].ongoing)
    ensures ArgumentsFit(g, w, took)
  {
    hide Store.Valid, ArgsOf, Pending;
  }

  lemma ArgumentsBegin(h: Host, a: Step, w: nat, took: seq<Message>)
    requires Inv(h) && Enabled(h, a) && (a.Start? || a.Once?) && a.wire == w && ArgumentsFit(h, w, took)
    ensures ArgumentsFit(NextCalling(h, a), w, took)
  {
    hide MessagesInv, MapsInv, Begin, Store.Valid, Pending, ArgsOf, Register, CanBegin;
    InvValid(h);
    WireFacts(h, w);
    CallingKeeps(h, a);
    var g := NextCalling(h, a);
    InvValid(g);
    if Starts(h, a) {
      BeginningCalls(h, a, w);
      forall c: Call ensures ArgsOf(g.store, Key(c, w)) == ArgsOf(h.store, Key(c, w)) {
        BeginningArgs(h, g, w, c);
      }
    }
  }

  lemma BeginningArgs(h: Host, g: Host, w: nat, c: Call)
    requires Inv(h) && Inv(g) && SameArguments(h, g, w) && Undisturbed(h, g, w, {h.store.messageIds.Next()}) && Room(h)
    ensures h.store.Valid() && g.store.Valid() && ArgsOf(g.store, Key(c, w)) == ArgsOf(h.store, Key(c, w))
  {
    hide MessagesInv, MapsInv, Store.Valid, Content;
    Owned(h);
    Owned(g);
    FreshId(h);
    if Key(c, w) in h.store.calls {
      GathersThere(h, Key(c, w));
      GathersThere(g, Key(c, w));
    }
  }

  /** What starting a call does to its wire, in both forms. */
  lemma BeginningCalls(h: Host, a: Step, w: nat)
    requires Inv(h) && Enabled(h, a) && (a.Start? || a.Once?) && a.wire == w && Starts(h, a)
    ensures Room(h) && w in h.outbox
    ensures var (g, c, id) := (NextCalling(h, a), h.wires[w].NextCall(a.procedure), h.store.messageIds.Next());
            && h.store.Valid() && g.store.Valid() && w in g.wires && w in g.outbox
            && SameArguments(h, g, w) && Undisturbed(h, g, w, {id}) && id !in h.owner
            && g.owner == h.owner[id := Response(w, c)]
            && id in g.store.messages && Content(g.store, id) == [[]]
            && SameSetup(h.wires[w], g.wires[w]) && g.wires[w].terminated == h.wires[w].terminated
            && g.wires[w].ongoing == h.wires[w].ongoing
            && g.wires[w].responses == h.wires[w].responses[c := id] && c !in h.wires[w].responses
            && g.outbox[w] == h.outbox[w] + [Frame(CallFrame, c, if a.Start? then None else Complete, a.args)]
  {
    hide MessagesInv, MapsInv, Store.Valid, Content, Store.Push, Encode;
    InvValid(h);
    WireFacts(h, w);
    CallingKeeps(h, a);
    InvValid(NextCalling(h, a));
    FreshId(h);
    var t := if a.Start? then None else Complete;
    BeginContent(h, w, a.procedure, t, a.args);
    BeginKeeps(h, w, a.procedure, t, a.args);
  }

  /** What beginning a call does to the counters. */
  lemma BeginningCounts(h: Host, a: Step, w: nat)
    requires Inv(h) && Enabled(h, a) && (a.Start? || a.Once?) && a.wire == w && Starts(h, a)
    ensures var (g, c) := (NextCalling(h, a), h.wires[w].NextCall(a.procedure));
            w in g.wires && g.wires[w].counters == h.wires[w].counters[a.procedure := c.index]
  {
    hide MessagesInv, MapsInv, Store.Valid, Store.Push, Encode;
    WireFacts(h, w);
    CallingKeeps(h, a);
  }

  lemma ReceivedCounts(procedures: Procedures, h: Host, w: nat, m: Message, order: seq<Call>)
    requires Inv(h) && w in h.wires && !h.wires[w].terminated && MayReceive(h, w, m, order)
    ensures var g := Received(procedures, h, w, m, order);
            && w in g.wires && g.wires[w].cfg == h.wires[w].cfg && g.wires[w].counters == h.wires[w].counters
            && g.wires[w].responses.Keys <= h.wires[w].responses.Keys
  {
    hide MessagesInv, MapsInv, Store.Valid, Admit, Respond, Terminate;
    WireFacts(h, w);
    match m
    case Frame(CallFrame, call, t, bytes) =>
      if !OverLimit(h.wires[w], call) {
        AdmittedWire(procedures, h, w, call, t, bytes);
      }
    case Frame(ResponseFrame, call, t, bytes) =>
      RespondKeeps(h, w, call, t, bytes);
      RespondShape(h, w, call, t, bytes);
    case Termination => TerminateShape(h, w, order);
    case _ =>
  }
}
