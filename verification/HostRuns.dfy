/** All runs of a host with any number of wires and peers that may send anything, in any order. */
module HostRuns {
  import opened Types
  import opened Stores
  import opened WireFormat
  import opened Wires
  import opened Hosts
  import opened HostCalls
  import opened HostResponses
  import opened HostSteps

  /** `Later` is a yield of a streaming closure and `LetGo` its end without a completing one, `Tell` queues an
      end-of-input or a termination, `ReadEof` is `fill` finding the end of its input, and `StrikeOff` is a finished
      stream leaving the list of idle handles. */
  datatype Step =
    | ConnectWire(cfg: Config, moduleStyle: bool, max: nat)
    | DropWire(wire: nat, order: seq<Call>)
    | Start(wire: nat, procedure: nat, args: Bytes)
    | Once(wire: nat, procedure: nat, args: Bytes)
    | More(wire: nat, call: Call, args: Bytes)
    | Finally(wire: nat, call: Call)
    | Tell(wire: nat, message: Message)
    | Flush(wire: nat)
    | Receive(wire: nat, message: Message, order: seq<Call>)
    | ReadEof(wire: nat, order: seq<Call>)
    | Later(wire: nat, call: Call, piece: Yield)
    | LetGo(wire: nat, call: Call)
    | Wait(id: nat)
    | Open(id: nat)
    | Close(channel: nat)
    | Take(channel: nat, lock: nat, id: nat)
    | StrikeOff(wire: nat, id: nat)

  predicate Room(h: Host) {
    |h.store.messages| < h.store.messageIds.limit
  }

  /** A new call of the procedure can be made: there is an unused message identifier, and the call index has not
      wrapped around to one that is still waited for. */
  predicate CanBegin(h: Host, w: nat, procedure: nat)
    requires w in h.wires
  {
    h.wires[w].CanCall().Ok? ==> Room(h) && h.wires[w].NextCall(procedure) !in h.wires[w].responses
  }

  /** Which messages may arrive: whatever there is room for. A wire in module style reads no responses. */
  ghost predicate MayReceive(h: Host, w: nat, m: Message, order: seq<Call>)
    requires w in h.wires
  {
    match m
    case Frame(CallFrame, call, _, _) =>
      Key(call, w) in h.store.calls || OverLimit(h.wires[w], call) || Room(h)
    case Frame(ResponseFrame, _, _, _) => !h.wires[w].moduleStyle
    case Termination => Lists(order, h.wires[w].ongoing)
    case _ => true
  }

  /** What the environment and the users do. Identifiers are not exhausted, a call is ended once, a stream is opened
      before its message is complete, and a finished stream is not struck off in place of whoever else waits. */
  ghost predicate Enabled(h: Host, a: Step)
    requires h.store.Valid()
  {
    match a
    case ConnectWire(_, _, _) => |h.wires| < h.store.wireIds.limit
    case DropWire(w, order) => w in h.wires && Lists(order, h.wires[w].ongoing)
    case Start(w, p, args) => w in h.wires && (args != [] ==> CanBegin(h, w, p))
    case Once(w, p, _) => w in h.wires && CanBegin(h, w, p)
    case More(w, _, _) => w in h.wires
    case Finally(w, call) => w in h.wires && (call in h.wires[w].responses ==> Unclaimed(h, h.wires[w].responses[call]))
    case Tell(w, m) => w in h.wires && m in {EndOfInput, Termination}
    case Flush(w) => w in h.wires
    case Receive(w, m, order) => w in h.wires && !h.wires[w].terminated && MayReceive(h, w, m, order)
    case ReadEof(w, order) => w in h.wires && !h.wires[w].terminated && Lists(order, h.wires[w].ongoing)
    case Later(w, _, _) => w in h.wires
    case LetGo(w, call) => Key(call, w) in h.streamed
    case Wait(id) => id in h.handles && h.store.Ready(id)
    case Open(id) => id in h.handles && id in h.store.messages && !h.store.LockOf(id).Completed?
    case Close(ch) => ch < |h.store.channels|
    case Take(ch, lock, _) => ch < |h.store.channels| && lock < |h.store.locks| && h.store.CanReceive(ch, lock)
    case StrikeOff(w, id) =>
      && w in h.wires
      && (WaitedOn(h.store.messages, h.handles, id) ==>
            id in h.owner && !(h.owner[id].Response? && h.owner[id].wire == w))
  }

  predicate Unclaimed(h: Host, id: nat) {
    id !in h.handles && id in h.store.messages && h.store.messages[id].sender.NoSender?
  }

  /** A frame of a call that is let through: its buffer is there or made, takes the bytes, and a complete call runs. */
  function Admit(procedures: Procedures, h: Host, w: nat, call: Call, t: Terminator, bytes: Bytes): Host
    requires Inv(h) && w in h.wires && !h.wires[w].terminated
    requires Key(call, w) in h.store.calls || Room(h)
  {
    AdmitKeeps(procedures, h, w, call, bytes);
    var g := Accumulate(EnsureBuffer(h, w, call), Key(call, w), bytes);
    if t.Complete? then Consume(procedures, g, Key(call, w)) else g
  }

  lemma AdmitKeeps(procedures: Procedures, h: Host, w: nat, call: Call, bytes: Bytes)
    requires Inv(h) && w in h.wires && !h.wires[w].terminated
    requires Key(call, w) in h.store.calls || Room(h)
    ensures var (h1, key) := (EnsureBuffer(h, w, call), Key(call, w));
            && Inv(h1) && key in h1.store.calls && GathersAt(h1.store, key)
            && var h2 := Accumulate(h1, key, bytes);
            && Inv(h2) && key in h2.store.calls && key.wire in h2.wires && key.wire in h2.outbox
            && GathersAt(h2.store, key) && h2.store.messages[h2.store.calls[key]].chunks != []
            && Inv(Consume(procedures, h2, key))
  {
    hide MessagesInv, MapsInv, GathersAt, EnsureBuffer, Consume, Store.SendMany, Accumulate, Store.Valid;
    InvValid(h);
    EnsureBufferKeeps(h, w, call);
    EnsureBufferThere(h, w, call);
    var h1 := EnsureBuffer(h, w, call);
    InvValid(h1);
    AccumulateKeeps(h1, Key(call, w), bytes);
    AccumulateCalls(h1, Key(call, w), bytes);
    var h2 := Accumulate(h1, Key(call, w), bytes);
    InvValid(h2);
    ConsumeKeeps(procedures, h2, Key(call, w));
    GathersThere(h2, Key(call, w));
    OneChunk(h2.store, Key(call, w));
  }

  lemma AccumulateCalls(h: Host, key: Key, bytes: Bytes)
    requires h.store.Valid() && key in h.store.calls
    ensures Accumulate(h, key, bytes).store.calls == h.store.calls
    ensures Accumulate(h, key, bytes).wires == h.wires
  {
  }

  function ReceiveFrame(procedures: Procedures, h: Host, w: nat, call: Call, t: Terminator, bytes: Bytes): Host
    requires Inv(h) && w in h.wires && !h.wires[w].terminated
    requires Key(call, w) in h.store.calls || OverLimit(h.wires[w], call) || Room(h)
  {
    if OverLimit(h.wires[w], call) then h else Admit(procedures, h, w, call, t, bytes)
  }

  lemma EnsureBufferThere(h: Host, w: nat, call: Call)
    requires h.store.Valid() && w in h.wires
    ensures var g := EnsureBuffer(h, w, call);
            Key(call, w) in g.store.calls && w in g.wires && g.wires[w].terminated == h.wires[w].terminated
  {
  }

  lemma WireFacts(h: Host, w: nat)
    requires Inv(h) && w in h.wires
    ensures h.store.Valid() && w in h.outbox && h.wires[w].id == w
  {
  }

  function StartCall(h: Host, w: nat, procedure: nat, args: Bytes): Host
    requires Inv(h) && w in h.wires
  {
    WireFacts(h, w);
    if h.wires[w].CanCall().Err? || args == [] then h else Begin(h, w, procedure, None, args)
  }

  function CallOnce(h: Host, w: nat, procedure: nat, args: Bytes): Host
    requires Inv(h) && w in h.wires && CanBegin(h, w, procedure)
  {
    WireFacts(h, w);
    if h.wires[w].CanCall().Err? then h
    else
      BeginKeeps(h, w, procedure, Complete, args);
      Register(Begin(h, w, procedure, Complete, args), w, h.store.messageIds.Next())
  }

  function ContinueCall(h: Host, w: nat, call: Call, args: Bytes): Host
    requires Inv(h) && w in h.wires
  {
    WireFacts(h, w);
    if h.wires[w].CanCall().Err? || args == [] then h else Post(h, w, Frame(CallFrame, call, None, args))
  }

  function EndCall(h: Host, w: nat, call: Call): Host
    requires Inv(h) && w in h.wires
  {
    WireFacts(h, w);
    if h.wires[w].CanCall().Err? then h
    else
      var g := Post(h, w, Frame(CallFrame, call, Complete, []));
      if call in h.wires[w].responses then
        AwaitsThere(h, w, call);
        Register(g, w, h.wires[w].responses[call])
      else g
  }

  function Received(procedures: Procedures, h: Host, w: nat, m: Message, order: seq<Call>): Host
    requires Inv(h) && w in h.wires && !h.wires[w].terminated && MayReceive(h, w, m, order)
  {
    WireFacts(h, w);
    match m
    case Frame(CallFrame, call, t, bytes) => ReceiveFrame(procedures, h, w, call, t, bytes)
    case Frame(ResponseFrame, call, t, bytes) =>
      RespondKeeps(h, w, call, t, bytes);
      Respond(h, w, call, t, bytes)
    case Termination => Terminate(h, w, order)
    case _ => h
  }

  function YieldLater(h: Host, w: nat, call: Call, y: Yield): Host
    requires Inv(h) && w in h.wires
  {
    WireFacts(h, w);
    YieldAt(h, w, call, y)
  }

  function WaitFor(h: Host, id: nat): Host
    requires Inv(h) && id in h.handles && h.store.Ready(id)
  {
    HandleOwner(h, id);
    Waited(h, id)
  }

  function Told(h: Host, w: nat, m: Message): Host
    requires Inv(h) && w in h.wires
  {
    WireFacts(h, w);
    if h.wires[w].terminated && m.EndOfInput? then h else Post(h, w, m)
  }

  function FlushOut(h: Host, w: nat): Host
    requires Inv(h) && w in h.wires
  {
    WireFacts(h, w);
    Flushed(h, w)
  }

  function Listened(h: Host, id: nat): Host
    requires Inv(h) && id in h.store.messages
  {
    Streamed(h, id)
  }

  /** Receivers of streams take what was sent or go away. */
  function Taken(h: Host, ch: nat, lock: nat, id: nat): Host
    requires ch < |h.store.channels| && lock < |h.store.locks| && h.store.CanReceive(ch, lock)
  {
    h.(store := h.store.Receive(ch, lock, id).0)
  }

  function Closed(h: Host, ch: nat): Host
    requires ch < |h.store.channels|
  {
    h.(store := h.store.DropReceiver(ch))
  }

  predicate Calling(a: Step) {
    a.Start? || a.Once? || a.More? || a.Finally? || a.Tell?
  }

  function NextCalling(h: Host, a: Step): Host
    requires Inv(h) && Enabled(h, a) && Calling(a)
  {
    match a
    case Start(w, p, args) => StartCall(h, w, p, args)
    case Once(w, p, args) => CallOnce(h, w, p, args)
    case More(w, call, args) => ContinueCall(h, w, call, args)
    case Finally(w, call) => EndCall(h, w, call)
    case Tell(w, m) => Told(h, w, m)
  }

  predicate Handling(a: Step) {
    a.Wait? || a.Open? || a.Close? || a.Take? || a.StrikeOff?
  }

  function NextReceiver(h: Host, a: Step): Host
    requires h.store.Valid() && Enabled(h, a) && (a.Close? || a.Take?)
  {
    match a
    case Close(ch) => Closed(h, ch)
    case Take(ch, lock, id) => Taken(h, ch, lock, id)
  }

  function NextHandling(h: Host, a: Step): Host
    requires Inv(h) && Enabled(h, a) && Handling(a)
  {
    match a
    case Wait(id) => WaitFor(h, id)
    case Open(id) => Listened(h, id)
    case StrikeOff(w, id) => Unregister(h, w, id)
    case _ => NextReceiver(h, a)
  }

  function Next(procedures: Procedures, h: Host, a: Step): Host
    requires Inv(h) && Enabled(h, a)
  {
    if Calling(a) then NextCalling(h, a)
    else if Handling(a) then NextHandling(h, a)
    else
      match a
      case ConnectWire(cfg, moduleStyle, max) => Connect(h, cfg, moduleStyle, max)
      case DropWire(w, order) => Disconnect(h, w, order)
      case Flush(w) => FlushOut(h, w)
      case Receive(w, m, order) => Received(procedures, h, w, m, order)
      case ReadEof(w, order) => Terminate(h, w, order)
      case Later(w, call, y) => YieldLater(h, w, call, y)
      case LetGo(w, call) => LetGoAt(h, Key(call, w))
  }

  // --- The invariant of every run ---

  lemma ReceivedKeeps(procedures: Procedures, h: Host, w: nat, m: Message, order: seq<Call>)
    requires Inv(h) && w in h.wires && !h.wires[w].terminated && MayReceive(h, w, m, order)
    ensures Inv(Received(procedures, h, w, m, order))
  {
    hide MessagesInv, MapsInv;
    WireFacts(h, w);
    match m
    case Frame(CallFrame, call, t, bytes) =>
      if !OverLimit(h.wires[w], call) {
        ReceiveFrameKeeps(procedures, h, w, call, t, bytes);
      }
    case Frame(ResponseFrame, call, t, bytes) => RespondKeeps(h, w, call, t, bytes);
    case Termination => TerminateKeeps(h, w, order);
    case _ =>
  }

  lemma ReceiveFrameKeeps(procedures: Procedures, h: Host, w: nat, call: Call, t: Terminator, bytes: Bytes)
    requires Inv(h) && w in h.wires && !h.wires[w].terminated
    requires Key(call, w) in h.store.calls || OverLimit(h.wires[w], call) || Room(h)
    ensures Inv(ReceiveFrame(procedures, h, w, call, t, bytes))
  {
    hide MessagesInv, MapsInv, GathersAt, EnsureBuffer, Consume, Accumulate;
    if !OverLimit(h.wires[w], call) {
      AdmitKeeps(procedures, h, w, call, bytes);
    }
  }

  lemma StartCallKeeps(h: Host, w: nat, procedure: nat, args: Bytes)
    requires Inv(h) && w in h.wires && (args != [] ==> CanBegin(h, w, procedure))
    ensures Inv(StartCall(h, w, procedure, args))
  {
    hide MessagesInv, MapsInv, Begin;
    WireFacts(h, w);
    if h.wires[w].CanCall().Ok? && args != [] {
      BeginKeeps(h, w, procedure, None, args);
    }
  }

  lemma CallOnceKeeps(h: Host, w: nat, procedure: nat, args: Bytes)
    requires Inv(h) && w in h.wires && CanBegin(h, w, procedure)
    ensures Inv(CallOnce(h, w, procedure, args))
  {
    hide MessagesInv, MapsInv, Begin, Register;
    WireFacts(h, w);
    if h.wires[w].CanCall().Ok? {
      BeginKeeps(h, w, procedure, Complete, args);
      var g := Begin(h, w, procedure, Complete, args);
      BeginWire(h, w, procedure, Complete, args);
      Owned(g);
      RegisteredKeeps(g, w, h.store.messageIds.Next());
    }
  }

  lemma BeginWire(h: Host, w: nat, procedure: nat, t: Terminator, args: Bytes)
    requires h.store.Valid() && w in h.wires && w in h.outbox
    ensures var g := Begin(h, w, procedure, t, args); w in g.wires && g.wires[w].terminated == h.wires[w].terminated
  {
  }

  lemma ContinueCallKeeps(h: Host, w: nat, call: Call, args: Bytes)
    requires Inv(h) && w in h.wires
    ensures Inv(ContinueCall(h, w, call, args))
  {
    hide MessagesInv, MapsInv, Post;
    WireFacts(h, w);
    PostKeeps(h, w, Frame(CallFrame, call, None, args));
  }

  lemma EndCallKeeps(h: Host, w: nat, call: Call)
    requires Inv(h) && w in h.wires && (call in h.wires[w].responses ==> Unclaimed(h, h.wires[w].responses[call]))
    ensures Inv(EndCall(h, w, call))
  {
    hide MessagesInv, MapsInv, Register;
    WireFacts(h, w);
    PostKeeps(h, w, Frame(CallFrame, call, Complete, []));
    if h.wires[w].CanCall().Ok? && call in h.wires[w].responses {
      AwaitsThere(h, w, call);
      RegisteredKeeps(Post(h, w, Frame(CallFrame, call, Complete, [])), w, h.wires[w].responses[call]);
    }
  }

  lemma ToldKeeps(h: Host, w: nat, m: Message)
    requires Inv(h) && w in h.wires
    ensures Inv(Told(h, w, m))
  {
    hide MessagesInv, MapsInv, Post;
    WireFacts(h, w);
    PostKeeps(h, w, m);
  }

  lemma FlushOutKeeps(h: Host, w: nat)
    requires Inv(h) && w in h.wires
    ensures Inv(FlushOut(h, w))
  {
    hide MessagesInv, MapsInv, Flushed;
    WireFacts(h, w);
    FlushKeeps(h, w);
  }

  lemma YieldLaterKeeps(h: Host, w: nat, call: Call, y: Yield)
    requires Inv(h) && w in h.wires
    ensures Inv(YieldLater(h, w, call, y))
  {
    hide MessagesInv, MapsInv, YieldAt;
    WireFacts(h, w);
    YieldKeeps(h, w, call, y);
  }

  lemma WaitForKeeps(h: Host, id: nat)
    requires Inv(h) && id in h.handles && h.store.Ready(id)
    ensures Inv(WaitFor(h, id))
  {
    hide MessagesInv, MapsInv, Waited;
    WaitKeeps(h, id);
  }

  lemma CallingKeeps(h: Host, a: Step)
    requires Inv(h) && Enabled(h, a) && Calling(a)
    ensures Inv(NextCalling(h, a))
  {
    hide MessagesInv, MapsInv, StartCall, CallOnce, ContinueCall, EndCall, Told, Unclaimed, CanBegin;
    match a
    case Start(w, p, args) => StartCallKeeps(h, w, p, args);
    case Once(w, p, args) => CallOnceKeeps(h, w, p, args);
    case More(w, call, args) => ContinueCallKeeps(h, w, call, args);
    case Finally(w, call) => EndCallKeeps(h, w, call);
    case Tell(w, m) => ToldKeeps(h, w, m);
  }

  lemma HandlingKeeps(h: Host, a: Step)
    requires Inv(h) && Enabled(h, a) && Handling(a)
    ensures Inv(NextHandling(h, a))
  {
    hide MessagesInv, MapsInv, WaitFor, Streamed, Unregister;
    hide Store.Valid, Store.Receive, Store.DropReceiver, Store.CanReceive;
    InvValid(h);
    match a
    case Wait(id) => WaitForKeeps(h, id);
    case Open(id) => StreamKeeps(h, id);
    case Close(ch) =>
      DropReceiverKeeps(h.store, ch);
      DropReceiverOnly(h.store, ch);
      ChannelsKeep(h, h.store.DropReceiver(ch));
    case Take(ch, lock, id) =>
      ReceiveKeeps(h.store, ch, lock, id);
      ChannelsKeep(h, h.store.Receive(ch, lock, id).0);
    case StrikeOff(w, id) => StruckOffKeeps(h, w, id);
  }

  lemma DropReceiverOnly(s: Store, ch: nat)
    requires s.Valid() && ch < |s.channels|
    ensures s.DropReceiver(ch) == s.(channels := s.DropReceiver(ch).channels)
  {
  }

  /** Every step keeps the invariant. */
  lemma StepKeeps(procedures: Procedures, h: Host, a: Step)
    requires Inv(h) && Enabled(h, a)
    ensures Inv(Next(procedures, h, a))
  {
    hide MessagesInv, MapsInv, Connect, Disconnect, FlushOut, Received, Terminate, YieldLater, NextCalling;
    hide NextHandling;
    hide MayReceive;
    if Calling(a) {
      CallingKeeps(h, a);
    } else if Handling(a) {
      HandlingKeeps(h, a);
    } else {
      match a
      case ConnectWire(cfg, moduleStyle, max) => ConnectKeeps(h, cfg, moduleStyle, max);
      case DropWire(w, order) => DisconnectKeeps(h, w, order);
      case Flush(w) => FlushOutKeeps(h, w);
      case Receive(w, m, order) => ReceivedKeeps(procedures, h, w, m, order);
      case ReadEof(w, order) => TerminateKeeps(h, w, order);
      case Later(w, call, y) => YieldLaterKeeps(h, w, call, y);
      case LetGo(w, call) => LetGoKeeps(h, Key(call, w));
    }
  }

  function NewHost(w: Width): Host {
    Host(EmptyStore(w), map[], map[], {}, {}, map[])
  }

  lemma NewHostInv(w: Width)
    ensures Inv(NewHost(w))
  {
  }
}
