/** The steps of a host are what the operations of its wires and its interface do to it: the functions that the methods
    of the program are proved to compute. */
module HostCode {
  import opened Types
  import opened Stores
  import opened WireFormat
  import opened Wires
  import opened Hosts
  import opened HostCalls
  import opened HostResponses
  import opened HostSteps
  import opened HostRuns
  import opened HostContents

  /** The store and one wire of `g` are what an operation left; the other wires of `h` are as they were. */
  predicate Leaves<T>(h: Host, g: Host, w: nat, o: Outcome<T>) {
    g.store == o.store && g.wires == h.wires[w := o.wire]
  }

  /** A call has been begun: its frame is queued, and its wire waits for it with a new message. */
  predicate Begun(h: Host, g: Host, w: nat, call: Call, t: Terminator, args: Bytes) {
    && w in h.outbox && w in g.outbox && g.outbox[w] == h.outbox[w] + [Frame(CallFrame, call, t, args)]
    && Awaits(g.wires, w, call, h.store.messageIds.Next())
    && g.owner == h.owner[h.store.messageIds.Next() := Response(w, call)]
  }

  /** Starting a call is the operation, and what that returns is the index of the call that it has begun. */
  lemma StartIsCode(h: Host, w: nat, procedure: nat, args: Bytes)
    requires Inv(h) && w in h.wires
    ensures h.store.Valid()
    ensures var (g, x) := (StartCall(h, w, procedure, args), h.wires[w]);
            var o := StartPartial(h.store, x, procedure, args);
            && Leaves(h, g, w, o)
            && (o.result.Ok? <==> !x.terminated && !x.moduleStyle && args != [])
            && (o.result.Ok? ==> Begun(h, g, w, Call(procedure, o.result.value), None, args))
            && (o.result.Err? ==> g == h)
            && (x.terminated ==> o.result == Err(WireTerminated))
            && (!x.terminated && x.moduleStyle ==> o.result == Err(CallFromModule))
            && (!x.terminated && !x.moduleStyle && args == [] ==> o.result == Err(ZeroLengthInNonTerminating))
  {
    hide MessagesInv, MapsInv, Store.Valid, Store.Push, Encode;
    WireFacts(h, w);
    assert h.wires[w := h.wires[w]] == h.wires;
  }

  lemma ContinueIsCode(h: Host, w: nat, call: Call, args: Bytes)
    requires Inv(h) && w in h.wires
    ensures var (g, x) := (ContinueCall(h, w, call, args), h.wires[w]);
            var o := Continue(h.store, x, call, args);
            && Leaves(h, g, w, o)
            && (o.result.Ok? <==> !x.terminated && !x.moduleStyle && args != [])
            && (o.result.Ok? ==> w in h.outbox && w in g.outbox
                                 && g.outbox[w] == h.outbox[w] + [Frame(CallFrame, call, None, args)])
            && (o.result.Err? ==> g == h)
            && (x.terminated ==> o.result == Err(WireTerminated))
            && (!x.terminated && x.moduleStyle ==> o.result == Err(CallFromModule))
            && (!x.terminated && !x.moduleStyle && args == [] ==> o.result == Err(ZeroLengthInNonTerminating))
  {
    hide MessagesInv, MapsInv, Encode;
    WireFacts(h, w);
    assert h.wires[w := h.wires[w]] == h.wires;
  }

  lemma ToldIsCode(h: Host, w: nat, m: Message)
    requires Inv(h) && w in h.wires
    ensures var (g, x) := (Told(h, w, m), h.wires[w]);
            g.store == h.store && g.wires == h.wires[w := if x.terminated && m.EndOfInput? then x else x.Enqueue(m)]
  {
    hide MessagesInv, MapsInv, Encode;
    WireFacts(h, w);
    assert h.wires[w := h.wires[w]] == h.wires;
  }

  lemma OnceIsCode(h: Host, w: nat, procedure: nat, args: Bytes)
    requires Inv(h) && w in h.wires && CanBegin(h, w, procedure)
    ensures h.store.Valid()
    ensures var (g, x, id) := (CallOnce(h, w, procedure, args), h.wires[w], h.store.messageIds.Next());
            var o := OneShot(h.store, x, procedure, args);
            && Leaves(h, g, w, o)
            && (o.result.Ok? <==> !x.terminated && !x.moduleStyle)
            && (o.result.Ok? ==>
                  && o.result.value == id && g.handles == h.handles + {id} && id in g.owner && g.owner[id].Response?
                  && Begun(h, g, w, g.owner[id].call, Complete, args) && g.owner[id].call.procedure == procedure)
            && (o.result.Err? ==> g == h)
            && (x.terminated ==> o.result == Err(WireTerminated))
            && (!x.terminated && x.moduleStyle ==> o.result == Err(CallFromModule))
  {
    hide MessagesInv, MapsInv, Store.Valid, Store.Push, Encode;
    InvValid(h);
    WireFacts(h, w);
    assert h.wires[w := h.wires[w]] == h.wires;
    if h.wires[w].CanCall().Ok? {
      BeginKeeps(h, w, procedure, Complete, args);
      var y := Begin(h, w, procedure, Complete, args).wires[w].WithHandle(h.store.messageIds.Next(), |h.store.locks|);
      assert h.wires[w := Begin(h, w, procedure, Complete, args).wires[w]][w := y] == h.wires[w := y];
    }
  }

  lemma EndIsCode(h: Host, w: nat, call: Call)
    requires Inv(h) && w in h.wires
    ensures call in h.wires[w].responses ==> h.wires[w].responses[call] in h.store.messages
    ensures var (g, x) := (EndCall(h, w, call), h.wires[w]);
            var o := End(h.store, x, call);
            && Leaves(h, g, w, o)
            && (o.result.Ok? <==> !x.terminated && !x.moduleStyle && call in x.responses)
            && (o.result.Ok? ==>
                  && o.result.value in h.owner && h.owner[o.result.value] == Response(w, call)
                  && Awaits(h.wires, w, call, o.result.value) && g.handles == h.handles + {o.result.value})
            && (!x.terminated && !x.moduleStyle ==>
                  && w in h.outbox && w in g.outbox
                  && g.outbox[w] == h.outbox[w] + [Frame(CallFrame, call, Complete, [])])
            && (x.terminated || x.moduleStyle ==> g == h)
            && (o.result.Err? ==> g.handles == h.handles)
            && (x.terminated ==> o.result == Err(WireTerminated))
            && (!x.terminated && x.moduleStyle ==> o.result == Err(CallFromModule))
            && (!x.terminated && !x.moduleStyle && call !in x.responses ==> o.result == Err(NoResponseBuffer(call)))
  {
    hide MessagesInv, MapsInv, Encode;
    WireFacts(h, w);
    var x := h.wires[w];
    assert h.wires[w := x] == h.wires;
    if call in x.responses {
      AwaitsThere(h, w, call);
      var x1 := x.Enqueue(Frame(CallFrame, call, Complete, []));
      var y := x1.WithHandle(x.responses[call], h.store.messages[x.responses[call]].lock);
      assert h.wires[w := x1][w := y] == h.wires[w := y];
    }
  }

  /** What `start_call` returns is good for the whole call: continuing and ending the call with that index queues frames
      of the same call, and ending it gives a handle on the very message that was set aside when it was begun. */
  lemma StartedCallGoesOn(h: Host, w: nat, procedure: nat, args: Bytes, more: Bytes)
    requires Inv(h) && w in h.wires && (args != [] ==> CanBegin(h, w, procedure)) && more != []
    requires h.store.Valid() && StartPartial(h.store, h.wires[w], procedure, args).result.Ok?
    ensures var call := Call(procedure, StartPartial(h.store, h.wires[w], procedure, args).result.value);
            var (g, id) := (StartCall(h, w, procedure, args), h.store.messageIds.Next());
            && Inv(g) && w in g.wires && w in g.outbox && id !in h.owner
            && var k := ContinueCall(g, w, call, more);
            && Inv(k) && w in k.wires && w in k.outbox
            && k.outbox[w] == g.outbox[w] + [Frame(CallFrame, call, None, more)]
            && call in k.wires[w].responses && k.wires[w].responses[call] == id && id in k.store.messages
            && End(k.store, k.wires[w], call).result == Ok(id)
            && w in EndCall(k, w, call).outbox && id in EndCall(k, w, call).handles
            && EndCall(k, w, call).outbox[w] == k.outbox[w] + [Frame(CallFrame, call, Complete, [])]
  {
    hide MessagesInv, MapsInv, Store.Valid, StartCall, ContinueCall, EndCall, StartPartial, Continue, End;
    var call := Call(procedure, StartPartial(h.store, h.wires[w], procedure, args).result.value);
    var g := StartCall(h, w, procedure, args);
    StartIsCode(h, w, procedure, args);
    StartCallKeeps(h, w, procedure, args);
    StartKeepsStyle(h.store, h.wires[w], procedure, args);
    FreshId(h);
    var k := ContinueCall(g, w, call, more);
    ContinueIsCode(g, w, call, more);
    ContinueCallKeeps(g, w, call, more);
    ContinueKeepsStyle(g.store, g.wires[w], call, more);
    InvValid(k);
    AwaitsThere(k, w, call);
    EndIsCode(k, w, call);
  }

  lemma StartKeepsStyle(s: Store, w: Wire, procedure: nat, args: Bytes)
    requires s.Valid()
    ensures var x := StartPartial(s, w, procedure, args).wire;
            x.terminated == w.terminated && x.moduleStyle == w.moduleStyle
  {
    hide Store.Valid, Encode;
  }

  lemma ContinueKeepsStyle(s: Store, w: Wire, call: Call, args: Bytes)
    ensures var (o, x) := (Continue(s, w, call, args), Continue(s, w, call, args).wire);
            && o.store == s && x.terminated == w.terminated && x.moduleStyle == w.moduleStyle
            && x.responses == w.responses
  {
    hide Encode;
  }

  lemma EnsureBufferIsCode(h: Host, w: nat, call: Call)
    requires h.store.Valid() && w in h.wires
    ensures EnsureBuffer(h, w, call).store == h.store.GetCallBuffer(Key(call, w))
  {
  }

  /** A call frame, at a wire that it concerns. */
  lemma AdmitIsCode(procedures: Procedures, h: Host, w: nat, call: Call, t: Terminator, bytes: Bytes)
    requires Inv(h) && w in h.wires && !h.wires[w].terminated
    requires Key(call, w) in h.store.calls || Room(h)
    requires !OverLimit(h.wires[w], call)
    ensures h.store.Valid()
    ensures Leaves(h, Admit(procedures, h, w, call, t, bytes), w,
                   ReceiveCall(procedures, h.store, h.wires[w], call, t, bytes))
  {
    hide MessagesInv, MapsInv, GathersAt, Store.Valid, Answered, Execute, Consumed, Store.SendMany, AcceptCall;
    hide Store.GetCallBuffer, Store.Push, Replies;
    InvValid(h);
    WireFacts(h, w);
    AdmitKeeps(procedures, h, w, call, bytes);
    var (key, h1) := (Key(call, w), EnsureBuffer(h, w, call));
    EnsureBufferIsCode(h, w, call);
    GetCallBufferKeeps(h.store, key);
    var x := h.wires[w].(ongoing := h.wires[w].ongoing + {call});
    WireFacts(h1, w);
    AcceptCallEffect(procedures, h1.store, x, call, t, bytes);
    GathersThere(h1, key);
    AccumulateCalls(h1, key, bytes);
    var h2 := Accumulate(h1, key, bytes);
    OneChunk(h2.store, key);
    assert h2.wires == h.wires[w := x];
    if t.Complete? {
      var args := h2.store.messages[h2.store.calls[key]].chunks[0];
      var y := Answered(x, call, Execute(procedures, call.procedure, args));
      assert h.wires[w := x][w := y] == h.wires[w := y];
    }
  }

  lemma ReceivedIsCode(procedures: Procedures, h: Host, w: nat, m: Message, order: seq<Call>)
    requires Inv(h) && w in h.wires && !h.wires[w].terminated && MayReceive(h, w, m, order)
    ensures h.store.Valid()
    ensures Leaves(h, Received(procedures, h, w, m, order), w, Handle(procedures, h.store, h.wires[w], m, order))
  {
    hide MessagesInv, MapsInv, Store.Valid, Admit, Respond, AcceptCall, ReceiveResponse;
    InvValid(h);
    assert h.wires[w := h.wires[w]] == h.wires;
    match m
    case Frame(CallFrame, call, t, bytes) =>
      if !OverLimit(h.wires[w], call) {
        AdmitIsCode(procedures, h, w, call, t, bytes);
      }
    case Frame(ResponseFrame, call, t, bytes) => ReceiveResponseEffect(h, w, call, t, bytes);
    case Termination => TerminateEffect(h, w, order);
    case _ =>
  }

  /** A wait that succeeds takes the message away and strikes the handle off the list of its wire, while there is one; a
      wait that fails changes nothing. */
  ghost predicate WaitLeaves(h: Host, g: Host, id: nat)
    requires h.store.Valid() && h.store.Ready(id)
  {
    var (s, r) := h.store.GetRaw(id);
    && id in h.owner && g.store == s
    && (h.owner[id].Finished? ==> h.owner[id].wire in h.wires)
    && g.wires == if r.Ok? && h.owner[id].Finished? then
                    var w := h.owner[id].wire;
                    h.wires[w := h.wires[w].(idle := h.wires[w].idle - {id})]
                  else h.wires
  }

  lemma WaitIsCode(h: Host, id: nat)
    requires Inv(h) && id in h.handles && h.store.Valid() && h.store.Ready(id)
    ensures WaitLeaves(h, WaitFor(h, id), id)
  {
    hide MessagesInv, WireIds, ArgumentsOwned, StreamsKnown, Queued, Store.Valid, Store.Pop;
    HandleOwner(h, id);
  }

  /** Every step but those that call and those that wait does what the code does. */
  lemma StepIsCode(procedures: Procedures, h: Host, a: Step)
    requires Inv(h) && Enabled(h, a) && !Calling(a) && !a.Wait?
    ensures h.store.Valid()
    ensures var g := Next(procedures, h, a);
            match a
            case ConnectWire(cfg, moduleStyle, max) =>
              && g.store == h.store.(wireIds := h.store.wireIds.Taken())
              && g.wires == h.wires[h.store.wireIds.Next() := NewWire(h.store.wireIds.Next(), cfg, moduleStyle, max)]
            case DropWire(w, order) =>
              var (s, x) := MarkTerminated(h.store, h.wires[w], order);
              g.store == s.(wireIds := s.wireIds.Returned(w)) && g.wires == h.wires - {w}
            case Flush(w) =>
              g.store == h.store
              && g.wires == if h.wires[w].terminated then h.wires else h.wires[w := h.wires[w].(queue := [])]
            case Receive(w, m, order) => Leaves(h, g, w, Handle(procedures, h.store, h.wires[w], m, order))
            case ReadEof(w, order) =>
              var (s, x) := MarkTerminated(h.store, h.wires[w], order);
              g.store == s && g.wires == h.wires[w := x]
            case Later(w, c, y) => g.store == h.store && g.wires == h.wires[w := h.wires[w].Yielded(c, y)]
            case LetGo(w, c) => g.store == h.store && g.wires == h.wires
            case Open(id) => g.store == h.store.OpenStream(id) && g.wires == h.wires
            case Close(ch) => g.store == h.store.DropReceiver(ch) && g.wires == h.wires
            case Take(ch, lock, id) => g.store == h.store.Receive(ch, lock, id).0 && g.wires == h.wires
            case StrikeOff(w, id) =>
              g.store == h.store && g.wires == h.wires[w := h.wires[w].(idle := h.wires[w].idle - {id})]
  {
    hide MessagesInv, MapsInv, Store.Valid, Terminate, MarkTerminated, Received, Handle, Encode, MayReceive;
    hide Store.OpenStream, Store.DropReceiver, Store.Receive, Store.CanReceive;
    InvValid(h);
    match a
    case DropWire(w, order) =>
      TerminateEffect(h, w, order);
      assert h.wires[w := MarkTerminated(h.store, h.wires[w], order).1] - {w} == h.wires - {w};
    case Receive(w, m, order) => ReceivedIsCode(procedures, h, w, m, order);
    case ReadEof(w, order) => TerminateEffect(h, w, order);
    case Later(w, c, y) =>
      WireFacts(h, w);
      assert h.wires[w := h.wires[w]] == h.wires;
    case _ =>
  }

  /** Whatever bytes a peer sends: a wire that is not terminated either reads a message from them, and `receive_one` is
      the step of receiving it, or reports an error, and nothing has changed. */
  lemma AnyBytesAreReceived(procedures: Procedures, h: Host, w: nat, input: Bytes, order: seq<Call>)
    requires Inv(h) && h.store.Valid() && w in h.wires && !h.wires[w].terminated && Room(h)
    requires Lists(order, h.wires[w].ongoing)
    ensures var (x, o) := (h.wires[w], ReceiveOne(procedures, h.store, h.wires[w], input, order));
            match Parse(x.cfg, x.moduleStyle, input)
            case Got(m, _) =>
              && Enabled(h, Receive(w, m, order))
              && Leaves(h, Next(procedures, h, Receive(w, m, order)), w, o)
            case _ => o.result.Err? && o.store == h.store && o.wire == x
  {
    hide MessagesInv, MapsInv, Store.Valid, Handle, Received, Next, Parse;
    var x := h.wires[w];
    ModulesReadNoResponses(x.cfg, input);
    match Parse(x.cfg, x.moduleStyle, input)
    case Got(m, _) => StepIsCode(procedures, h, Receive(w, m, order));
    case _ =>
  }

  lemma ModulesReadNoResponses(cfg: Config, input: Bytes)
    ensures var r := Parse(cfg, true, input);
            r.Got? && r.message.Frame? ==> r.message.kind.CallFrame?
  {
  }
}
