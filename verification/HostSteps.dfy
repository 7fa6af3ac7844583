/** Everything that can happen at a host, as the code does it, and the invariant of all its runs. */
module HostSteps {
  import opened Types
  import opened RoiQueues
  import opened Stores
  import opened WireFormat
  import opened Wires
  import opened Hosts
  import opened HostCalls
  import opened HostResponses

  // --- Starting calls ---

  /** A call of a wire gets its index, its response buffer and its first frame. */
  function Begin(h: Host, w: nat, procedure: nat, t: Terminator, args: Bytes): Host
    requires h.store.Valid() && w in h.wires && w in h.outbox
  {
    var (wire, id) := (h.wires[w], h.store.messageIds.Next());
    var (call, m) := (wire.NextCall(procedure), Frame(CallFrame, wire.NextCall(procedure), t, args));
    var g := Add(h, Response(w, call));
    g.(wires := h.wires[w := wire.Started(procedure, id).Enqueue(m)],
       outbox := h.outbox[w := h.outbox[w] + [m]])
  }

  lemma BeginKeeps(h: Host, w: nat, procedure: nat, t: Terminator, args: Bytes)
    requires Inv(h) && w in h.wires && w in h.outbox
    requires h.wires[w].NextCall(procedure) !in h.wires[w].responses
    requires |h.store.messages| < h.store.messageIds.limit
    ensures var (g, id) := (Begin(h, w, procedure, t, args), h.store.messageIds.Next());
            && Inv(g) && id !in h.store.messages && id !in h.handles
            && id in g.store.messages && g.store.messages[id] == Fresh(h.store)
            && g.owner[id] == Response(w, h.wires[w].NextCall(procedure))
  {
    hide Store.Valid, Roi.Accounts, States, Decided, Registered, ArgumentsOwned, ResponsesOwned, StreamsKnown, Queued;
    hide Store.Push, EncodeEach, Encode;
    var (wire, id, g) := (h.wires[w], h.store.messageIds.Next(), Begin(h, w, procedure, t, args));
    var call := wire.NextCall(procedure);
    var m := Frame(CallFrame, call, t, args);
    var x := wire.Started(procedure, id).Enqueue(m);
    OwnersLive(h);
    AddKeeps(h, Response(w, call));
    PushEffect(h.store);
    WireKeepsMessages(Add(h, Response(w, call)), w, x);
    SameMessages(Add(h, Response(w, call)).(wires := h.wires[w := x]), g);
    NoArgument(h.store.calls, h.owner, id, Response(w, call));
    ResponseAdded(h.wires, h.owner, w, call, id, x);
    EncodeOne(wire.cfg, m);
    WireQueued(h.wires, h.outbox, w, x, [m]);
    assert h.wires[w := x].Keys == h.wires.Keys;
    InvParts(h, w);
  }

  lemma EncodeOne(cfg: Config, m: Message)
    ensures EncodeEach(cfg, [m]) == [Encode(cfg, m)]
  {
    hide Encode;
  }

  lemma PostKeeps(h: Host, w: nat, m: Message)
    requires Inv(h) && w in h.wires && w in h.outbox
    ensures Inv(Post(h, w, m))
  {
    hide MessagesInv, MapsInv, EncodeEach, Encode;
    var wire := h.wires[w];
    EncodeOne(wire.cfg, m);
    WireSends(h, w, wire.Enqueue(m), [m]);
  }

  /** One more message in a wire's queue. */
  function Post(h: Host, w: nat, m: Message): Host
    requires w in h.wires && w in h.outbox
  {
    h.(wires := h.wires[w := h.wires[w].Enqueue(m)], outbox := h.outbox[w := h.outbox[w] + [m]])
  }

  /** The call handle of an ended call. */
  lemma RegisteredKeeps(h: Host, w: nat, id: nat)
    requires Inv(h) && w in h.wires && !h.wires[w].terminated && id in h.store.messages && id in h.owner
    requires h.owner[id].Response? && h.owner[id].wire == w && h.store.messages[id].sender.NoSender?
    ensures Inv(Register(h, w, id))
  {
    hide MessagesInv, ResponsesOwned, StreamsKnown, Queued, WireIds;
    RegisterKeeps(h, w, id);
    var x := h.wires[w].WithHandle(id, h.store.messages[id].lock);
    RegisterMaps(h, w, x);
  }

  lemma RegisterMaps(h: Host, w: nat, x: Wire)
    requires MapsInv(h) && w in h.wires && x == h.wires[w].(idle := x.idle)
    ensures MapsInv(h.(wires := h.wires[w := x]))
  {
    hide Roi.Accounts, ArgumentsOwned, ResponsesOwned, StreamsKnown, Queued, EncodeEach;
    WireResponses(h.wires, h.owner, w, x);
    SameQueues(h.wires, h.outbox, w, x);
    assert h.wires[w := x].Keys == h.wires.Keys;
  }

  // --- Terminating ---

  function DropArgument(h: Host, key: Key): Host
    requires h.store.Valid()
  {
    if key in h.store.calls then
      h.(store := h.store.DropAssociated(key), owner := h.owner - {h.store.calls[key]})
    else h
  }

  function DropArguments(h: Host, w: nat, order: seq<Call>): (g: Host)
    requires h.store.Valid()
    ensures g.store == DropCalls(h.store, w, order)
    ensures g.wires == h.wires && g.handles == h.handles && g.streamed == h.streamed && g.outbox == h.outbox
    decreases |order|
  {
    if order == [] then h
    else
      DropAssociatedKeeps(h.store, Key(order[0], w));
      DropArguments(DropArgument(h, Key(order[0], w)), w, order[1..])
  }

  lemma DropArgumentKeeps(h: Host, key: Key)
    requires Inv(h)
    ensures Inv(DropArgument(h, key)) && DropArgument(h, key).store.calls == h.store.calls - {key}
  {
    hide Inv;
    InvValid(h);
    if key in h.store.calls {
      DropPresentKeeps(h, key);
    } else {
      assert h.store.calls - {key} == h.store.calls;
    }
  }

  lemma DropPresentKeeps(h: Host, key: Key)
    requires Inv(h) && key in h.store.calls
    ensures Inv(DropArgument(h, key)) && DropArgument(h, key).store.calls == h.store.calls - {key}
  {
    hide Store.Valid, Roi.Accounts, States, Decided, Registered, WaitersFit, ArgumentsOwned, ResponsesOwned, Queued;
    hide Store.Pop, StreamsKnown, WireIds;
    GathersThere(h, key);
    var id := h.store.calls[key];
    RemoveKeeps(h, id);
    PopEffect(h.store, id);
    CallsAreFree(h.store.Pop(id), h.store.calls - {key});
    ArgumentTaken(h.store.calls, h.owner, key);
    NoResponse(h.wires, h.owner, id, Orphan);
  }

  lemma {:induction false} DropArgumentsKeep(h: Host, w: nat, order: seq<Call>)
    requires Inv(h)
    ensures Inv(DropArguments(h, w, order))
    decreases |order|
  {
    hide Inv;
    InvValid(h);
    if order != [] {
      var g := DropArgument(h, Key(order[0], w));
      DropArgumentKeeps(h, Key(order[0], w));
      DropArgumentsKeep(g, w, order[1..]);
      InvValid(g);
    }
  }

  /** `mark_terminated`. */
  function Terminate(h: Host, w: nat, order: seq<Call>): Host
    requires h.store.Valid() && w in h.wires
  {
    Poisoning(DropArguments(h, w, order), w)
  }

  lemma TerminateEffect(h: Host, w: nat, order: seq<Call>)
    requires Inv(h) && w in h.wires
    ensures var (s, x) := MarkTerminated(h.store, h.wires[w], order);
            Terminate(h, w, order).store == s && Terminate(h, w, order).wires == h.wires[w := x]
  {
    InvParts(h, w);
  }

  lemma TerminateKeeps(h: Host, w: nat, order: seq<Call>)
    requires Inv(h) && w in h.wires && Lists(order, h.wires[w].ongoing)
    ensures var g := Terminate(h, w, order);
            Inv(g) && w in g.wires && g.wires[w].terminated
  {
    hide Store.Valid, Roi.Accounts, States, Decided, Registered, WaitersFit, ArgumentsOwned, ResponsesOwned, Queued;
    hide EncodeEach, DropArguments, DropCalls, StreamsKnown;
    var g := DropArguments(h, w, order);
    DropArgumentsKeep(h, w, order);
    var x := g.wires[w].(terminated := true);
    PoisoningKeeps(g, w);
    WireResponses(g.wires, g.owner, w, x);
    SameQueues(g.wires, g.outbox, w, x);
    assert g.wires[w := x].Keys == g.wires.Keys;
  }

  // --- Wires come and go ---

  /** `Drop for Wire`. */
  function Disconnect(h: Host, w: nat, order: seq<Call>): Host
    requires h.store.Valid() && w in h.wires
  {
    Detach(Terminate(h, w, order), w)
  }

  lemma DetachKeepsMaps(h: Host, w: nat)
    requires MapsInv(h) && w in h.wires
    ensures MapsInv(Detach(h, w))
  {
    hide Roi.Accounts, ArgumentsOwned, ResponsesOwned, EncodeEach;
    ReturnKeeps(h.store.wireIds, h.wires.Keys, w);
    assert (h.wires - {w}).Keys == h.wires.Keys - {w};
    DetachMaps(h.wires, h.owner, h.store.calls, w);
  }

  lemma DisconnectKeeps(h: Host, w: nat, order: seq<Call>)
    requires Inv(h) && w in h.wires && Lists(order, h.wires[w].ongoing)
    ensures Inv(Disconnect(h, w, order))
  {
    TerminateKeeps(h, w, order);
    var g := Terminate(h, w, order);
    hide MessagesInv, MapsInv, Terminate, Detach;
    DetachKeepsMessages(g, w);
    DetachKeepsMaps(g, w);
  }

  function Connect(h: Host, cfg: Config, moduleStyle: bool, max: nat): Host {
    var w := h.store.wireIds.Next();
    h.(store := h.store.(wireIds := h.store.wireIds.Taken()),
       wires := h.wires[w := NewWire(w, cfg, moduleStyle, max)],
       outbox := h.outbox[w := []])
  }

  lemma ConnectKeeps(h: Host, cfg: Config, moduleStyle: bool, max: nat)
    requires Inv(h) && |h.wires| < h.store.wireIds.limit
    ensures h.store.wireIds.Next() !in h.wires
    ensures Inv(Connect(h, cfg, moduleStyle, max))
  {
    hide Store.Valid, Roi.Accounts, States, ArgumentsOwned, Decided, Registered, WaitersFit, ResponsesOwned;
    hide Queued;
    var (w, g) := (h.store.wireIds.Next(), Connect(h, cfg, moduleStyle, max));
    TakeKeeps(h.store.wireIds, h.wires.Keys);
    assert g.wires.Keys == h.wires.Keys + {w};
    WireIdsAreFree(h.store, g.store.wireIds);
    ConnectDecided(h.wires, h.store.locks, w, g.wires[w]);
    ConnectRegistered(h.wires, h.store.messages, h.owner, w, g.wires[w]);
    ConnectWaiters(h.wires, h.store.messages, h.store.locks, h.owner, h.handles, w, g.wires[w]);
    ConnectMaps(h.wires, h.owner, h.outbox, w, g.wires[w]);
  }

  lemma WireIdsAreFree(s: Store, q: Roi)
    requires s.Valid()
    ensures s.(wireIds := q).Valid()
  {
  }

  lemma ConnectDecided(wires: Wiring, locks: seq<LockState>, w: nat, x: Wire)
    requires Decided(wires, locks) && x.idle == map[]
    ensures Decided(wires[w := x], locks)
  {
  }

  lemma ConnectRegistered(wires: Wiring, messages: Messages, owner: Owners, w: nat, x: Wire)
    requires Registered(wires, messages, owner) && x.idle == map[]
    ensures Registered(wires[w := x], messages, owner)
  {
  }

  lemma ConnectWaiters(wires: Wiring, messages: Messages, locks: seq<LockState>, owner: Owners, handles: set<nat>,
                       w: nat, x: Wire)
    requires WaitersFit(wires, messages, locks, owner, handles) && w !in wires
    ensures WaitersFit(wires[w := x], messages, locks, owner, handles)
  {
  }

  lemma ConnectMaps(wires: Wiring, owner: Owners, outbox: map<nat, seq<Message>>, w: nat, x: Wire)
    requires ResponsesOwned(wires, owner) && Queued(wires, outbox) && w !in wires
    requires x.responses == map[] && x.queue == []
    ensures ResponsesOwned(wires[w := x], owner) && Queued(wires[w := x], outbox[w := []])
  {
    assert EncodeEach(x.cfg, []) == [];
  }

  // --- Streaming procedures ---

  /** A streaming closure yields, now or later. */
  function YieldAt(h: Host, w: nat, call: Call, y: Yield): Host
    requires w in h.wires && w in h.outbox
  {
    if h.wires[w].terminated then h
    else
      h.(wires := h.wires[w := h.wires[w].Yielded(call, y)],
         streamed := h.streamed - if y.terminator.Complete? then {Key(call, w)} else {},
         outbox := h.outbox[w := h.outbox[w] + [Frame(ResponseFrame, call, y.terminator, y.bytes)]])
  }

  lemma YieldKeeps(h: Host, w: nat, call: Call, y: Yield)
    requires Inv(h) && w in h.wires && w in h.outbox
    ensures Inv(YieldAt(h, w, call, y))
  {
    hide Store.Valid, Roi.Accounts, States, Decided, Registered, WaitersFit, ArgumentsOwned, ResponsesOwned, Queued;
    hide EncodeEach, Encode;
    var m := Frame(ResponseFrame, call, y.terminator, y.bytes);
    var (wire, x) := (h.wires[w], h.wires[w].Yielded(call, y));
    if !wire.terminated {
      EncodeOne(wire.cfg, m);
      WireKeepsMessages(h, w, x);
      WireResponses(h.wires, h.owner, w, x);
      WireQueued(h.wires, h.outbox, w, x, [m]);
      assert h.wires[w := x].Keys == h.wires.Keys;
    }
  }

  /** A streaming closure lets its yielder go without having completed its response. */
  function LetGoAt(h: Host, key: Key): Host {
    h.(streamed := h.streamed - {key})
  }

  lemma LetGoKeeps(h: Host, key: Key)
    requires Inv(h)
    ensures Inv(LetGoAt(h, key))
  {
    hide Store.Valid, Roi.Accounts, States, Decided, Registered, WaitersFit, ArgumentsOwned, ResponsesOwned, Queued;
    hide WireIds;
  }

  // --- Flushing ---

  function Flushed(h: Host, w: nat): Host
    requires w in h.wires && w in h.outbox
  {
    if h.wires[w].terminated then h
    else h.(wires := h.wires[w := h.wires[w].(queue := [])], outbox := h.outbox[w := []])
  }

  lemma FlushKeeps(h: Host, w: nat)
    requires Inv(h) && w in h.wires && w in h.outbox
    ensures Inv(Flushed(h, w))
  {
    hide Store.Valid, Roi.Accounts, States, Decided, Registered, WaitersFit, ArgumentsOwned, ResponsesOwned;
    hide StreamsKnown;
    hide Encode;
    var x := h.wires[w].(queue := []);
    if !h.wires[w].terminated {
      WireKeepsMessages(h, w, x);
      WireResponses(h.wires, h.owner, w, x);
        assert EncodeEach(x.cfg, []) == [];
      assert h.wires[w := x].Keys == h.wires.Keys;
    }
  }

  // --- Handles ---

  /** `wait_bytes` on a handle whose lock is decided. A success strikes the handle off its wire's list. */
  function Waited(h: Host, id: nat): Host
    requires h.store.Valid() && h.store.Ready(id) && id in h.owner
  {
    var (s, r) := h.store.GetRaw(id);
    var g := h.(store := s, handles := h.handles - {id});
    if r.Err? then g
    else
      var o := h.owner[id];
      var g1 := g.(owner := h.owner - {id});
      if o.Finished? && o.wire in h.wires then Unregister(g1, o.wire, id) else g1
  }

  lemma FewerHandles(h: Host, id: nat)
    requires Inv(h)
    ensures Inv(h.(handles := h.handles - {id}))
  {
    hide Store.Valid, Roi.Accounts, States, Decided, Registered, ArgumentsOwned, ResponsesOwned, StreamsKnown, Queued;
  }

  lemma WaitKeeps(h: Host, id: nat)
    requires Inv(h) && id in h.handles && h.store.Ready(id)
    ensures id in h.owner && Inv(Waited(h, id))
  {
    hide Store.Valid, Roi.Accounts, States, Decided, Registered, WaitersFit, ArgumentsOwned, ResponsesOwned;
    hide StreamsKnown;
    hide Queued, Store.Pop, WireIds;
    HandleOwner(h, id);
    FewerHandles(h, id);
    if !h.store.LockOf(id).Poisoned? {
      WaitedKeeps(h, id);
    }
  }

  /** A wait that succeeds. */
  lemma WaitedKeeps(h: Host, id: nat)
    requires Inv(h) && id in h.handles && h.store.Ready(id) && !h.store.LockOf(id).Poisoned? && id in h.owner
    ensures Inv(Waited(h, id))
  {
    hide Store.Valid, Roi.Accounts, States, Decided, Registered, WaitersFit, ArgumentsOwned, ResponsesOwned;
    hide StreamsKnown;
    hide Queued, Store.Pop, WireIds;
    HandleOwner(h, id);
    FewerHandles(h, id);
    var (o, g) := (h.owner[id], h.(handles := h.handles - {id}));
    RemoveKeeps(g, id);
    PopEffect(h.store, id);
    NoArgument(h.store.calls, h.owner, id, Orphan);
    NoResponse(h.wires, h.owner, id, Orphan);
    var g1 := Remove(g, id);
    if o.Finished? && o.wire in h.wires {
      UnregisterKeeps(g1, o.wire, id);
      RegisterMaps(g1, o.wire, g1.wires[o.wire].(idle := g1.wires[o.wire].idle - {id}));
    }
  }

  /** What a handle waits for is completed, poisoned, or still to come from its wire. */
  lemma HandleOwner(h: Host, id: nat)
    requires Inv(h) && id in h.handles
    ensures id in h.owner && id in h.store.messages && h.store.messages[id].sender.NoSender?
    ensures !h.owner[id].Argument?
    ensures h.store.LockOf(id).Completed? ==> !h.owner[id].Response?
    ensures h.owner[id].Response? ==>
              RegisteredAs(h.wires, h.owner[id].wire, id, h.store.messages[id].lock)
    ensures h.store.LockOf(id).Incomplete? ==> h.owner[id].Response?
  {
  }

  /** A handle becomes a stream, before the message is complete. */
  function Streamed(h: Host, id: nat): Host
    requires h.store.Valid() && id in h.store.messages
  {
    h.(store := h.store.OpenStream(id), handles := h.handles - {id})
  }

  lemma StreamKeeps(h: Host, id: nat)
    requires Inv(h) && id in h.handles && id in h.store.messages
    ensures Inv(Streamed(h, id))
  {
    hide Store.Valid, Roi.Accounts, States, Decided, Registered, WaitersFit, ArgumentsOwned, ResponsesOwned;
    hide StreamsKnown;
    hide WireIds, Queued, Store.OpenStream;
    HandleOwner(h, id);
    OpenStreamKeeps(h.store, id);
    OpenStreamEffect(h.store, id);
    OpenedKeeps(h, h.store.OpenStream(id), id);
  }

  lemma OpenStreamEffect(s: Store, id: nat)
    requires s.Valid() && id in s.messages
    ensures var t := s.OpenStream(id);
            && t.calls == s.calls && t.wireIds == s.wireIds && t.locks == s.locks && t.messageIds == s.messageIds
            && id in t.messages && t.messages == s.messages[id := t.messages[id]]
            && t.messages[id].lock == s.messages[id].lock
  {
  }

  /** Receivers take chunks or are dropped: only channels change. */
  lemma ChannelsKeep(h: Host, t: Store)
    requires Inv(h) && t.Valid() && t == h.store.(channels := t.channels)
    ensures Inv(h.(store := t))
  {
    hide Store.Valid, Roi.Accounts, States, Decided, Registered, WaitersFit, ArgumentsOwned, ResponsesOwned;
    hide StreamsKnown;
  }

  lemma DropReceiverKeeps(s: Store, ch: nat)
    requires s.Valid() && ch < |s.channels|
    ensures s.DropReceiver(ch).Valid()
  {
  }

  lemma ReceiveKeeps(s: Store, ch: nat, lock: nat, id: nat)
    requires s.Valid() && ch < |s.channels| && lock < |s.locks| && s.CanReceive(ch, lock)
    ensures var t := s.Receive(ch, lock, id).0; t.Valid() && t == s.(channels := t.channels)
  {
  }

  lemma StruckOffKeeps(h: Host, w: nat, id: nat)
    requires Inv(h) && w in h.wires
    requires WaitedOn(h.store.messages, h.handles, id) ==>
               id in h.owner && !(h.owner[id].Response? && h.owner[id].wire == w)
    ensures Inv(Unregister(h, w, id))
  {
    hide Store.Valid, Roi.Accounts, States, Decided, Registered, WaitersFit, ArgumentsOwned, ResponsesOwned;
    hide StreamsKnown;
    UnregisterKeeps(h, w, id);
    RegisterMaps(h, w, h.wires[w].(idle := h.wires[w].idle - {id}));
  }
}
