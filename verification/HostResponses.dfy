/** A response frame at a host: it extends the one buffer that its wire set aside for the call, and the last one
    finishes it. */
module HostResponses {
  import opened Types
  import opened RoiQueues
  import opened Stores
  import opened WireFormat
  import opened Wires
  import opened Hosts

  function Finish(h: Host, w: nat, call: Call): Host
    requires h.store.Valid() && w in h.wires && call in h.wires[w].responses
    requires h.wires[w].responses[call] in h.store.messages
  {
    var (id, wire) := (h.wires[w].responses[call], h.wires[w]);
    CompleteKeeps(h.store, id);
    var g := Settle(h, id, Finished(w, call))
               .(wires := h.wires[w := wire.(responses := wire.responses - {call})]);
    if h.store.messages[id].sender.Sender? then EndStream(g, id) else g
  }

  function Respond(h: Host, w: nat, call: Call, t: Terminator, bytes: Bytes): Host
    requires h.store.Valid() && w in h.wires
    requires call in h.wires[w].responses ==> h.wires[w].responses[call] in h.store.messages
  {
    if call !in h.wires[w].responses then h
    else
      var id := h.wires[w].responses[call];
      SendManyKeeps(h.store, bytes, id);
      var g := h.(store := h.store.SendMany(bytes, id));
      match t
      case None => g
      case Chunk => g.(store := g.store.TerminateChunk(id))
      case Complete => Finish(g, w, call)
  }

  lemma AwaitsThere(h: Host, w: nat, call: Call)
    requires Inv(h) && w in h.wires && call in h.wires[w].responses
    ensures var id := h.wires[w].responses[call];
            && id in h.store.messages && id in h.owner && h.owner[id] == Response(w, call)
            && h.store.Accepts(id).Ok?
            && (id in h.handles ==> h.store.messages[id].sender.NoSender?)
    ensures h.wires[w].id == w
  {
  }

  /** The code that receives a response does to the store and the wire what `Respond` says. */
  lemma ReceiveResponseEffect(h: Host, w: nat, call: Call, t: Terminator, bytes: Bytes)
    requires Inv(h) && w in h.wires
    ensures call in h.wires[w].responses ==> h.wires[w].responses[call] in h.store.messages
    ensures var (o, g) := (ReceiveResponse(h.store, h.wires[w], call, t, bytes), Respond(h, w, call, t, bytes));
            && g.store == o.store && g.wires == h.wires[w := o.wire]
            && o.result == (if call !in h.wires[w].responses then Err(NoResponseBuffer(call))
                            else Ok(Some(t.Complete?)))
  {
    hide Inv, Store.Valid, Store.SendMany, Store.TerminateMessage, Store.TerminateChunk, Store.FinishStream;
    InvValid(h);
    assert h.wires[w := h.wires[w]] == h.wires;
    if call in h.wires[w].responses {
      AwaitsThere(h, w, call);
      var id := h.wires[w].responses[call];
      var s1 := h.store.SendMany(bytes, id);
      SendManyThere(h.store, bytes, id);
      if t.Complete? {
        TerminateMessageSteps(s1, id);
      }
    }
  }

  lemma SendManyThere(s: Store, bytes: Bytes, id: nat)
    requires s.Valid() && s.Accepts(id).Ok?
    ensures var t := s.SendMany(bytes, id);
            && t.Valid() && t.Accepts(id).Ok? && t.messages[id].sender == s.messages[id].sender
            && t.messages[id].lock == s.messages[id].lock && t.locks == s.locks && t.messageIds == s.messageIds
            && t.messages == s.messages[id := t.messages[id]] && t.calls == s.calls && t.wireIds == s.wireIds
  {
    SendManyKeeps(s, bytes, id);
  }

  lemma TerminateMessageSteps(s: Store, id: nat)
    requires s.Valid() && s.Accepts(id).Ok?
    ensures id in s.messages && s.Complete(id).Valid() && s.Complete(id).messages == s.messages
    ensures s.TerminateMessage(id)
            == if s.messages[id].sender.Sender? then s.Complete(id).FinishStream(id) else s.Complete(id)
  {
    CompleteKeeps(s, id);
  }

  lemma FinishKeeps(h: Host, w: nat, call: Call)
    requires Inv(h) && w in h.wires && call in h.wires[w].responses
    requires h.wires[w].responses[call] in h.store.messages
    ensures Inv(Finish(h, w, call))
  {
    hide Store.Valid, Roi.Accounts, States, Decided, Registered, WaitersFit, ArgumentsOwned, ResponsesOwned;
    hide StreamsKnown, Queued;
    hide Store.FinishStream, WireIds;
    AwaitsThere(h, w, call);
    var (id, wire) := (h.wires[w].responses[call], h.wires[w]);
    var x := wire.(responses := wire.responses - {call});
    SettleKeeps(h, id, Finished(w, call));
    var g0 := Settle(h, id, Finished(w, call));
    WireKeepsMessages(g0, w, x);
    var g := g0.(wires := h.wires[w := x]);
    FinishMaps(h, w, call, x);
    if h.store.messages[id].sender.Sender? {
      SettledLock(h.store, id);
      EndStreamKeeps(g, id);
      FinishStreamEffect(g.store, id);
      NoArgument(g.store.calls, g.owner, id, Orphan);
      NoResponse(g.wires, g.owner, id, Orphan);
    }
  }

  lemma SettledLock(s: Store, id: nat)
    requires s.Valid() && id in s.messages
    ensures s.Complete(id).Valid() && s.Complete(id).LockOf(id).Completed?
  {
    CompleteKeeps(s, id);
  }

  lemma FinishMaps(h: Host, w: nat, call: Call, x: Wire)
    requires MapsInv(h) && w in h.wires && call in h.wires[w].responses
    requires x == h.wires[w].(responses := h.wires[w].responses - {call})
    requires h.wires[w].responses[call] in h.owner && h.owner[h.wires[w].responses[call]].Response?
    requires h.store.Valid() && h.wires[w].responses[call] in h.store.messages
    ensures MapsInv(Settle(h, h.wires[w].responses[call], Finished(w, call)).(wires := h.wires[w := x]))
  {
    hide Store.Valid, Roi.Accounts, ArgumentsOwned, ResponsesOwned, StreamsKnown, Queued, EncodeEach;
    var id := h.wires[w].responses[call];
    NoArgument(h.store.calls, h.owner, id, Finished(w, call));
    ResponseDone(h.wires, h.owner, w, call, x);
    SameQueues(h.wires, h.outbox, w, x);
    assert h.wires[w := x].Keys == h.wires.Keys;
  }

  lemma SameQueues(wires: Wiring, outbox: map<nat, seq<Message>>, w: nat, x: Wire)
    requires Queued(wires, outbox) && w in wires && x.queue == wires[w].queue && x.cfg == wires[w].cfg
    ensures Queued(wires[w := x], outbox)
  {
    assert wires[w := x].Keys == wires.Keys;
  }

  lemma RespondKeeps(h: Host, w: nat, call: Call, t: Terminator, bytes: Bytes)
    requires Inv(h) && w in h.wires
    ensures call in h.wires[w].responses ==> h.wires[w].responses[call] in h.store.messages
    ensures Inv(Respond(h, w, call, t, bytes))
  {
    if call in h.wires[w].responses {
      AwaitsThere(h, w, call);
      var id := h.wires[w].responses[call];
      SendManyThere(h.store, bytes, id);
      var s1 := h.store.SendMany(bytes, id);
      hide Store.Valid, Roi.Accounts, States, Decided, Registered, WaitersFit, ArgumentsOwned, ResponsesOwned;
      hide StreamsKnown;
      hide Queued;
      RewrittenKeeps(h, s1, id);
      var g := h.(store := s1);
      if t.Chunk? {
        TerminateChunkThere(s1, id);
        RewrittenKeeps(g, s1.TerminateChunk(id), id);
      } else if t.Complete? {
        FinishKeeps(g, w, call);
      }
    }
  }

  lemma TerminateChunkThere(s: Store, id: nat)
    requires s.Valid() && s.Accepts(id).Ok?
    ensures var t := s.TerminateChunk(id);
            && t.Valid() && id in t.messages && t.messages[id].sender == s.messages[id].sender
            && t.messages[id].lock == s.messages[id].lock && t.locks == s.locks && t.messageIds == s.messageIds
            && t.messages == s.messages[id := t.messages[id]] && t.calls == s.calls && t.wireIds == s.wireIds
  {
    TerminateChunkKeeps(s, id);
  }
}
