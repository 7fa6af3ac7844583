/** What a step of a host leaves alone: everything that belongs to wires which the step is not about. */
module HostContents {
  import opened Types
  import opened RoiQueues
  import opened Stores
  import opened Chunks
  import opened WireFormat
  import opened Wires
  import opened Hosts
  import opened HostCalls
  import opened HostResponses
  import opened HostSteps
  import opened HostRuns

  // --- Stores ---

  /** Whatever was written to a message has stayed, unless it is `except`. */
  ghost predicate Preserves(s: Store, t: Store, except: set<nat>) {
    && s.Valid() && t.Valid()
    && forall id :: id in s.messages && id in t.messages && id !in except ==> Content(t, id) == Content(s, id)
  }

  lemma PushPreserves(s: Store)
    requires s.Valid() && s.messageIds.Next() !in s.messages
    ensures Preserves(s, s.Push(), {})
  {
    PushKeeps(s);
  }

  lemma PopPreserves(s: Store, id: nat)
    requires s.Valid()
    ensures Preserves(s, s.Pop(id), {})
  {
    Stores.PopKeeps(s, id);
  }

  lemma SendManyPreserves(s: Store, data: Bytes, id: nat)
    requires s.Valid()
    ensures Preserves(s, s.SendMany(data, id), {id})
  {
    SendManyKeeps(s, data, id);
  }

  lemma TerminateChunkPreserves(s: Store, id: nat)
    requires s.Valid()
    ensures Preserves(s, s.TerminateChunk(id), {id})
  {
    TerminateChunkKeeps(s, id);
  }

  lemma CompletePreserves(s: Store, id: nat)
    requires s.Valid() && id in s.messages
    ensures Preserves(s, s.Complete(id), {})
  {
    CompleteKeeps(s, id);
  }

  lemma FinishStreamPreserves(s: Store, id: nat)
    requires s.Valid() && id in s.messages && s.messages[id].sender.Sender? && s.LockOf(id).Completed?
    ensures Preserves(s, s.FinishStream(id), {})
  {
    FinishStreamKeeps(s, id);
  }

  lemma OpenStreamPreserves(s: Store, id: nat)
    requires s.Valid() && id in s.messages && s.messages[id].sender.NoSender?
    ensures Preserves(s, s.OpenStream(id), {})
  {
    OpenStreamContent(s, id);
  }

  /** Locks, the argument map and the wire identifiers have no say in what was written, nor has reading a channel. */
  lemma OthersPreserve(s: Store, t: Store)
    requires s.Valid() && t.Valid() && t.messages == s.messages && |t.channels| == |s.channels|
    requires forall ch :: 0 <= ch < |s.channels| ==>
               t.channels[ch].sent == s.channels[ch].sent && t.channels[ch].kept == s.channels[ch].kept
    ensures Preserves(s, t, {})
  {
  }

  lemma PreservesTwice(s: Store, t: Store, u: Store, except: set<nat>)
    requires Preserves(s, t, except) && Preserves(t, u, except)
    requires u.messages.Keys * s.messages.Keys <= t.messages.Keys + except
    ensures Preserves(s, u, except)
  {
    hide Store.Valid, Content;
    forall id | id in s.messages && id in u.messages && id !in except ensures Content(u, id) == Content(s, id) {
      assert id in u.messages.Keys * s.messages.Keys;
    }
  }

  // --- Hosts ---

  predicate Concerns(o: Owner, w: nat) {
    match o
    case Argument(k) => k.wire == w
    case _ => BelongsTo(o, w)
  }

  /** Whether a call of this wire is known to it, answered, or waited for, is as before. */
  predicate SameCalls(x: Wire, y: Wire) {
    && SameSetup(x, y) && x.terminated == y.terminated && x.counters == y.counters
    && x.responses == y.responses && x.ongoing == y.ongoing
  }

  /** The messages of wire `w`, but for `except`, have the same owners and contents as before, or are gone. */
  ghost predicate Undisturbed(h: Host, g: Host, w: nat, except: set<nat>) {
    && h.store.Valid() && g.store.Valid()
    && forall id :: id in g.owner && id !in except && Concerns(g.owner[id], w) ==>
         && id in h.owner && h.owner[id] == g.owner[id]
         && id in h.store.messages && id in g.store.messages && Content(g.store, id) == Content(h.store, id)
  }

  ghost predicate SameArguments(h: Host, g: Host, w: nat) {
    && (forall c :: Key(c, w) in g.store.calls <==> Key(c, w) in h.store.calls)
    && (forall c :: Key(c, w) in h.store.calls ==> g.store.calls[Key(c, w)] == h.store.calls[Key(c, w)])
    && (forall c :: Key(c, w) in g.streamed ==> Key(c, w) in h.streamed)
  }

  /** Nothing has happened to the calls of wire `w`, in either direction. */
  ghost predicate Elsewhere(h: Host, g: Host, w: nat) {
    && w in h.wires && w in g.wires && SameCalls(h.wires[w], g.wires[w])
    && SameArguments(h, g, w) && Undisturbed(h, g, w, {})
  }

  lemma ElsewhereTwice(h: Host, g: Host, k: Host, w: nat)
    requires Elsewhere(h, g, w) && Elsewhere(g, k, w)
    ensures Elsewhere(h, k, w)
  {
    hide Store.Valid, Content;
  }

  /** At most one message has changed, or come, or gone, and it is none of this wire's. */
  lemma OneElsewhere(h: Host, g: Host, w: nat, id: nat, o: Owner)
    requires Preserves(h.store, g.store, {id}) && h.owner.Keys == h.store.messages.Keys
    requires g.owner.Keys == g.store.messages.Keys
    requires g.owner in {h.owner, h.owner[id := o], h.owner - {id}}
    requires id in h.owner ==> !Concerns(h.owner[id], w)
    requires !Concerns(o, w)
    ensures Undisturbed(h, g, w, {})
  {
    hide Store.Valid, Content;
  }

  /** Every message is as it was, apart from those that are gone. */
  lemma AllElsewhere(h: Host, g: Host, w: nat)
    requires Preserves(h.store, g.store, {}) && h.owner.Keys == h.store.messages.Keys
    requires g.owner.Keys == g.store.messages.Keys
    requires forall id :: id in g.owner ==> id in h.owner && (g.owner[id] == h.owner[id] || !Concerns(g.owner[id], w))
    ensures Undisturbed(h, g, w, {})
  {
    hide Store.Valid, Content;
  }

  // --- Steps of wires ---

  lemma BeginElsewhere(h: Host, v: nat, procedure: nat, t: Terminator, args: Bytes, w: nat)
    requires Inv(h) && v in h.wires && v in h.outbox && CanBegin(h, v, procedure) && h.wires[v].CanCall().Ok?
    requires w in h.wires && v != w
    ensures Elsewhere(h, Begin(h, v, procedure, t, args), w)
  {
    hide MessagesInv, MapsInv, Store.Push, Content, Store.Valid;
    Owned(h);
    BeginKeeps(h, v, procedure, t, args);
    var (g, id) := (Begin(h, v, procedure, t, args), h.store.messageIds.Next());
    Owned(g);
    PushPreserves(h.store);
    PushEffect(h.store);
    OneElsewhere(h, g, w, id, Response(v, h.wires[v].NextCall(procedure)));
  }

  /** A wire sends, flushes, or has a handle come or go: no message is involved. */
  lemma SendingElsewhere(h: Host, g: Host, w: nat)
    requires Inv(h) && w in h.wires && w in g.wires && g.store == h.store && g.owner == h.owner
    requires g.streamed <= h.streamed && SameCalls(h.wires[w], g.wires[w])
    ensures Elsewhere(h, g, w)
  {
    hide MessagesInv, MapsInv;
    Owned(h);
    OthersPreserve(h.store, h.store);
    AllElsewhere(h, g, w);
  }

  lemma CallingElsewhere(h: Host, a: Step, w: nat)
    requires Inv(h) && Enabled(h, a) && Calling(a) && w in h.wires && !((a.Start? || a.Once?) && a.wire == w)
    ensures Elsewhere(h, NextCalling(h, a), w)
  {
    hide MessagesInv, MapsInv, StartCall, CallOnce, EndCall, Elsewhere, Encode, Unclaimed, Store.Valid;
    match a
    case More(v, call, args) => SendingElsewhere(h, ContinueCall(h, v, call, args), w);
    case Finally(v, call) => EndingElsewhere(h, v, call, w);
    case Tell(v, m) => SendingElsewhere(h, Told(h, v, m), w);
    case _ => StartingElsewhere(h, a, w);
  }

  lemma EndingElsewhere(h: Host, v: nat, call: Call, w: nat)
    requires Inv(h) && v in h.wires && w in h.wires
    ensures Elsewhere(h, EndCall(h, v, call), w)
  {
    hide MessagesInv, MapsInv, Elsewhere, Encode, Store.Valid;
    WireFacts(h, v);
    if call in h.wires[v].responses {
      AwaitsThere(h, v, call);
    }
    SendingElsewhere(h, EndCall(h, v, call), w);
  }

  lemma StartingElsewhere(h: Host, a: Step, w: nat)
    requires Inv(h) && Enabled(h, a) && (a.Start? || a.Once?) && w in h.wires && a.wire != w
    ensures Elsewhere(h, NextCalling(h, a), w)
  {
    hide MessagesInv, MapsInv, Begin, Encode, Unclaimed, Store.Push, Store.Valid, Content, Register, Elsewhere;
    WireFacts(h, a.wire);
    if h.wires[a.wire].CanCall().Err? || (a.Start? && a.args == []) {
      SendingElsewhere(h, h, w);
    } else {
      var t := if a.Start? then None else Complete;
      BeginElsewhere(h, a.wire, a.procedure, t, a.args, w);
      BeginKeeps(h, a.wire, a.procedure, t, a.args);
      if a.Once? {
        var g := Begin(h, a.wire, a.procedure, t, a.args);
        BeginWire(h, a.wire, a.procedure, t, a.args);
        RegisterElsewhere(h, g, a.wire, h.store.messageIds.Next(), w);
      }
    }
  }

  lemma RegisterElsewhere(h: Host, g: Host, v: nat, id: nat, w: nat)
    requires Elsewhere(h, g, w) && v in g.wires && v != w && id in g.store.messages
    ensures Elsewhere(h, Register(g, v, id), w)
  {
    hide Store.Valid, Content;
  }

  lemma EnsureBufferElsewhere(h: Host, v: nat, call: Call, w: nat)
    requires Inv(h) && v in h.wires && w in h.wires && v != w && Inv(EnsureBuffer(h, v, call))
    requires Key(call, v) in h.store.calls || Room(h)
    ensures Elsewhere(h, EnsureBuffer(h, v, call), w)
  {
    hide MessagesInv, MapsInv, Store.Push, Content, Store.Valid;
    Owned(h);
    var (g, id, key) := (EnsureBuffer(h, v, call), h.store.messageIds.Next(), Key(call, v));
    Owned(g);
    if key in h.store.calls {
      OthersPreserve(h.store, h.store);
      AllElsewhere(h, g, w);
    } else {
      FreshId(h);
      PushPreserves(h.store);
      PushEffect(h.store);
      CallsPreserve(h.store, h.store.Push(), g.store);
      OneElsewhere(h, g, w, id, Argument(key));
    }
  }

  lemma FreshId(h: Host)
    requires Inv(h) && Room(h)
    ensures h.store.messageIds.Next() !in h.store.messages && h.store.messageIds.Next() !in h.owner
  {
    hide Store.Valid, States, Decided, Registered, WaitersFit, MapsInv, Roi.Accounts;
    TakeKeeps(h.store.messageIds, h.store.messages.Keys);
    Owned(h);
  }

  lemma CallsPreserve(s: Store, t: Store, u: Store)
    requires Preserves(s, t, {}) && u == t.(calls := u.calls)
    ensures Preserves(s, u, {})
  {
  }

  lemma AccumulateElsewhere(h: Host, key: Key, bytes: Bytes, w: nat)
    requires Inv(h) && key in h.store.calls && w in h.wires && key.wire != w
    ensures Elsewhere(h, Accumulate(h, key, bytes), w)
  {
    hide MessagesInv, MapsInv, Content, Store.Valid, Store.SendMany;
    Owned(h);
    AccumulateKeeps(h, key, bytes);
    GathersThere(h, key);
    AccumulateFields(h.store, h.store.calls[key], bytes);
    var g := Accumulate(h, key, bytes);
    Owned(g);
    SendManyPreserves(h.store, bytes, h.store.calls[key]);
    OneElsewhere(h, g, w, h.store.calls[key], Orphan);
  }

  lemma AccumulateFields(s: Store, id: nat, bytes: Bytes)
    requires s.Valid()
    ensures s.SendMany(bytes, id).calls == s.calls
  {
  }

  lemma ConsumeElsewhere(procedures: Procedures, h: Host, key: Key, w: nat)
    requires Inv(h) && key in h.store.calls && w in h.wires && key.wire != w
    requires key.wire in h.wires && !h.wires[key.wire].terminated
    ensures GathersAt(h.store, key) && h.store.messages[h.store.calls[key]].chunks != []
    ensures key.wire in h.outbox
    ensures Elsewhere(h, Consume(procedures, h, key), w)
  {
    hide MessagesInv, MapsInv, Content, Store.Valid, Consumed, Answered, Execute, Replies, GathersAt;
    Owned(h);
    GathersThere(h, key);
    OneChunk(h.store, key);
    ConsumeKeeps(procedures, h, key);
    var (g, id) := (Consume(procedures, h, key), h.store.calls[key]);
    Owned(g);
    var ex := Execute(procedures, key.call.procedure, h.store.messages[id].chunks[0]);
    ConsumedPreserves(h.store, key, ex.kept);
    OneElsewhere(h, g, w, id, Orphan);
  }

  lemma ConsumedPreserves(s: Store, key: Key, kept: bool)
    requires s.Valid() && GathersAt(s, key)
    ensures Consumed(s, key, kept).calls == s.calls - {key}
    ensures Preserves(s, Consumed(s, key, kept), {s.calls[key]})
  {
    hide Content;
    var id := s.calls[key];
    CompletePreserves(s, id);
    var t := s.Complete(id).(calls := s.calls - {key});
    CallsAreFree(s.Complete(id), s.calls - {key});
    CallsPreserve(s, s.Complete(id), t);
    PopPreserves(t, id);
    PreservesTwice(s, t, t.Pop(id), {id});
  }

  lemma AdmitElsewhere(procedures: Procedures, h: Host, v: nat, call: Call, t: Terminator, bytes: Bytes, w: nat)
    requires Inv(h) && v in h.wires && !h.wires[v].terminated
    requires Key(call, v) in h.store.calls || Room(h)
    requires w in h.wires && v != w
    ensures Elsewhere(h, Admit(procedures, h, v, call, t, bytes), w)
  {
    hide MessagesInv, MapsInv, Elsewhere, EnsureBuffer, Accumulate, Consume, GathersAt;
    var key := Key(call, v);
    AdmitKeeps(procedures, h, v, call, bytes);
    InvValid(h);
    var h1 := EnsureBuffer(h, v, call);
    EnsureBufferElsewhere(h, v, call, w);
    ElsewhereThere(h, h1, w);
    InvValid(h1);
    var h2 := Accumulate(h1, key, bytes);
    AccumulateElsewhere(h1, key, bytes, w);
    ElsewhereThere(h1, h2, w);
    ElsewhereTwice(h, h1, h2, w);
    if t.Complete? {
      InvValid(h2);
      AccumulateCalls(h1, key, bytes);
      EnsureBufferThere(h, v, call);
      OneChunk(h2.store, key);
      ConsumeElsewhere(procedures, h2, key, w);
      ElsewhereTwice(h, h2, Consume(procedures, h2, key), w);
    }
  }

  lemma ElsewhereThere(h: Host, g: Host, w: nat)
    requires Elsewhere(h, g, w)
    ensures w in h.wires && w in g.wires && SameCalls(h.wires[w], g.wires[w])
  {
  }

  lemma RespondElsewhere(h: Host, v: nat, call: Call, t: Terminator, bytes: Bytes, w: nat)
    requires Inv(h) && v in h.wires && w in h.wires && v != w
    requires call in h.wires[v].responses ==> h.wires[v].responses[call] in h.store.messages
    ensures Elsewhere(h, Respond(h, v, call, t, bytes), w)
  {
    hide MessagesInv, MapsInv, Content, Store.Valid, Respond;
    Owned(h);
    var g := Respond(h, v, call, t, bytes);
    RespondKeeps(h, v, call, t, bytes);
    Owned(g);
    RespondShape(h, v, call, t, bytes);
    if call in h.wires[v].responses {
      AwaitsThere(h, v, call);
      OneElsewhere(h, g, w, h.wires[v].responses[call], Finished(v, call));
    } else {
      SendingElsewhere(h, g, w);
    }
  }

  /** A response frame touches one wire's entry for the call and the message behind it. */
  lemma RespondShape(h: Host, v: nat, call: Call, t: Terminator, bytes: Bytes)
    requires Inv(h) && v in h.wires
    ensures call in h.wires[v].responses ==> h.wires[v].responses[call] in h.store.messages
    ensures var g := Respond(h, v, call, t, bytes);
            && g.streamed == h.streamed && g.handles == h.handles && g.outbox == h.outbox
            && g.store.calls == h.store.calls
            && if call !in h.wires[v].responses then g == h
               else
                 var (id, wire) := (h.wires[v].responses[call], h.wires[v]);
                 && Preserves(h.store, g.store, {id})
                 && g.wires == h.wires[v := if t.Complete? then wire.(responses := wire.responses - {call}) else wire]
                 && g.owner == if !t.Complete? then h.owner
                               else if id in g.store.messages then h.owner[id := Finished(v, call)]
                               else h.owner - {id}
  {
    hide MessagesInv, MapsInv, Content, Store.Valid, Store.SendMany, Store.TerminateChunk, Store.FinishStream;
    InvValid(h);
    if call in h.wires[v].responses {
      AwaitsThere(h, v, call);
      var (id, s1) := (h.wires[v].responses[call], h.store.SendMany(bytes, h.wires[v].responses[call]));
      SendManyThere(h.store, bytes, id);
      SendManyPreserves(h.store, bytes, id);
      match t {
        case None => SameWires(h.wires, v);
        case Chunk =>
          SameWires(h.wires, v);
          TerminateChunkThere(s1, id);
          TerminateChunkPreserves(s1, id);
          PreservesTwice(h.store, s1, s1.TerminateChunk(id), {id});
        case Complete =>
          AcceptedThere(s1, id);
          FinishShape(h.(store := s1), v, call);
          FinishedOwner(h.owner, id, Finished(v, call));
          PreservesTwice(h.store, s1, Finish(h.(store := s1), v, call).store, {id});
      }
    }
  }

  lemma AcceptedThere(s: Store, id: nat)
    requires s.Valid() && s.Accepts(id).Ok?
    ensures id in s.messages
  {
  }

  lemma SameWires(wires: Wiring, v: nat)
    requires v in wires
    ensures wires[v := wires[v]] == wires
  {
  }

  lemma FinishedOwner(owner: Owners, id: nat, o: Owner)
    ensures owner[id := o] - {id} == owner - {id}
  {
  }

  lemma FinishShape(h: Host, v: nat, call: Call)
    requires h.store.Valid() && v in h.wires && call in h.wires[v].responses
    requires h.wires[v].responses[call] in h.store.messages
    ensures var (g, id, wire) := (Finish(h, v, call), h.wires[v].responses[call], h.wires[v]);
            && g.streamed == h.streamed && g.handles == h.handles && g.outbox == h.outbox
            && g.store.calls == h.store.calls && g.store.messages.Keys <= h.store.messages.Keys
            && g.wires == h.wires[v := wire.(responses := wire.responses - {call})]
            && g.owner == (if id in g.store.messages then h.owner[id := Finished(v, call)]
                           else h.owner[id := Finished(v, call)] - {id})
            && Preserves(h.store, g.store, {id})
  {
    hide Content, Store.Valid, Store.FinishStream;
    var id := h.wires[v].responses[call];
    SettledLock(h.store, id);
    CompletePreserves(h.store, id);
    CompleteMessages(h.store, id);
    if h.store.messages[id].sender.Sender? {
      FinishStreamPreserves(h.store.Complete(id), id);
      FinishStreamEffect(h.store.Complete(id), id);
      PreservesTwice(h.store, h.store.Complete(id), h.store.Complete(id).FinishStream(id), {});
    }
  }

  lemma CompleteMessages(s: Store, id: nat)
    requires s.Valid() && id in s.messages
    ensures s.Complete(id).messages == s.messages && s.Complete(id).calls == s.calls
  {
  }

  // --- Termination ---

  lemma {:induction false} DropArgumentsShape(h: Host, v: nat, order: seq<Call>)
    requires Inv(h)
    ensures var g := DropArguments(h, v, order);
            && Preserves(h.store, g.store, {})
            && (forall k: Key :: k in g.store.calls <==> k in h.store.calls && !(k.wire == v && k.call in order))
            && (forall k :: k in g.store.calls ==> g.store.calls[k] == h.store.calls[k])
            && g.owner.Keys <= h.owner.Keys && (forall id :: id in g.owner ==> g.owner[id] == h.owner[id])
            && (forall id :: id in h.owner && !h.owner[id].Argument? ==> id in g.owner)
    decreases |order|
  {
    hide Inv, Content, Store.Valid;
    Owned(h);
    if order == [] {
      OthersPreserve(h.store, h.store);
    } else {
      var key := Key(order[0], v);
      var g := DropArgument(h, key);
      DropArgumentKeeps(h, key);
      DropArgumentShape(h, key);
      Owned(g);
      DropArgumentsShape(g, v, order[1..]);
      var k := DropArguments(g, v, order[1..]);
      DropArgumentsKeep(g, v, order[1..]);
      Owned(k);
      PreservesTwice(h.store, g.store, k.store, {});
    }
  }

  lemma DropArgumentShape(h: Host, key: Key)
    requires Inv(h)
    ensures h.store.Valid()
    ensures var g := DropArgument(h, key);
            && Preserves(h.store, g.store, {})
            && g.store.calls == h.store.calls - {key}
            && g.owner.Keys <= h.owner.Keys && (forall id :: id in g.owner ==> g.owner[id] == h.owner[id])
            && (forall id :: id in h.owner && !h.owner[id].Argument? ==> id in g.owner)
  {
    hide MessagesInv, MapsInv, Content, Store.Valid, Store.Pop;
    Owned(h);
    if key in h.store.calls {
      GathersThere(h, key);
      var id := h.store.calls[key];
      PopEffect(h.store, id);
      PopPreserves(h.store, id);
      CallsAreFree(h.store.Pop(id), h.store.calls - {key});
      CallsPreserve(h.store, h.store.Pop(id), DropArgument(h, key).store);
    } else {
      OthersPreserve(h.store, h.store);
      assert h.store.calls - {key} == h.store.calls;
    }
  }

  lemma PoisonPreserves(s: Store, locks: set<nat>)
    requires s.Valid()
    ensures Preserves(s, PoisonAll(s, locks), {})
  {
    PoisonAllKeeps(s, locks);
    OthersPreserve(s, PoisonAll(s, locks));
  }

  /** Termination drops the argument buffers of the wire's ongoing calls and no others, and keeps what was written. */
  lemma TerminateShape(h: Host, v: nat, order: seq<Call>)
    requires Inv(h) && v in h.wires && Lists(order, h.wires[v].ongoing)
    ensures h.store.Valid()
    ensures var g := Terminate(h, v, order);
            && Preserves(h.store, g.store, {})
            && g.streamed == h.streamed && g.handles == h.handles && g.outbox == h.outbox
            && (forall k :: k in g.store.calls <==>
                  k in h.store.calls && !(k.wire == v && k.call in h.wires[v].ongoing))
            && (forall k :: k in g.store.calls ==> g.store.calls[k] == h.store.calls[k])
            && g.wires == h.wires[v := h.wires[v].(terminated := true)]
            && g.owner.Keys <= h.owner.Keys && (forall id :: id in g.owner ==> g.owner[id] == h.owner[id])
            && (forall id :: id in h.owner && !h.owner[id].Argument? ==> id in g.owner)
  {
    hide MessagesInv, MapsInv, Content, Store.Valid, DropArguments;
    Owned(h);
    var g := DropArguments(h, v, order);
    DropArgumentsShape(h, v, order);
    DropArgumentsKeep(h, v, order);
    Owned(g);
    PoisonPreserves(g.store, g.wires[v].idle.Values);
    PreservesTwice(h.store, g.store, PoisonAll(g.store, g.wires[v].idle.Values), {});
  }

  lemma TerminateElsewhere(h: Host, v: nat, order: seq<Call>, w: nat)
    requires Inv(h) && v in h.wires && Lists(order, h.wires[v].ongoing) && w in h.wires && v != w
    ensures h.store.Valid()
    ensures Elsewhere(h, Terminate(h, v, order), w)
  {
    hide MessagesInv, MapsInv, Content, Store.Valid, Terminate;
    Owned(h);
    var g := Terminate(h, v, order);
    TerminateKeeps(h, v, order);
    Owned(g);
    TerminateShape(h, v, order);
    AllElsewhere(h, g, w);
  }

  lemma DetachElsewhere(h: Host, v: nat, w: nat)
    requires Inv(h) && Inv(Detach(h, v)) && w in h.wires && v != w
    ensures Elsewhere(h, Detach(h, v), w)
  {
    hide MessagesInv, MapsInv, Content, Store.Valid;
    var g := Detach(h, v);
    Owned(h);
    Owned(g);
    OthersPreserve(h.store, g.store);
    AllElsewhere(h, g, w);
  }

  lemma ConnectElsewhere(h: Host, cfg: Config, moduleStyle: bool, max: nat, w: nat)
    requires Inv(h) && w in h.wires && |h.wires| < h.store.wireIds.limit
    ensures Elsewhere(h, Connect(h, cfg, moduleStyle, max), w)
  {
    hide MessagesInv, MapsInv, Content, Store.Valid;
    var g := Connect(h, cfg, moduleStyle, max);
    ConnectKeeps(h, cfg, moduleStyle, max);
    Owned(h);
    Owned(g);
    OthersPreserve(h.store, g.store);
    AllElsewhere(h, g, w);
  }

  // --- Handles and channels ---

  lemma WaitElsewhere(h: Host, id: nat, w: nat)
    requires Inv(h) && id in h.handles && h.store.Ready(id) && w in h.wires
    ensures Elsewhere(h, WaitFor(h, id), w)
  {
    hide MessagesInv, MapsInv, Content, Store.Valid, Store.Pop;
    HandleOwner(h, id);
    var g := WaitFor(h, id);
    WaitForKeeps(h, id);
    Owned(h);
    Owned(g);
    PopPreserves(h.store, id);
    OthersPreserve(h.store, h.store);
    PopEffect(h.store, id);
    AllElsewhere(h, g, w);
  }

  lemma OpenElsewhere(h: Host, id: nat, w: nat)
    requires Inv(h) && id in h.handles && id in h.store.messages && w in h.wires
    ensures Elsewhere(h, Listened(h, id), w)
  {
    hide MessagesInv, MapsInv, Content, Store.Valid, Store.OpenStream;
    HandleOwner(h, id);
    var g := Listened(h, id);
    StreamKeeps(h, id);
    Owned(h);
    Owned(g);
    OpenStreamPreserves(h.store, id);
    OpenStreamEffect(h.store, id);
    AllElsewhere(h, g, w);
  }

  lemma HandlingElsewhere(h: Host, a: Step, w: nat)
    requires Inv(h) && Enabled(h, a) && Handling(a) && w in h.wires
    ensures Elsewhere(h, NextHandling(h, a), w)
  {
    hide MessagesInv, MapsInv, Content, Store.Valid, WaitFor, Listened, Store.Receive, Store.DropReceiver;
    hide Store.CanReceive, Elsewhere;
    Owned(h);
    match a
    case Wait(id) => WaitElsewhere(h, id, w);
    case Open(id) => OpenElsewhere(h, id, w);
    case Close(ch) =>
      HandlingKeeps(h, a);
      DropReceiverOnly(h.store, ch);
      DropReceiverSent(h.store, ch);
      ChannelsElsewhere(h, h.store.DropReceiver(ch), w);
    case Take(ch, lock, id) =>
      HandlingKeeps(h, a);
      ReceiveKeeps(h.store, ch, lock, id);
      ReceiveSent(h.store, ch, lock, id);
      ChannelsElsewhere(h, h.store.Receive(ch, lock, id).0, w);
    case StrikeOff(_, _) => SendingElsewhere(h, NextHandling(h, a), w);
  }

  lemma ChannelsElsewhere(h: Host, t: Store, w: nat)
    requires Inv(h) && Inv(h.(store := t)) && w in h.wires && t == h.store.(channels := t.channels)
    requires |t.channels| == |h.store.channels|
    requires forall i :: 0 <= i < |t.channels| ==>
               t.channels[i].sent == h.store.channels[i].sent && t.channels[i].kept == h.store.channels[i].kept
    ensures Elsewhere(h, h.(store := t), w)
  {
    hide MessagesInv, MapsInv, Content, Store.Valid;
    Owned(h);
    Owned(h.(store := t));
    OthersPreserve(h.store, t);
    AllElsewhere(h, h.(store := t), w);
  }

  lemma DropReceiverSent(s: Store, ch: nat)
    requires s.Valid() && ch < |s.channels|
    ensures var t := s.DropReceiver(ch);
            && |t.channels| == |s.channels|
            && forall i :: 0 <= i < |s.channels| ==>
                 t.channels[i].sent == s.channels[i].sent && t.channels[i].kept == s.channels[i].kept
  {
  }

  lemma ReceiveSent(s: Store, ch: nat, lock: nat, id: nat)
    requires s.Valid() && ch < |s.channels| && lock < |s.locks| && s.CanReceive(ch, lock)
    ensures var t := s.Receive(ch, lock, id).0;
            && |t.channels| == |s.channels|
            && forall i :: 0 <= i < |s.channels| ==>
                 t.channels[i].sent == s.channels[i].sent && t.channels[i].kept == s.channels[i].kept
  {
  }

  // --- Any step ---

  /** The wire whose calls a step is about, if it is about any. */
  predicate Touches(a: Step, w: nat) {
    match a
    case DropWire(v, _) => v == w
    case Start(v, _, _) => v == w
    case Once(v, _, _) => v == w
    case Receive(v, _, _) => v == w
    case ReadEof(v, _) => v == w
    case Later(v, _, _) => v == w
    case _ => false
  }

  lemma ReceivedElsewhere(procedures: Procedures, h: Host, v: nat, m: Message, order: seq<Call>, w: nat)
    requires Inv(h) && v in h.wires && !h.wires[v].terminated && MayReceive(h, v, m, order) && w in h.wires && v != w
    ensures Elsewhere(h, Received(procedures, h, v, m, order), w)
  {
    hide MessagesInv, MapsInv, Elsewhere, Admit, Respond, Terminate;
    match m
    case Frame(CallFrame, call, t, bytes) =>
      if OverLimit(h.wires[v], call) {
        SendingElsewhere(h, h, w);
      } else {
        AdmitElsewhere(procedures, h, v, call, t, bytes, w);
      }
    case Frame(ResponseFrame, call, t, bytes) =>
      RespondKeeps(h, v, call, t, bytes);
      RespondElsewhere(h, v, call, t, bytes, w);
    case Termination => TerminateElsewhere(h, v, order, w);
    case _ => SendingElsewhere(h, h, w);
  }

  /** Whatever arrives, is called, dropped or terminated on other wires, and whichever identifiers are recycled
      meanwhile, the calls of this wire keep their buffers and what was written to them. */
  lemma StepElsewhere(procedures: Procedures, h: Host, a: Step, w: nat)
    requires Inv(h) && Enabled(h, a) && w in h.wires && !Touches(a, w)
    ensures Elsewhere(h, Next(procedures, h, a), w)
  {
    hide MessagesInv, MapsInv, Elsewhere, Connect, Detach, Received, Terminate, NextCalling, NextHandling, MayReceive;
    hide Store.Valid, Encode;
    if Calling(a) {
      CallingElsewhere(h, a, w);
    } else if Handling(a) {
      HandlingElsewhere(h, a, w);
    } else {
      InvValid(h);
      match a
      case ConnectWire(cfg, moduleStyle, max) => ConnectElsewhere(h, cfg, moduleStyle, max, w);
      case DropWire(v, order) =>
        TerminateElsewhere(h, v, order, w);
        TerminateKeeps(h, v, order);
        DisconnectKeeps(h, v, order);
        ElsewhereThere(h, Terminate(h, v, order), w);
        DetachElsewhere(Terminate(h, v, order), v, w);
        ElsewhereTwice(h, Terminate(h, v, order), Disconnect(h, v, order), w);
      case Flush(v) => SendingElsewhere(h, FlushOut(h, v), w);
      case Receive(v, m, order) => ReceivedElsewhere(procedures, h, v, m, order, w);
      case ReadEof(v, order) => TerminateElsewhere(h, v, order, w);
      case Later(v, call, y) => SendingElsewhere(h, YieldLater(h, v, call, y), w);
      case LetGo(v, call) => SendingElsewhere(h, LetGoAt(h, Key(call, v)), w);
    }
  }
}
