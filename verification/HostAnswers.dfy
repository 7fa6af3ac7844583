/** What has been settled stays: whatever else happens at a host, a response that is complete, or that a failed call or
    a dropped wire has left, is kept as it is until somebody waits for it. */
module HostAnswers {
  import opened Types
  import opened RoiQueues
  import opened Stores
  import opened Chunks
  import opened WireFormat
  import opened Wires
  import opened Hosts
  import opened HostCalls
  import opened HostResponses
  import opened HostSteps
  import opened HostRuns
  import opened HostContents
  import opened HostTheorems

  predicate Settled(o: Owner) {
    o.Finished? || o.Orphan? || o.Detached?
  }

  /** The message is live before and after, and says what it said. */
  ghost predicate SameContent(h: Host, g: Host, id: nat) {
    && h.store.Valid() && g.store.Valid() && id in h.store.messages && id in g.store.messages
    && Content(g.store, id) == Content(h.store, id)
  }

  ghost predicate Kept(h: Host, g: Host, id: nat) {
    SameContent(h, g, id) && id in h.owner && id in g.owner && g.owner[id] == h.owner[id]
  }

  lemma KeptTwice(h: Host, g: Host, k: Host, id: nat)
    requires Kept(h, g, id) && Kept(g, k, id)
    ensures Kept(h, k, id)
  {
    hide Store.Valid, Content;
  }

  /** At most one message has changed, or come, or gone, and it is another one. */
  lemma OneKept(h: Host, g: Host, id: nat, x: nat, o: Owner)
    requires Preserves(h.store, g.store, {x}) && h.owner.Keys == h.store.messages.Keys
    requires g.owner.Keys == g.store.messages.Keys && id in h.owner && id != x
    requires g.owner in {h.owner, h.owner[x := o], h.owner - {x}}
    ensures Kept(h, g, id)
  {
    hide Store.Valid, Content;
  }

  /** Nothing was written, and the owner is the same. */
  lemma AllKept(h: Host, g: Host, id: nat)
    requires Preserves(h.store, g.store, {}) && h.owner.Keys == h.store.messages.Keys
    requires g.owner.Keys == g.store.messages.Keys && id in h.owner && id in g.owner && g.owner[id] == h.owner[id]
    ensures Kept(h, g, id)
  {
    hide Store.Valid, Content;
  }

  lemma CallingKept(h: Host, a: Step, id: nat)
    requires Inv(h) && Enabled(h, a) && Calling(a) && id in h.owner
    ensures Kept(h, NextCalling(h, a), id)
  {
    hide MessagesInv, MapsInv, Store.Valid, Store.Push, Content, Encode, Unclaimed, CanBegin;
    var g := NextCalling(h, a);
    WireFacts(h, a.wire);
    CallingKeeps(h, a);
    Owned(h);
    Owned(g);
    OthersPreserve(h.store, h.store);
    if (a.Start? || a.Once?) && h.wires[a.wire].CanCall().Ok? && (a.Start? ==> a.args != []) {
      BeginningKept(h, a, id);
    } else {
      AllKept(h, g, id);
    }
  }

  lemma BeginningKept(h: Host, a: Step, id: nat)
    requires Inv(h) && Enabled(h, a) && (a.Start? || a.Once?) && id in h.owner
    requires h.wires[a.wire].CanCall().Ok? && (a.Start? ==> a.args != [])
    ensures Kept(h, NextCalling(h, a), id)
  {
    hide MessagesInv, MapsInv, Store.Valid, Store.Push, Content, Encode;
    var (g, x) := (NextCalling(h, a), h.store.messageIds.Next());
    WireFacts(h, a.wire);
    CallingKeeps(h, a);
    Owned(h);
    Owned(g);
    FreshId(h);
    PushPreserves(h.store);
    OneKept(h, g, id, x, Response(a.wire, h.wires[a.wire].NextCall(a.procedure)));
  }

  lemma WaitKept(h: Host, x: nat, id: nat)
    requires Inv(h) && x in h.handles && h.store.Ready(x) && id in h.owner && id != x
    ensures Kept(h, WaitFor(h, x), id)
  {
    hide MessagesInv, MapsInv, Store.Valid, Store.Pop, Content;
    HandleOwner(h, x);
    var g := WaitFor(h, x);
    WaitForKeeps(h, x);
    Owned(h);
    Owned(g);
    OthersPreserve(h.store, h.store);
    PopPreserves(h.store, x);
    AllKept(h, g, id);
  }

  lemma OpenKept(h: Host, x: nat, id: nat)
    requires Inv(h) && x in h.handles && x in h.store.messages && id in h.owner
    ensures Kept(h, Listened(h, x), id)
  {
    hide MessagesInv, MapsInv, Store.Valid, Store.OpenStream, Content;
    HandleOwner(h, x);
    var g := Listened(h, x);
    StreamKeeps(h, x);
    Owned(h);
    Owned(g);
    OpenStreamPreserves(h.store, x);
    AllKept(h, g, id);
  }

  lemma ChannelsKept(h: Host, t: Store, id: nat)
    requires Inv(h) && Inv(h.(store := t)) && t == h.store.(channels := t.channels) && id in h.owner
    requires |t.channels| == |h.store.channels|
    requires forall i :: 0 <= i < |t.channels| ==>
               t.channels[i].sent == h.store.channels[i].sent && t.channels[i].kept == h.store.channels[i].kept
    ensures Kept(h, h.(store := t), id)
  {
    hide MessagesInv, MapsInv, Content, Store.Valid;
    Owned(h);
    Owned(h.(store := t));
    OthersPreserve(h.store, t);
    AllKept(h, h.(store := t), id);
  }

  lemma ReceiverKept(h: Host, a: Step, id: nat)
    requires Inv(h) && h.store.Valid() && Enabled(h, a) && (a.Close? || a.Take?) && id in h.owner
    ensures Kept(h, NextReceiver(h, a), id)
  {
    hide MessagesInv, MapsInv, Content, Store.Valid, Store.Receive, Store.DropReceiver, Store.CanReceive, Kept;
    HandlingKeeps(h, a);
    match a
    case Close(ch) =>
      DropReceiverOnly(h.store, ch);
      DropReceiverSent(h.store, ch);
      ChannelsKept(h, h.store.DropReceiver(ch), id);
    case Take(ch, lock, i) =>
      ReceiveKeeps(h.store, ch, lock, i);
      ReceiveSent(h.store, ch, lock, i);
      ChannelsKept(h, h.store.Receive(ch, lock, i).0, id);
  }

  lemma HandlingKept(h: Host, a: Step, id: nat)
    requires Inv(h) && Enabled(h, a) && Handling(a) && id in h.owner && a != Wait(id)
    ensures Kept(h, NextHandling(h, a), id)
  {
    hide MessagesInv, MapsInv, Store.Valid, WaitFor, Listened, NextReceiver, Kept, Store.CanReceive;
    InvValid(h);
    match a
    case Wait(x) => WaitKept(h, x, id);
    case Open(x) => OpenKept(h, x, id);
    case StrikeOff(_, _) =>
      SelfKept(h, id);
      SameStoreKept(h, NextHandling(h, a), id);
    case _ => ReceiverKept(h, a, id);
  }

  lemma SameStoreKept(h: Host, g: Host, id: nat)
    requires Kept(h, h, id) && g.store == h.store && g.owner == h.owner
    ensures Kept(h, g, id)
  {
    hide Store.Valid, Content;
  }

  lemma AdmitKept(procedures: Procedures, h: Host, w: nat, call: Call, t: Terminator, bytes: Bytes, id: nat)
    requires Inv(h) && w in h.wires && !h.wires[w].terminated && (Key(call, w) in h.store.calls || Room(h))
    requires id in h.owner && !h.owner[id].Argument?
    ensures Kept(h, Admit(procedures, h, w, call, t, bytes), id)
  {
    hide MessagesInv, MapsInv, Kept, EnsureBuffer, Accumulate, Consume, GathersAt;
    var key := Key(call, w);
    AdmitKeeps(procedures, h, w, call, bytes);
    InvValid(h);
    var h1 := EnsureBuffer(h, w, call);
    EnsureBufferKept(h, w, call, id);
    EnsureBufferThere(h, w, call);
    InvValid(h1);
    var h2 := Accumulate(h1, key, bytes);
    KeptOwner(h, h1, id);
    AccumulateKept(h1, key, bytes, id);
    KeptOwner(h1, h2, id);
    KeptTwice(h, h1, h2, id);
    if t.Complete? {
      InvValid(h2);
      AccumulateCalls(h1, key, bytes);
      OneChunk(h2.store, key);
      ConsumeKept(procedures, h2, key, id);
      KeptTwice(h, h2, Consume(procedures, h2, key), id);
    }
  }

  lemma KeptOwner(h: Host, g: Host, id: nat)
    requires Kept(h, g, id)
    ensures id in h.owner && id in g.owner && g.owner[id] == h.owner[id]
  {
  }

  lemma EnsureBufferKept(h: Host, w: nat, call: Call, id: nat)
    requires Inv(h) && w in h.wires && Inv(EnsureBuffer(h, w, call)) && (Key(call, w) in h.store.calls || Room(h))
    requires id in h.owner
    ensures Kept(h, EnsureBuffer(h, w, call), id)
  {
    hide MessagesInv, MapsInv, Store.Push, Content, Store.Valid;
    Owned(h);
    var (g, x, key) := (EnsureBuffer(h, w, call), h.store.messageIds.Next(), Key(call, w));
    Owned(g);
    if key in h.store.calls {
      OthersPreserve(h.store, h.store);
      AllKept(h, g, id);
    } else {
      FreshId(h);
      PushPreserves(h.store);
      CallsPreserve(h.store, h.store.Push(), g.store);
      OneKept(h, g, id, x, Argument(key));
    }
  }

  lemma AccumulateKept(h: Host, key: Key, bytes: Bytes, id: nat)
    requires Inv(h) && key in h.store.calls && id in h.owner && !h.owner[id].Argument?
    ensures Kept(h, Accumulate(h, key, bytes), id)
  {
    hide MessagesInv, MapsInv, Content, Store.Valid, Store.SendMany;
    Owned(h);
    AccumulateKeeps(h, key, bytes);
    GathersThere(h, key);
    var g := Accumulate(h, key, bytes);
    Owned(g);
    SendManyPreserves(h.store, bytes, h.store.calls[key]);
    OneKept(h, g, id, h.store.calls[key], Orphan);
  }

  lemma ConsumeKept(procedures: Procedures, h: Host, key: Key, id: nat)
    requires Inv(h) && key in h.store.calls && key.wire in h.wires && !h.wires[key.wire].terminated
    requires id in h.owner && !h.owner[id].Argument?
    ensures GathersAt(h.store, key) && h.store.messages[h.store.calls[key]].chunks != [] && key.wire in h.outbox
    ensures Kept(h, Consume(procedures, h, key), id)
  {
    hide MessagesInv, MapsInv, Content, Store.Valid, Consumed, Answered, Execute, Replies, GathersAt;
    Owned(h);
    GathersThere(h, key);
    OneChunk(h.store, key);
    ConsumeKeeps(procedures, h, key);
    var (g, x) := (Consume(procedures, h, key), h.store.calls[key]);
    Owned(g);
    var ex := Execute(procedures, key.call.procedure, h.store.messages[x].chunks[0]);
    ConsumedPreserves(h.store, key, ex.kept);
    OneKept(h, g, id, x, Orphan);
  }

  lemma RespondKept(h: Host, w: nat, call: Call, t: Terminator, bytes: Bytes, id: nat)
    requires Inv(h) && w in h.wires && id in h.owner && !h.owner[id].Response?
    requires call in h.wires[w].responses ==> h.wires[w].responses[call] in h.store.messages
    ensures h.store.Valid() && Kept(h, Respond(h, w, call, t, bytes), id)
  {
    hide MessagesInv, MapsInv, Content, Store.Valid, Respond;
    Owned(h);
    RespondKeeps(h, w, call, t, bytes);
    var g := Respond(h, w, call, t, bytes);
    Owned(g);
    RespondShape(h, w, call, t, bytes);
    if call in h.wires[w].responses {
      AwaitsThere(h, w, call);
      OneKept(h, g, id, h.wires[w].responses[call], Finished(w, call));
    } else {
      OthersPreserve(h.store, h.store);
      AllKept(h, g, id);
    }
  }

  lemma TerminateKept(h: Host, w: nat, order: seq<Call>, id: nat)
    requires Inv(h) && w in h.wires && Lists(order, h.wires[w].ongoing) && id in h.owner && !h.owner[id].Argument?
    ensures h.store.Valid() && Kept(h, Terminate(h, w, order), id)
  {
    hide MessagesInv, MapsInv, Content, Store.Valid, Terminate;
    Owned(h);
    TerminateKeeps(h, w, order);
    Owned(Terminate(h, w, order));
    TerminateShape(h, w, order);
    AllKept(h, Terminate(h, w, order), id);
  }

  lemma ReceivedKept(procedures: Procedures, h: Host, w: nat, m: Message, order: seq<Call>, id: nat)
    requires Inv(h) && w in h.wires && !h.wires[w].terminated && MayReceive(h, w, m, order)
    requires id in h.owner && Settled(h.owner[id])
    ensures Kept(h, Received(procedures, h, w, m, order), id)
  {
    hide MessagesInv, MapsInv, Kept, Admit, Respond, Terminate, Store.Valid;
    SelfKept(h, id);
    match m
    case Frame(CallFrame, call, t, bytes) =>
      if !OverLimit(h.wires[w], call) {
        AdmitKept(procedures, h, w, call, t, bytes, id);
      }
    case Frame(ResponseFrame, call, t, bytes) =>
      RespondKeeps(h, w, call, t, bytes);
      RespondKept(h, w, call, t, bytes, id);
    case Termination => TerminateKept(h, w, order, id);
    case _ =>
  }

  lemma SelfKept(h: Host, id: nat)
    requires Inv(h) && id in h.owner
    ensures Kept(h, h, id)
  {
    hide MessagesInv, MapsInv, Content, Store.Valid;
    Owned(h);
  }

  /** The owner of a settled message changes only from the wire that finished it to none, when that wire is dropped. */
  predicate StaysSettled(before: Owner, after: Owner) {
    after == before || (before.Finished? && after == Detached)
  }

  lemma DropKept(procedures: Procedures, h: Host, w: nat, order: seq<Call>, id: nat)
    requires Inv(h) && Enabled(h, DropWire(w, order)) && id in h.owner && !h.owner[id].Argument?
    ensures var g := Next(procedures, h, DropWire(w, order));
            && SameContent(h, g, id) && id in g.owner
            && g.owner[id] == if BelongsTo(h.owner[id], w) then Detached else h.owner[id]
  {
    hide MessagesInv, MapsInv, Store.Valid, Content, Terminate;
    InvValid(h);
    var (t, g) := (Terminate(h, w, order), Next(procedures, h, DropWire(w, order)));
    StepKeeps(procedures, h, DropWire(w, order));
    Owned(g);
    TerminateKept(h, w, order, id);
    OthersPreserve(t.store, g.store);
  }

  /** No step writes to a settled message or takes it away, but a wait for it. */
  lemma SettledStep(procedures: Procedures, h: Host, a: Step, id: nat)
    requires Inv(h) && Enabled(h, a) && id in h.owner && Settled(h.owner[id]) && a != Wait(id)
    ensures var g := Next(procedures, h, a);
            SameContent(h, g, id) && id in g.owner && StaysSettled(h.owner[id], g.owner[id])
  {
    hide MessagesInv, MapsInv, Store.Valid, Content, Terminate, Received, NextCalling, NextHandling, MayReceive, Encode;
    InvValid(h);
    SelfKept(h, id);
    StepKeeps(procedures, h, a);
    InvValid(Next(procedures, h, a));
    if Calling(a) {
      CallingKept(h, a, id);
    } else if Handling(a) {
      HandlingKept(h, a, id);
    } else {
      match a
      case ConnectWire(cfg, moduleStyle, max) => OthersPreserve(h.store, Next(procedures, h, a).store);
      case DropWire(w, order) => DropKept(procedures, h, w, order, id);
      case Receive(w, m, order) => ReceivedKept(procedures, h, w, m, order, id);
      case ReadEof(w, order) => TerminateKept(h, w, order, id);
      case _ =>
    }
  }

  predicate NobodyWaitsFor(steps: seq<Step>, id: nat) {
    forall i :: 0 <= i < |steps| ==> steps[i] != Wait(id)
  }

  /** A complete response outlives its wire, and a message that was left behind stays: through every run in which nobody
      waits for it, whichever wires are terminated or dropped and whichever identifiers are recycled, it says what it
      said. */
  lemma {:induction false} SettledStays(procedures: Procedures, h: Host, steps: seq<Step>, id: nat)
    requires Inv(h) && LegalSteps(procedures, h, steps) && NobodyWaitsFor(steps, id)
    requires id in h.owner && Settled(h.owner[id])
    ensures var g := RunSteps(procedures, h, steps);
            SameContent(h, g, id) && id in g.owner && StaysSettled(h.owner[id], g.owner[id])
    decreases |steps|
  {
    hide Inv, Enabled, Next, Content;
    if steps == [] {
      SelfKept(h, id);
    } else {
      StepKeeps(procedures, h, steps[0]);
      SettledStep(procedures, h, steps[0], id);
      SettledStays(procedures, Next(procedures, h, steps[0]), steps[1..], id);
    }
  }

  lemma NoHandleOnOrphan(h: Host, id: nat)
    requires Inv(h) && id in h.owner && h.owner[id].Orphan?
    ensures id !in h.handles
  {
    hide Store.Valid, Roi.Accounts, States, Decided, Registered, MapsInv;
    assert id in h.handles ==> WaitedOn(h.store.messages, h.handles, id);
  }

  /** What a failed call has left behind is never reclaimed: it is there, with what it says, at the end of every run. */
  lemma {:induction false} OrphansAreNeverReclaimed(procedures: Procedures, h: Host, steps: seq<Step>, id: nat)
    requires Inv(h) && LegalSteps(procedures, h, steps) && id in h.owner && h.owner[id].Orphan?
    ensures var g := RunSteps(procedures, h, steps); SameContent(h, g, id) && id in g.owner && g.owner[id].Orphan?
    decreases |steps|
  {
    hide Inv, Next, Content;
    if steps == [] {
      SelfKept(h, id);
    } else {
      StepKeeps(procedures, h, steps[0]);
      NoHandleOnOrphan(h, id);
      SettledStep(procedures, h, steps[0], id);
      OrphansAreNeverReclaimed(procedures, Next(procedures, h, steps[0]), steps[1..], id);
    }
  }
}
