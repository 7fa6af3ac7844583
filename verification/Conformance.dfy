/** Peers that keep to the protocol: they send no frame of a call while the closure of a streaming procedure may still
    answer it, and no closure yields once it has completed its response or let its yielder go. The arguments of a wire
    are then those of calls that it knows to be ongoing, so that its identifier is clean when it is recycled. */
module Conformance {
  import opened Types
  import opened RoiQueues
  import opened Stores
  import opened WireFormat
  import opened Wires
  import opened Hosts
  import opened HostCalls
  import opened HostResponses
  import opened HostSteps
  import opened HostRuns
  import opened HostContents
  import opened HostEffects
  import opened Traces
  import opened HostTheorems
  import opened Reachability

  predicate Conforms(h: Host, a: Step) {
    match a
    case Receive(w, m, _) => m.Frame? && m.kind.CallFrame? ==> Key(m.call, w) !in h.streamed
    case Later(w, call, _) => Key(call, w) in h.streamed
    case _ => true
  }

  /** Arguments are gathered for calls that their wire knows to be ongoing and that have not started to stream. */
  ghost predicate Gathering(calls: map<Key, nat>, wires: Wiring, streamed: set<Key>) {
    forall k :: k in calls ==>
      k.wire in wires && k.call in wires[k.wire].ongoing && !wires[k.wire].terminated && k !in streamed
  }

  ghost predicate GathersOngoing(h: Host) {
    Gathering(h.store.calls, h.wires, h.streamed)
  }

  // --- Every conforming step keeps it ---

  ghost predicate SameOngoing(wires: Wiring, after: Wiring) {
    forall w :: w in wires ==>
      w in after && after[w].ongoing == wires[w].ongoing && after[w].terminated == wires[w].terminated
  }

  lemma CallingGathers(h: Host, a: Step)
    requires Inv(h) && Enabled(h, a) && Calling(a)
    ensures var g := NextCalling(h, a);
            g.store.calls == h.store.calls && g.streamed == h.streamed && SameOngoing(h.wires, g.wires)
  {
    hide MessagesInv, MapsInv, Store.Valid, StartCall, CallOnce, EndCall, Encode, CanBegin, Unclaimed, SameOngoing;
    WireFacts(h, a.wire);
    match a
    case Start(w, p, args) => StartGathers(h, w, p, args);
    case Once(w, p, args) => OnceGathers(h, w, p, args);
    case More(w, call, args) => PostGathers(h, w, Frame(CallFrame, call, None, args));
    case Finally(w, call) => EndGathers(h, w, call);
    case Tell(w, m) => PostGathers(h, w, m);
  }

  lemma StartGathers(h: Host, w: nat, procedure: nat, args: Bytes)
    requires Inv(h) && w in h.wires
    ensures var g := StartCall(h, w, procedure, args);
            g.store.calls == h.store.calls && g.streamed == h.streamed && SameOngoing(h.wires, g.wires)
  {
    hide MessagesInv, MapsInv, Store.Valid, Store.Push, Encode;
    WireFacts(h, w);
    PushCalls(h.store);
  }

  lemma OnceGathers(h: Host, w: nat, procedure: nat, args: Bytes)
    requires Inv(h) && w in h.wires && CanBegin(h, w, procedure)
    ensures var g := CallOnce(h, w, procedure, args);
            g.store.calls == h.store.calls && g.streamed == h.streamed && SameOngoing(h.wires, g.wires)
  {
    hide MessagesInv, MapsInv, Store.Valid, Store.Push, Encode, CanBegin;
    WireFacts(h, w);
    PushCalls(h.store);
  }

  lemma PostGathers(h: Host, w: nat, m: Message)
    requires w in h.wires && w in h.outbox
    ensures SameOngoing(h.wires, h.wires) && SameOngoing(h.wires, Post(h, w, m).wires)
  {
    hide Encode;
  }

  lemma EndGathers(h: Host, w: nat, call: Call)
    requires Inv(h) && w in h.wires
    ensures var g := EndCall(h, w, call);
            g.store.calls == h.store.calls && g.streamed == h.streamed && SameOngoing(h.wires, g.wires)
  {
    hide MessagesInv, MapsInv, Store.Valid, Encode;
    WireFacts(h, w);
    if call in h.wires[w].responses {
      AwaitsThere(h, w, call);
    }
  }

  lemma PushCalls(s: Store)
    requires s.Valid()
    ensures s.Push().calls == s.calls
  {
  }

  lemma WaitGathers(h: Host, id: nat)
    requires Inv(h) && id in h.handles && h.store.Ready(id)
    ensures var g := WaitFor(h, id);
            g.store.calls == h.store.calls && g.streamed == h.streamed && SameOngoing(h.wires, g.wires)
  {
    hide MessagesInv, MapsInv, Store.Valid, Store.Pop;
    InvValid(h);
    HandleOwner(h, id);
    PopEffect(h.store, id);
  }

  lemma ReceiverGathers(h: Host, a: Step)
    requires h.store.Valid() && Enabled(h, a) && (a.Close? || a.Take?)
    ensures var g := NextReceiver(h, a);
            g.store.calls == h.store.calls && g.streamed == h.streamed && g.wires == h.wires
  {
    hide Store.Valid;
  }

  lemma HandlingGathers(h: Host, a: Step)
    requires Inv(h) && Enabled(h, a) && Handling(a)
    ensures var g := NextHandling(h, a);
            g.store.calls == h.store.calls && g.streamed == h.streamed && SameOngoing(h.wires, g.wires)
  {
    hide MessagesInv, MapsInv, Store.Valid, Store.OpenStream, NextReceiver, WaitFor, Store.CanReceive;
    InvValid(h);
    match a
    case Wait(id) => WaitGathers(h, id);
    case Open(id) => OpenStreamEffect(h.store, id);
    case StrikeOff(_, _) =>
    case _ => ReceiverGathers(h, a);
  }

  lemma SameGathering(h: Host, g: Host)
    requires GathersOngoing(h) && g.store.calls == h.store.calls && g.streamed <= h.streamed
    requires SameOngoing(h.wires, g.wires)
    ensures GathersOngoing(g)
  {
  }

  lemma AdmitGathers(procedures: Procedures, h: Host, w: nat, call: Call, t: Terminator, bytes: Bytes)
    requires Inv(h) && w in h.wires && !h.wires[w].terminated && Key(call, w) !in h.streamed
    requires Key(call, w) in h.store.calls || Room(h)
    requires GathersOngoing(h)
    ensures GathersOngoing(Admit(procedures, h, w, call, t, bytes))
  {
    hide MessagesInv, MapsInv, Store.Valid, Admit, Execute, Answered, Replies, ArgsOf, SameResponses, SameOtherArgs;
    var (g, key) := (Admit(procedures, h, w, call, t, bytes), Key(call, w));
    WireFacts(h, w);
    AdmitArgs(procedures, h, w, call, t, bytes);
    var (x, args) := (h.wires[w].(ongoing := h.wires[w].ongoing + {call}), OrEmpty(ArgsOf(h.store, key)) + bytes);
    AnsweredEffect(x, call, Execute(procedures, call.procedure, args));
    AdmitInv(procedures, h, w, call, t, bytes);
    forall k | k in g.store.calls
      ensures k.wire in g.wires && k.call in g.wires[k.wire].ongoing && !g.wires[k.wire].terminated && k !in g.streamed
    {
      HasBuffer(g, k);
      HasBuffer(h, k);
      OtherArg(h.store, g.store, key, k);
    }
  }

  lemma AdmitInv(procedures: Procedures, h: Host, w: nat, call: Call, t: Terminator, bytes: Bytes)
    requires Inv(h) && w in h.wires && !h.wires[w].terminated && (Key(call, w) in h.store.calls || Room(h))
    ensures Inv(Admit(procedures, h, w, call, t, bytes))
  {
    hide MessagesInv, MapsInv, GathersAt, EnsureBuffer, Consume, Accumulate;
    AdmitKeeps(procedures, h, w, call, bytes);
  }

  lemma TerminateGathers(h: Host, w: nat, order: seq<Call>)
    requires Inv(h) && w in h.wires && Lists(order, h.wires[w].ongoing) && GathersOngoing(h)
    ensures h.store.Valid() && GathersOngoing(Terminate(h, w, order))
    ensures forall k :: k in Terminate(h, w, order).store.calls ==> k.wire != w
  {
    hide MessagesInv, MapsInv, Store.Valid, Terminate;
    TerminateShape(h, w, order);
  }

  lemma ReceivedGathers(procedures: Procedures, h: Host, w: nat, m: Message, order: seq<Call>)
    requires Inv(h) && w in h.wires && !h.wires[w].terminated && MayReceive(h, w, m, order)
    requires GathersOngoing(h) && Conforms(h, Receive(w, m, order))
    ensures GathersOngoing(Received(procedures, h, w, m, order))
  {
    hide MessagesInv, MapsInv, Store.Valid, Admit, Respond, Terminate, GathersOngoing;
    InvValid(h);
    match m
    case Frame(CallFrame, call, t, bytes) =>
      if !OverLimit(h.wires[w], call) {
        AdmitGathers(procedures, h, w, call, t, bytes);
      }
    case Frame(ResponseFrame, call, t, bytes) =>
      RespondKeeps(h, w, call, t, bytes);
      RespondShape(h, w, call, t, bytes);
      SameGathering(h, Respond(h, w, call, t, bytes));
    case Termination => TerminateGathers(h, w, order);
    case _ =>
  }

  lemma GathersStep(procedures: Procedures, h: Host, a: Step)
    requires Inv(h) && Enabled(h, a) && Conforms(h, a) && GathersOngoing(h)
    ensures GathersOngoing(Next(procedures, h, a))
  {
    hide MessagesInv, MapsInv, Store.Valid, Terminate, Received, NextCalling, NextHandling, MayReceive, Encode;
    InvValid(h);
    if Calling(a) {
      CallingGathers(h, a);
      SameGathering(h, NextCalling(h, a));
    } else if Handling(a) {
      HandlingGathers(h, a);
      SameGathering(h, NextHandling(h, a));
    } else {
      match a
      case ConnectWire(cfg, moduleStyle, max) => ConnectKeeps(h, cfg, moduleStyle, max);
      case DropWire(w, order) => TerminateGathers(h, w, order);
      case Receive(w, m, order) => ReceivedGathers(procedures, h, w, m, order);
      case ReadEof(w, order) => TerminateGathers(h, w, order);
      case _ =>
    }
  }

  // --- Conforming runs ---

  ghost predicate Conforming(procedures: Procedures, h: Host, steps: seq<Step>)
    requires Inv(h) && LegalSteps(procedures, h, steps)
    decreases |steps|
  {
    steps == []
    || (Conforms(h, steps[0])
        && (StepKeeps(procedures, h, steps[0]);
            Conforming(procedures, Next(procedures, h, steps[0]), steps[1..])))
  }

  lemma {:induction false} GathersRun(procedures: Procedures, h: Host, steps: seq<Step>)
    requires Inv(h) && LegalSteps(procedures, h, steps) && Conforming(procedures, h, steps) && GathersOngoing(h)
    ensures GathersOngoing(RunSteps(procedures, h, steps))
    decreases |steps|
  {
    hide Inv, Enabled, Next, GathersOngoing, Conforms;
    if steps != [] {
      StepKeeps(procedures, h, steps[0]);
      GathersStep(procedures, h, steps[0]);
      GathersRun(procedures, Next(procedures, h, steps[0]), steps[1..]);
    }
  }

  ghost predicate ConformingFromNew(procedures: Procedures, width: Width, steps: seq<Step>)
    requires LegalFromNew(procedures, width, steps)
  {
    NewHostInv(width);
    Conforming(procedures, NewHost(width), steps)
  }

  /** The host is reached with peers that keep to the protocol. */
  ghost predicate WellReached(procedures: Procedures, width: Width, h: Host) {
    exists steps ::
      && LegalFromNew(procedures, width, steps) && ConformingFromNew(procedures, width, steps)
      && Reached(procedures, width, steps) == h
  }

  /** The arguments gathered for a wire are those of calls that it knows to be ongoing. */
  lemma ArgumentsAreOngoing(procedures: Procedures, width: Width, h: Host)
    requires WellReached(procedures, width, h)
    ensures Inv(h)
    ensures forall k :: k in h.store.calls ==>
              && k.wire in h.wires && k.call in h.wires[k.wire].ongoing && !h.wires[k.wire].terminated
              && k !in h.streamed
  {
    hide Inv, LegalSteps, RunSteps, Conforming;
    var steps :| LegalFromNew(procedures, width, steps) && ConformingFromNew(procedures, width, steps)
                 && Reached(procedures, width, steps) == h;
    NewHostInv(width);
    ReachedInv(procedures, width, steps);
    GathersRun(procedures, NewHost(width), steps);
  }

  /** A dropped wire leaves nothing behind that mentions its identifier. */
  lemma DroppedWiresLeaveNothing(procedures: Procedures, width: Width, h: Host, w: nat, order: seq<Call>)
    requires WellReached(procedures, width, h) && Can(h, DropWire(w, order))
    ensures Inv(h)
    ensures var g := Next(procedures, h, DropWire(w, order));
            && w !in g.wires && w !in g.outbox
            && (forall k :: k in g.store.calls || k in g.streamed ==> k.wire != w)
            && (forall id :: id in g.owner ==> !Concerns(g.owner[id], w))
  {
    hide MessagesInv, MapsInv, Store.Valid, Enabled, Next, WellReached;
    ArgumentsAreOngoing(procedures, width, h);
    DropLeavesIff(procedures, h, w, order);
    StepKeeps(procedures, h, DropWire(w, order));
    NoneConcerned(Next(procedures, h, DropWire(w, order)), w);
  }

  lemma NoneConcerned(g: Host, w: nat)
    requires Inv(g) && Clean(g, w) && forall id :: id in g.owner ==> !BelongsTo(g.owner[id], w)
    ensures forall id :: id in g.owner ==> !Concerns(g.owner[id], w)
  {
    hide MessagesInv, ResponsesOwned, Queued, WireIds;
    forall id | id in g.owner && g.owner[id].Argument? ensures g.owner[id].key.wire != w {
      var k := g.owner[id].key;
      assert k in g.store.calls && k == Key(k.call, k.wire);
    }
  }

  /** The next wire to be connected starts clean. */
  lemma NextWireIsClean(procedures: Procedures, width: Width, h: Host)
    requires WellReached(procedures, width, h) && |h.wires| < h.store.wireIds.limit
    ensures Inv(h) && Clean(h, h.store.wireIds.Next())
  {
    hide MessagesInv, ArgumentsOwned, ResponsesOwned, Queued, Roi.Accounts, WellReached;
    ArgumentsAreOngoing(procedures, width, h);
    ConnectKeeps(h, Config(W8, W32), false, 0);
  }
}
