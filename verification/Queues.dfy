/** What a step queues on a wire is exactly what the history says it posts, behind what was queued before. */
module Queues {
  import opened Types
  import opened Stores
  import opened WireFormat
  import opened WireFormatProofs
  import opened Wires
  import opened Hosts
  import opened HostCalls
  import opened HostResponses
  import opened HostSteps
  import opened HostRuns
  import opened HostContents
  import opened HostEffects
  import opened Traces

  /** The wire is there, is set up as it was, and has queued `more`. */
  ghost predicate Queues(h: Host, g: Host, w: nat, more: seq<Message>) {
    && w in h.wires && w in g.wires && w in h.outbox && w in g.outbox
    && SameSetup(h.wires[w], g.wires[w]) && g.outbox[w] == h.outbox[w] + more
  }

  lemma CallingQueues(procedures: Procedures, h: Host, a: Step, w: nat)
    requires Inv(h) && Enabled(h, a) && w in h.wires && Calling(a)
    ensures Queues(h, NextCalling(h, a), w, Posted(procedures, h, w, a))
  {
    hide MessagesInv, MapsInv, Store.Valid, Store.Push, Encode, CanBegin, Unclaimed;
    InvValid(h);
    WireFacts(h, w);
    WireFacts(h, a.wire);
    assert h.outbox[w] + [] == h.outbox[w];
    match a
    case Start(_, _, _) =>
    case Once(_, _, _) => CallingKeeps(h, a);
    case More(_, _, _) =>
    case Finally(v, call) => EndQueues(h, v, call, w);
    case Tell(_, _) =>
  }

  lemma EndQueues(h: Host, v: nat, call: Call, w: nat)
    requires Inv(h) && v in h.wires && w in h.wires && w in h.outbox
    ensures Queues(h, EndCall(h, v, call), w,
                   if v == w && h.wires[w].CanCall().Ok? then [Frame(CallFrame, call, Complete, [])] else [])
  {
    hide MessagesInv, MapsInv, Store.Valid, Encode;
    WireFacts(h, v);
    assert h.outbox[w] + [] == h.outbox[w];
    if call in h.wires[v].responses {
      AwaitsThere(h, v, call);
    }
  }

  lemma HandlingQueues(h: Host, a: Step, w: nat)
    requires Inv(h) && Enabled(h, a) && w in h.wires && Handling(a)
    ensures Queues(h, NextHandling(h, a), w, [])
  {
    hide MessagesInv, MapsInv, Store.Valid, Store.Receive, Store.DropReceiver, Store.OpenStream, Store.Pop;
    InvValid(h);
    WireFacts(h, w);
    assert h.outbox[w] + [] == h.outbox[w];
    if a.Wait? {
      HandleOwner(h, a.id);
    }
  }

  lemma ReceivedQueues(procedures: Procedures, h: Host, v: nat, m: Message, order: seq<Call>, w: nat)
    requires Inv(h) && v in h.wires && !h.wires[v].terminated && MayReceive(h, v, m, order) && w in h.wires
    ensures h.store.Valid()
    ensures Queues(h, Received(procedures, h, v, m, order), w, if v == w then Answers(procedures, h, w, m) else [])
  {
    hide MessagesInv, MapsInv, Store.Valid, Admit, Respond, Terminate, Execute, Replies, Answered, ArgsOf;
    hide SameOtherArgs, SameResponses;
    InvValid(h);
    WireFacts(h, w);
    WireFacts(h, v);
    assert h.outbox[w] + [] == h.outbox[w];
    if LetsThrough(h, v, m) {
      AdmitArgs(procedures, h, v, m.call, m.terminator, m.payload);
      AdmittedWire(procedures, h, v, m.call, m.terminator, m.payload);
    } else if m.Frame? && m.kind.ResponseFrame? {
      RespondKeeps(h, v, m.call, m.terminator, m.payload);
      RespondShape(h, v, m.call, m.terminator, m.payload);
    } else if m.Termination? {
      TerminateShape(h, v, order);
    }
  }

  /** The messages that a step answers, calls or signals with are queued in that order, and nothing else is. */
  lemma StepQueues(procedures: Procedures, h: Host, a: Step, w: nat)
    requires Inv(h) && Enabled(h, a) && w in h.wires && !(a.DropWire? && a.wire == w) && !(a.Flush? && a.wire == w)
    ensures Queues(h, Next(procedures, h, a), w, Posted(procedures, h, w, a))
  {
    hide MessagesInv, MapsInv, Store.Valid, Terminate, Received, NextCalling, NextHandling, Queues, Encode;
    InvValid(h);
    WireFacts(h, w);
    if Calling(a) {
      CallingQueues(procedures, h, a, w);
    } else if Handling(a) {
      HandlingQueues(h, a, w);
    } else if a.Receive? {
      ReceivedQueues(procedures, h, a.wire, a.message, a.order, w);
    } else {
      OtherQueues(procedures, h, a, w);
    }
  }

  lemma OtherQueues(procedures: Procedures, h: Host, a: Step, w: nat)
    requires Inv(h) && Enabled(h, a) && w in h.wires && !Calling(a) && !Handling(a) && !a.Receive?
    requires !(a.DropWire? && a.wire == w) && !(a.Flush? && a.wire == w)
    ensures Queues(h, Next(procedures, h, a), w, Posted(procedures, h, w, a))
  {
    hide MessagesInv, MapsInv, Store.Valid, Terminate, Received, NextCalling, NextHandling, Encode;
    InvValid(h);
    WireFacts(h, w);
    assert h.outbox[w] + [] == h.outbox[w];
    match a
    case ConnectWire(cfg, moduleStyle, max) => ConnectKeeps(h, cfg, moduleStyle, max);
    case DropWire(v, order) =>
      TerminateShape(h, v, order);
      TerminateKeeps(h, v, order);
    case Flush(v) => WireFacts(h, v);
    case ReadEof(v, order) => TerminateShape(h, v, order);
    case Later(v, call, y) => WireFacts(h, v);
    case LetGo(_, _) =>
  }

  /** The bytes of the queue are the encodings of the messages in it. */
  lemma QueueBytes(h: Host, w: nat)
    requires Inv(h) && w in h.wires
    ensures w in h.outbox && h.wires[w].queue == EncodeEach(h.wires[w].cfg, h.outbox[w])
  {
    hide MessagesInv, WireIds, ArgumentsOwned, ResponsesOwned, StreamsKnown, EncodeEach;
  }

  lemma {:induction false} ConcatEncodes(cfg: Config, ms: seq<Message>)
    ensures Concat(EncodeEach(cfg, ms)) == EncodeAll(cfg, ms)
    decreases |ms|
  {
    hide Encode;
    if ms != [] {
      assert EncodeEach(cfg, ms)[1..] == EncodeEach(cfg, ms[1..]);
      ConcatEncodes(cfg, ms[1..]);
    }
  }
}
