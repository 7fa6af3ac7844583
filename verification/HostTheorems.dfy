/** What holds in every state that a host can reach, whatever its wires, their peers and its users do. */
module HostTheorems {
  import opened Types
  import opened RoiQueues
  import opened Stores
  import opened Chunks
  import opened WireFormat
  import opened Wires
  import opened Hosts
  import opened HostCalls
  import opened HostResponses
  import opened HostSteps
  import opened HostRuns
  import opened HostContents
  import opened HostEffects
  import opened HostCode
  import opened Traces

  // --- Runs ---

  ghost predicate LegalSteps(procedures: Procedures, h: Host, steps: seq<Step>)
    requires Inv(h)
    decreases |steps|
  {
    InvValid(h);
    steps == []
    || (Enabled(h, steps[0])
        && (StepKeeps(procedures, h, steps[0]);
            LegalSteps(procedures, Next(procedures, h, steps[0]), steps[1..])))
  }

  function RunSteps(procedures: Procedures, h: Host, steps: seq<Step>): Host
    requires Inv(h) && LegalSteps(procedures, h, steps)
    decreases |steps|
  {
    if steps == [] then h
    else
      StepKeeps(procedures, h, steps[0]);
      RunSteps(procedures, Next(procedures, h, steps[0]), steps[1..])
  }

  lemma {:induction false} RunKeeps(procedures: Procedures, h: Host, steps: seq<Step>)
    requires Inv(h) && LegalSteps(procedures, h, steps)
    ensures Inv(RunSteps(procedures, h, steps))
    decreases |steps|
  {
    hide Inv, Enabled, Next;
    if steps != [] {
      StepKeeps(procedures, h, steps[0]);
      RunKeeps(procedures, Next(procedures, h, steps[0]), steps[1..]);
    }
  }

  /** The steps are possible at a host that has just been made. */
  ghost predicate LegalFromNew(procedures: Procedures, width: Width, steps: seq<Step>) {
    NewHostInv(width);
    LegalSteps(procedures, NewHost(width), steps)
  }

  function Reached(procedures: Procedures, width: Width, steps: seq<Step>): Host
    requires LegalFromNew(procedures, width, steps)
  {
    NewHostInv(width);
    RunSteps(procedures, NewHost(width), steps)
  }

  lemma ReachedInv(procedures: Procedures, width: Width, steps: seq<Step>)
    requires LegalFromNew(procedures, width, steps)
    ensures Inv(Reached(procedures, width, steps))
  {
    hide Inv, LegalSteps, RunSteps, NewHost;
    NewHostInv(width);
    RunKeeps(procedures, NewHost(width), steps);
  }

  // --- Ownership ---

  /** Every live message has one owner: it gathers the arguments of one call of one wire, or the response to one, and
      the maps say so; or its response is complete, or a failed call has left it, or its wire is gone. */
  ghost predicate OneOwner(h: Host) {
    && h.owner.Keys == h.store.messages.Keys
    && (forall k, id :: k in h.store.calls && h.store.calls[k] == id <==> id in h.owner && h.owner[id] == Argument(k))
    && (forall w, c, id :: Awaits(h.wires, w, c, id) <==> id in h.owner && h.owner[id] == Response(w, c))
    && (forall k, l :: k in h.store.calls && l in h.store.calls && h.store.calls[k] == h.store.calls[l] ==> k == l)
    && (forall w, c, v, d, id :: Awaits(h.wires, w, c, id) && Awaits(h.wires, v, d, id) ==> w == v && c == d)
    && (forall k, w, c, id :: Awaits(h.wires, w, c, id) && k in h.store.calls ==> h.store.calls[k] != id)
  }

  lemma EveryMessageHasOneOwner(procedures: Procedures, width: Width, steps: seq<Step>)
    requires LegalFromNew(procedures, width, steps)
    ensures OneOwner(Reached(procedures, width, steps))
  {
    hide Inv, OneOwner, Reached, LegalFromNew;
    ReachedInv(procedures, width, steps);
    OwnersUnfold(Reached(procedures, width, steps));
  }

  lemma OwnersUnfold(h: Host)
    requires Inv(h)
    ensures OneOwner(h)
  {
    hide Store.Valid, Roi.Accounts, Decided, Registered, WaitersFit, StreamsKnown, Queued, WireIds;
  }

  // --- Orphans ---

  ghost predicate NewOrphans(h: Host, g: Host) {
    exists id :: id in g.owner && g.owner[id].Orphan? && !(id in h.owner && h.owner[id].Orphan?)
  }

  lemma AdmitOrphans(procedures: Procedures, h: Host, w: nat, call: Call, t: Terminator, bytes: Bytes)
    requires Inv(h) && w in h.wires && !h.wires[w].terminated
    requires Key(call, w) in h.store.calls || Room(h)
    requires !OverLimit(h.wires[w], call)
    requires NewOrphans(h, Admit(procedures, h, w, call, t, bytes))
    ensures t.Complete?
    ensures h.store.Valid() && ReceiveCall(procedures, h.store, h.wires[w], call, t, bytes).result.Err?
  {
    hide MessagesInv, MapsInv, GathersAt, Store.Valid, Answered, Consumed, Store.SendMany, AcceptCall;
    hide Store.GetCallBuffer, Store.Push, Replies;
    InvValid(h);
    AdmitKeeps(procedures, h, w, call, bytes);
    var (key, h1) := (Key(call, w), EnsureBuffer(h, w, call));
    EnsureBufferIsCode(h, w, call);
    GetCallBufferKeeps(h.store, key);
    var x := h.wires[w].(ongoing := h.wires[w].ongoing + {call});
    WireFacts(h, w);
    AcceptCallEffect(procedures, h1.store, x, call, t, bytes);
    AccumulateCalls(h1, key, bytes);
    OneChunk(Accumulate(h1, key, bytes).store, key);
  }

  /** An owner is lost only by an error return of `call_procedure`, which removes the mapping before it can fail. */
  lemma OrphansComeFromErrors(procedures: Procedures, h: Host, a: Step)
    requires Inv(h) && Enabled(h, a) && NewOrphans(h, Next(procedures, h, a))
    ensures a.Receive? && h.store.Valid() && a.wire in h.wires
    ensures a.message.Frame? && a.message.kind.CallFrame? && a.message.terminator.Complete?
    ensures Handle(procedures, h.store, h.wires[a.wire], a.message, a.order).result.Err?
  {
    hide MessagesInv, MapsInv, Store.Valid, Terminate, Admit, Respond, Store.Push, Store.OpenStream, Store.Pop;
    hide Store.Receive, Store.DropReceiver, Encode, Store.CanReceive, ReceiveCall, ReceiveResponse, CanBegin;
    InvValid(h);
    match a
    case Receive(w, m, order) =>
      match m {
        case Frame(CallFrame, call, t, bytes) =>
          if !OverLimit(h.wires[w], call) {
            AdmitOrphans(procedures, h, w, call, t, bytes);
          }
        case Frame(ResponseFrame, call, t, bytes) =>
          RespondKeeps(h, w, call, t, bytes);
          RespondShape(h, w, call, t, bytes);
        case Termination => TerminateShape(h, w, order);
        case _ =>
      }
    case DropWire(w, order) => TerminateShape(h, w, order);
    case ReadEof(w, order) => TerminateShape(h, w, order);
    case Wait(id) => HandleOwner(h, id);
    case _ => OtherOrphans(procedures, h, a);
  }

  lemma OtherOrphans(procedures: Procedures, h: Host, a: Step)
    requires Inv(h) && Enabled(h, a) && !a.Receive? && !a.DropWire? && !a.ReadEof? && !a.Wait?
    ensures !NewOrphans(h, Next(procedures, h, a))
  {
    hide MessagesInv, MapsInv, Store.Valid, Store.Push, Store.OpenStream, Store.Receive, Store.DropReceiver, Encode;
    hide Store.CanReceive, CanBegin;
    InvValid(h);
    if Calling(a) {
      WireFacts(h, a.wire);
    }
  }

  // --- Wire identifiers ---

  /** When a wire is dropped, what is left that mentions its identifier are the arguments of calls that it does not
      know to be ongoing. */
  lemma DropLeavesIff(procedures: Procedures, h: Host, w: nat, order: seq<Call>)
    requires Inv(h) && Enabled(h, DropWire(w, order))
    ensures var g := Next(procedures, h, DropWire(w, order));
            && w !in g.wires && w !in g.outbox
            && (forall k :: k in g.streamed ==> k.wire != w)
            && (forall id :: id in g.owner ==> !BelongsTo(g.owner[id], w))
            && (forall k: Key :: k.wire == w ==>
                  (k in g.store.calls <==> k in h.store.calls && k.call !in h.wires[w].ongoing))
  {
    hide MessagesInv, Store.Valid, Roi.Accounts, WireIds;
    DisconnectKeeps(h, w, order);
    TerminateShape(h, w, order);
  }

  // --- The limit ---

  ghost predicate WithinLimits(h: Host) {
    forall w :: w in h.wires ==> |h.wires[w].ongoing| <= h.wires[w].max
  }

  lemma LimitOfOne(procedures: Procedures, h: Host, a: Step, w: nat)
    requires Inv(h) && Enabled(h, a) && w in h.wires && !(a.DropWire? && a.wire == w)
    requires |h.wires[w].ongoing| <= h.wires[w].max
    ensures var g := Next(procedures, h, a); w in g.wires && |g.wires[w].ongoing| <= g.wires[w].max
  {
    hide MessagesInv, MapsInv, Store.Valid, Terminate, Received, NextCalling, NextHandling, MayReceive, CanBegin;
    hide Encode;
    InvValid(h);
    if !Touches(a, w) {
      hide Next, Undisturbed, SameArguments;
      StepElsewhere(procedures, h, a, w);
    } else {
      match a
      case Receive(_, m, order) => LimitReceived(procedures, h, w, m, order);
      case ReadEof(_, order) => TerminateShape(h, w, order);
      case Later(_, c, y) => LimitYielded(h.wires[w], c, y);
      case _ => LimitBegun(h, a, w);
    }
  }

  lemma LimitBegun(h: Host, a: Step, w: nat)
    requires Inv(h) && Enabled(h, a) && (a.Start? || a.Once?) && a.wire == w
    ensures w in h.wires && w in NextCalling(h, a).wires
    ensures NextCalling(h, a).wires[w].ongoing == h.wires[w].ongoing && NextCalling(h, a).wires[w].max == h.wires[w].max
  {
    hide MessagesInv, MapsInv, Begin, Register, CanBegin, Undisturbed, Content, SameArguments;
    InvValid(h);
    if Starts(h, a) {
      BeginningCalls(h, a, w);
    }
  }

  lemma LimitYielded(x: Wire, c: Call, y: Yield)
    ensures |x.Yielded(c, y).ongoing| <= |x.ongoing| && x.Yielded(c, y).max == x.max
  {
    SubsetSize(x.Yielded(c, y).ongoing, x.ongoing);
  }

  lemma LimitReceived(procedures: Procedures, h: Host, w: nat, m: Message, order: seq<Call>)
    requires Inv(h) && w in h.wires && !h.wires[w].terminated && MayReceive(h, w, m, order)
    requires |h.wires[w].ongoing| <= h.wires[w].max
    ensures var g := Received(procedures, h, w, m, order); w in g.wires && |g.wires[w].ongoing| <= g.wires[w].max
  {
    hide MessagesInv, MapsInv, Store.Valid, Admit, Respond, Terminate, Execute, Answered, Replies, ArgsOf;
    hide SameOtherArgs, SameResponses;
    InvValid(h);
    WireFacts(h, w);
    if LetsThrough(h, w, m) {
      var (call, x) := (m.call, h.wires[w].(ongoing := h.wires[w].ongoing + {m.call}));
      AdmitArgs(procedures, h, w, call, m.terminator, m.payload);
      var ex := Execute(procedures, call.procedure, ArgumentsWith(h, w, m));
      AnsweredEffect(x, call, ex);
      SubsetSize(Answered(x, call, ex).ongoing, x.ongoing);
      InsertSize(h.wires[w].ongoing, call);
    } else if m.Frame? && m.kind.ResponseFrame? {
      RespondKeeps(h, w, m.call, m.terminator, m.payload);
      RespondShape(h, w, m.call, m.terminator, m.payload);
    } else if m.Termination? {
      TerminateShape(h, w, order);
    }
  }

  lemma InsertSize<T>(s: set<T>, x: T)
    ensures |s + {x}| == if x in s then |s| else |s| + 1
  {
    if x in s {
      assert s + {x} == s;
    }
  }

  lemma LimitsStep(procedures: Procedures, h: Host, a: Step)
    requires Inv(h) && Enabled(h, a) && WithinLimits(h)
    ensures WithinLimits(Next(procedures, h, a))
  {
    hide MessagesInv, MapsInv, Store.Valid, Next, Enabled;
    var g := Next(procedures, h, a);
    forall w | w in g.wires ensures |g.wires[w].ongoing| <= g.wires[w].max {
      WiresComeEmpty(procedures, h, a, w);
      if w in h.wires && !(a.DropWire? && a.wire == w) {
        LimitOfOne(procedures, h, a, w);
      }
    }
  }

  lemma WiresComeEmpty(procedures: Procedures, h: Host, a: Step, w: nat)
    requires Inv(h) && Enabled(h, a) && w in Next(procedures, h, a).wires
    ensures !(a.DropWire? && a.wire == w)
    ensures w in h.wires || Next(procedures, h, a).wires[w].ongoing == {}
  {
    if Calling(a) {
      CallingKeepsWires(h, a);
    } else if Handling(a) {
      HandlingKeepsWires(h, a);
    } else {
      hide MessagesInv, MapsInv, Store.Valid, Next, Handle, MarkTerminated, MayReceive, CanBegin;
      StepIsCode(procedures, h, a);
    }
  }

  lemma CallingKeepsWires(h: Host, a: Step)
    requires Inv(h) && Enabled(h, a) && Calling(a)
    ensures NextCalling(h, a).wires.Keys == h.wires.Keys
  {
    hide MessagesInv, MapsInv, Store.Valid, Store.Push, CanBegin, Unclaimed;
    WireFacts(h, a.wire);
    if a.Finally? && a.call in h.wires[a.wire].responses {
      AwaitsThere(h, a.wire, a.call);
    }
  }

  lemma HandlingKeepsWires(h: Host, a: Step)
    requires Inv(h) && Enabled(h, a) && Handling(a)
    ensures NextHandling(h, a).wires.Keys == h.wires.Keys
  {
    hide MessagesInv, MapsInv, Store.Valid, WaitFor, WaitLeaves, Store.Pop, Store.OpenStream, Store.Receive;
    hide Store.DropReceiver, Store.CanReceive;
    InvValid(h);
    if a.Wait? {
      WaitIsCode(h, a.id);
      WaitKeepsWires(h, WaitFor(h, a.id), a.id);
    }
  }

  lemma WaitKeepsWires(h: Host, g: Host, id: nat)
    requires h.store.Valid() && h.store.Ready(id) && WaitLeaves(h, g, id)
    ensures g.wires.Keys == h.wires.Keys
  {
    hide Store.Valid;
  }

  /** No wire ever has more ongoing calls than its limit. */
  lemma {:induction false} LimitsHold(procedures: Procedures, h: Host, steps: seq<Step>)
    requires Inv(h) && LegalSteps(procedures, h, steps) && WithinLimits(h)
    ensures WithinLimits(RunSteps(procedures, h, steps))
    decreases |steps|
  {
    hide Inv, Enabled, Next, WithinLimits;
    if steps != [] {
      StepKeeps(procedures, h, steps[0]);
      LimitsStep(procedures, h, steps[0]);
      LimitsHold(procedures, Next(procedures, h, steps[0]), steps[1..]);
    }
  }
}
