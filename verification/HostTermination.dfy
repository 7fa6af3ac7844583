/** The end of a wire: it leaves nobody waiting, and the wire does nothing any more. */
module HostTermination {
  import opened Types
  import opened RoiQueues
  import opened Stores
  import opened WireFormat
  import opened Wires
  import opened Hosts
  import opened HostCalls
  import opened HostResponses
  import opened HostSteps
  import opened HostRuns
  import opened HostContents
  import opened Traces
  import opened Queues
  import opened HostTheorems
  import opened Demultiplexing

  // --- Decided locks stay decided ---

  /** No decided lock becomes undecided, a completed one stays completed, and a poisoned one is at most completed. */
  predicate LocksAdvance(before: seq<LockState>, after: seq<LockState>) {
    && |before| <= |after|
    && forall l :: 0 <= l < |before| ==>
         (!before[l].Incomplete? ==> !after[l].Incomplete?) && (before[l].Completed? ==> after[l].Completed?)
  }

  lemma TerminateLocks(h: Host, w: nat, order: seq<Call>)
    requires h.store.Valid() && w in h.wires
    ensures LocksAdvance(h.store.locks, Terminate(h, w, order).store.locks)
  {
    DropCallsLocks(h.store, w, order);
    hide Store.Valid, DropCalls, DropArguments;
  }

  lemma AdmitLocks(procedures: Procedures, h: Host, w: nat, call: Call, t: Terminator, bytes: Bytes)
    requires Inv(h) && w in h.wires && !h.wires[w].terminated
    requires Key(call, w) in h.store.calls || Room(h)
    ensures LocksAdvance(h.store.locks, Admit(procedures, h, w, call, t, bytes).store.locks)
  {
    hide MessagesInv, MapsInv, GathersAt, Store.Valid, Consumed, Store.SendMany, Store.Push, EnsureBuffer;
    InvValid(h);
    AdmitKeeps(procedures, h, w, call, bytes);
    var (key, h1) := (Key(call, w), EnsureBuffer(h, w, call));
    EnsureBufferLocks(h, w, call);
    InvValid(h1);
    SendManyLocks(h1.store, bytes, h1.store.calls[key]);
    var h2 := Accumulate(h1, key, bytes);
    InvValid(h2);
    OneChunk(h2.store, key);
    ConsumedLocks(h2.store, key, false);
    ConsumedLocks(h2.store, key, true);
  }

  lemma EnsureBufferLocks(h: Host, w: nat, call: Call)
    requires h.store.Valid() && w in h.wires
    ensures LocksAdvance(h.store.locks, EnsureBuffer(h, w, call).store.locks)
  {
  }

  lemma SendManyLocks(s: Store, bytes: Bytes, id: nat)
    requires s.Valid()
    ensures s.SendMany(bytes, id).locks == s.locks
  {
  }

  lemma ConsumedLocks(s: Store, key: Key, kept: bool)
    requires s.Valid() && key in s.calls && s.calls[key] in s.messages
    ensures LocksAdvance(s.locks, Consumed(s, key, kept).locks)
  {
    CompleteKeeps(s, s.calls[key]);
  }

  lemma RespondLocks(h: Host, w: nat, call: Call, t: Terminator, bytes: Bytes)
    requires Inv(h) && w in h.wires
    ensures call in h.wires[w].responses ==> h.wires[w].responses[call] in h.store.messages
    ensures LocksAdvance(h.store.locks, Respond(h, w, call, t, bytes).store.locks)
  {
    hide MessagesInv, MapsInv, Store.Valid, Store.SendMany, Store.TerminateChunk, Store.FinishStream;
    InvValid(h);
    if call in h.wires[w].responses {
      AwaitsThere(h, w, call);
      var (id, s1) := (h.wires[w].responses[call], h.store.SendMany(bytes, h.wires[w].responses[call]));
      SendManyThere(h.store, bytes, id);
      TerminateChunkThere(s1, id);
      AcceptedThere(s1, id);
      SettledLock(s1, id);
      CompleteMessages(s1, id);
      CompleteLocks(s1, id);
      if s1.messages[id].sender.Sender? {
        FinishStreamEffect(s1.Complete(id), id);
      }
    }
  }

  lemma CompleteLocks(s: Store, id: nat)
    requires s.Valid() && id in s.messages
    ensures LocksAdvance(s.locks, s.Complete(id).locks)
  {
  }

  lemma PushLocks(s: Store)
    requires s.Valid()
    ensures s.Push().locks == s.locks + [Incomplete]
  {
  }

  lemma PopLocks(s: Store, id: nat)
    requires s.Valid()
    ensures s.Pop(id).locks == s.locks
  {
  }

  lemma CallingLocks(h: Host, a: Step)
    requires Inv(h) && Enabled(h, a) && Calling(a)
    ensures LocksAdvance(h.store.locks, NextCalling(h, a).store.locks)
  {
    hide MessagesInv, MapsInv, Store.Valid, Store.Push, Encode, CanBegin, Unclaimed;
    InvValid(h);
    WireFacts(h, a.wire);
    PushLocks(h.store);
  }

  lemma HandlingLocks(h: Host, a: Step)
    requires Inv(h) && Enabled(h, a) && Handling(a)
    ensures NextHandling(h, a).store.locks == h.store.locks
  {
    hide MessagesInv, MapsInv, Store.Valid, Store.Pop, Store.OpenStream, Store.Receive, Store.DropReceiver;
    hide Store.CanReceive;
    InvValid(h);
    match a
    case Wait(id) =>
      HandleOwner(h, id);
      PopLocks(h.store, id);
    case Open(id) => OpenStreamEffect(h.store, id);
    case Close(ch) => DropReceiverOnly(h.store, ch);
    case Take(ch, lock, id) => ReceiveKeeps(h.store, ch, lock, id);
    case StrikeOff(_, _) =>
  }

  lemma ReceivedLocks(procedures: Procedures, h: Host, w: nat, m: Message, order: seq<Call>)
    requires Inv(h) && w in h.wires && !h.wires[w].terminated && MayReceive(h, w, m, order)
    ensures LocksAdvance(h.store.locks, Received(procedures, h, w, m, order).store.locks)
  {
    hide MessagesInv, MapsInv, Store.Valid, Admit, Respond, Terminate;
    InvValid(h);
    match m
    case Frame(CallFrame, call, t, bytes) =>
      if !OverLimit(h.wires[w], call) {
        AdmitLocks(procedures, h, w, call, t, bytes);
      }
    case Frame(ResponseFrame, call, t, bytes) => RespondLocks(h, w, call, t, bytes);
    case Termination => TerminateLocks(h, w, order);
    case _ =>
  }

  lemma LocksStep(procedures: Procedures, h: Host, a: Step)
    requires Inv(h) && Enabled(h, a)
    ensures LocksAdvance(h.store.locks, Next(procedures, h, a).store.locks)
  {
    hide MessagesInv, MapsInv, Store.Valid, Terminate, Received, NextCalling, NextHandling, MayReceive;
    InvValid(h);
    if Calling(a) {
      CallingLocks(h, a);
    } else if Handling(a) {
      HandlingLocks(h, a);
    } else {
      match a
      case DropWire(w, order) => TerminateLocks(h, w, order);
      case Receive(w, m, order) => ReceivedLocks(procedures, h, w, m, order);
      case ReadEof(w, order) => TerminateLocks(h, w, order);
      case _ =>
    }
  }

  lemma {:induction false} LocksRun(procedures: Procedures, h: Host, steps: seq<Step>)
    requires Inv(h) && LegalSteps(procedures, h, steps)
    ensures LocksAdvance(h.store.locks, RunSteps(procedures, h, steps).store.locks)
    decreases |steps|
  {
    hide Inv, Enabled, Next;
    if steps != [] {
      StepKeeps(procedures, h, steps[0]);
      LocksStep(procedures, h, steps[0]);
      LocksRun(procedures, Next(procedures, h, steps[0]), steps[1..]);
    }
  }

  // --- Nobody is left waiting ---

  /** In every state, whoever waits for an undecided response waits on a live wire that still expects it. */
  lemma OnlyLiveWiresAreWaitedFor(h: Host, id: nat)
    requires Inv(h) && WaitedOn(h.store.messages, h.handles, id)
    ensures h.store.Valid() && id in h.store.messages && id in h.owner
    ensures h.store.LockOf(id).Incomplete? ==>
              && h.owner[id].Response? && Awaits(h.wires, h.owner[id].wire, h.owner[id].call, id)
              && !h.wires[h.owner[id].wire].terminated
  {
    hide Store.Valid, Roi.Accounts, Registered, StreamsKnown, Queued, WireIds, ArgumentsOwned;
  }

  ghost predicate EndsWire(h: Host, a: Step, w: nat) {
    match a
    case DropWire(v, _) => v == w
    case ReadEof(v, _) => v == w
    case Receive(v, m, _) => v == w && m.Termination?
    case _ => false
  }

  /** Once a wire has been terminated, by a message, the end of its input or its drop, the lock of every handle and of
      every stream that waited on it is decided, and stays so in every later state, whatever becomes of the wire's
      identifier. */
  lemma TerminationLeavesNobodyWaiting(procedures: Procedures, h: Host, a: Step, w: nat, id: nat, later: seq<Step>)
    requires Inv(h) && Enabled(h, a) && EndsWire(h, a, w)
    requires WaitedOn(h.store.messages, h.handles, id) && id in h.owner && BelongsTo(h.owner[id], w)
    requires Inv(Next(procedures, h, a)) && LegalSteps(procedures, Next(procedures, h, a), later)
    ensures h.store.Valid() && id in h.store.messages
    ensures var (lock, g) := (h.store.messages[id].lock, RunSteps(procedures, Next(procedures, h, a), later));
            lock < |h.store.locks| <= |g.store.locks| && !g.store.locks[lock].Incomplete?
  {
    hide MessagesInv, MapsInv, Store.Valid, Next, Enabled, LegalSteps, RunSteps;
    InvValid(h);
    var g := Next(procedures, h, a);
    EndDecides(procedures, h, a, w, id);
    LocksStep(procedures, h, a);
    LocksRun(procedures, g, later);
  }

  lemma EndDecides(procedures: Procedures, h: Host, a: Step, w: nat, id: nat)
    requires Inv(h) && Enabled(h, a) && EndsWire(h, a, w)
    requires WaitedOn(h.store.messages, h.handles, id) && id in h.owner && BelongsTo(h.owner[id], w)
    ensures h.store.Valid() && id in h.store.messages
    ensures var (lock, g) := (h.store.messages[id].lock, Next(procedures, h, a));
            lock < |h.store.locks| && lock < |g.store.locks| && !g.store.locks[lock].Incomplete?
  {
    hide MessagesInv, MapsInv, Store.Valid, Terminate;
    InvValid(h);
    assert w in h.wires by {
      BelongsToLive(h, w, id);
    }
    HandleLock(h, id);
    var order := a.order;
    DropCallsLocks(h.store, w, order);
    TerminatePoisons(h, w, order);
  }

  lemma BelongsToLive(h: Host, w: nat, id: nat)
    requires Inv(h) && id in h.owner && BelongsTo(h.owner[id], w)
    ensures w in h.wires
  {
    hide MessagesInv, WireIds, ArgumentsOwned, StreamsKnown, Queued;
  }

  lemma HandleLock(h: Host, id: nat)
    requires Inv(h) && WaitedOn(h.store.messages, h.handles, id)
    ensures id in h.store.messages && id in h.owner && h.store.messages[id].lock < |h.store.locks|
    ensures h.store.locks[h.store.messages[id].lock].Incomplete? ==>
              && h.owner[id].Response? && h.owner[id].wire in h.wires
              && h.store.messages[id].lock in h.wires[h.owner[id].wire].idle.Values
  {
    hide Store.Valid, Roi.Accounts, Registered, MapsInv;
  }

  /** Poison reaches every registered lock, and no other. */
  lemma TerminatePoisons(h: Host, w: nat, order: seq<Call>)
    requires h.store.Valid() && w in h.wires
    ensures var locks := Terminate(h, w, order).store.locks;
            && |locks| == |h.store.locks|
            && forall l :: 0 <= l < |locks| ==>
                 (!locks[l].Incomplete? <==> l in h.wires[w].idle.Values || !h.store.locks[l].Incomplete?)
  {
    DropCallsLocks(h.store, w, order);
    hide Store.Valid, DropCalls, DropArguments;
  }

  /** On a terminated wire nothing can be called, continued, ended, flushed or yielded: nothing changes. */
  lemma TerminatedWireIsInert(procedures: Procedures, h: Host, a: Step, w: nat)
    requires Inv(h) && Enabled(h, a) && w in h.wires && h.wires[w].terminated
    requires match a
             case Start(v, _, _) => v == w
             case Once(v, _, _) => v == w
             case More(v, _, _) => v == w
             case Finally(v, _) => v == w
             case Tell(v, m) => v == w && m.EndOfInput?
             case Flush(v) => v == w
             case Later(v, _, _) => v == w
             case _ => false
    ensures Next(procedures, h, a) == h
  {
    hide MessagesInv, MapsInv, Store.Valid;
    WireFacts(h, w);
    InvValid(h);
  }

  /** Nor does it receive: neither form of receiving changes the wire or the interface, whatever there is to read. */
  lemma TerminatedWireIsDeaf(procedures: Procedures, s: Store, w: Wire, input: Bytes, order: seq<Call>)
    requires s.Valid() && w.cfg.Valid() && w.terminated
    ensures ReceiveOne(procedures, s, w, input, order) == Outcome(s, w, Err(WireTerminated))
    ensures Fill(procedures, s, w, input, order) == Filled(s, w, Err(WireTerminated), input)
  {
  }

  // --- The rest of the run ---

  ghost predicate OnlyTerminations(ms: seq<Message>) {
    forall i :: 0 <= i < |ms| ==> ms[i].Termination?
  }

  lemma InertPosts(procedures: Procedures, h: Host, a: Step, w: nat)
    requires Inv(h) && Enabled(h, a) && w in h.wires && h.wires[w].terminated
    ensures OnlyTerminations(Posted(procedures, h, w, a))
  {
    hide MessagesInv, MapsInv, Answers, CanBegin;
  }

  /** One more step of a host with a terminated wire: the calls of the wire stay as they are, and nothing but
      termination signals joins its queue. */
  lemma InertStep(procedures: Procedures, h: Host, a: Step, w: nat)
    requires Inv(h) && Enabled(h, a) && w in h.wires && h.wires[w].terminated && !(a.DropWire? && a.wire == w)
    ensures var g := Next(procedures, h, a);
            && Elsewhere(h, g, w) && w in h.outbox && w in g.outbox
            && h.outbox[w] <= g.outbox[w] && OnlyTerminations(g.outbox[w][|h.outbox[w]|..])
  {
    hide MessagesInv, MapsInv, Elsewhere, Next, Posted, Store.Valid, OnlyTerminations;
    InvValid(h);
    WireFacts(h, w);
    InertPosts(procedures, h, a, w);
    var g := Next(procedures, h, a);
    if Touches(a, w) || (a.Flush? && a.wire == w) {
      hide MayReceive;
      TerminatedWireIsInert(procedures, h, a, w);
      SendingElsewhere(h, h, w);
      NoneTerminates(h.outbox[w]);
    } else {
      StepElsewhere(procedures, h, a, w);
      StepQueues(procedures, h, a, w);
      BehindIt(h.outbox[w], Posted(procedures, h, w, a));
    }
  }

  lemma NoneTerminates(ms: seq<Message>)
    ensures OnlyTerminations(ms[|ms|..])
  {
  }

  lemma BehindIt(ms: seq<Message>, more: seq<Message>)
    ensures (ms + more)[|ms|..] == more
  {
  }

  lemma TerminationsAppend(a: seq<Message>, b: seq<Message>, c: seq<Message>)
    requires a <= b <= c && OnlyTerminations(b[|a|..]) && OnlyTerminations(c[|b|..])
    ensures a <= c && OnlyTerminations(c[|a|..])
  {
    assert c[|a|..] == b[|a|..] + c[|b|..];
  }

  /** Once a wire is terminated, and until it is dropped, through every run: it stays terminated, the calls it knows,
      the buffers of their arguments and responses and what these hold are as they were, and nothing but termination
      signals joins its queue. */
  lemma {:induction false} TerminatedForGood(procedures: Procedures, h: Host, steps: seq<Step>, w: nat)
    requires Inv(h) && LegalSteps(procedures, h, steps) && KeepsWire(steps, w)
    requires w in h.wires && h.wires[w].terminated
    ensures var g := RunSteps(procedures, h, steps);
            && Elsewhere(h, g, w) && g.wires[w].terminated && w in h.outbox && w in g.outbox
            && h.outbox[w] <= g.outbox[w] && OnlyTerminations(g.outbox[w][|h.outbox[w]|..])
    decreases |steps|
  {
    hide Inv, Enabled, Next, Elsewhere, OnlyTerminations;
    WireFacts(h, w);
    if steps == [] {
      SendingElsewhere(h, h, w);
      NoneTerminates(h.outbox[w]);
    } else {
      var g := Next(procedures, h, steps[0]);
      StepKeeps(procedures, h, steps[0]);
      InertStep(procedures, h, steps[0], w);
      ElsewhereThere(h, g, w);
      TerminatedForGood(procedures, g, steps[1..], w);
      var k := RunSteps(procedures, g, steps[1..]);
      ElsewhereTwice(h, g, k, w);
      TerminationsAppend(h.outbox[w], g.outbox[w], k.outbox[w]);
    }
  }
}
