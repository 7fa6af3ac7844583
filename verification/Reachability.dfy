/** The theorems about hosts, for every state that a host can reach from the moment it is made. */
module Reachability {
  import opened Types
  import opened RoiQueues
  import opened Stores
  import opened WireFormat
  import opened Wires
  import opened Hosts
  import opened HostCalls
  import opened HostSteps
  import opened HostRuns
  import opened HostContents
  import opened HostEffects
  import opened Traces
  import opened HostTheorems
  import opened HostTermination
  import opened Demultiplexing

  ghost predicate Reachable(procedures: Procedures, width: Width, h: Host) {
    exists steps :: LegalFromNew(procedures, width, steps) && Reached(procedures, width, steps) == h
  }

  ghost predicate Can(h: Host, a: Step) {
    h.store.Valid() && Enabled(h, a)
  }

  lemma ReachableInv(procedures: Procedures, width: Width, h: Host)
    requires Reachable(procedures, width, h)
    ensures Inv(h)
  {
    hide Inv, LegalFromNew, Reached;
    var steps :| LegalFromNew(procedures, width, steps) && Reached(procedures, width, steps) == h;
    ReachedInv(procedures, width, steps);
  }

  function Then(procedures: Procedures, width: Width, h: Host, a: Step): Host
    requires Reachable(procedures, width, h) && Can(h, a)
  {
    ReachableInv(procedures, width, h);
    Next(procedures, h, a)
  }

  // --- Runs in parts ---

  lemma {:induction false} RunInParts(procedures: Procedures, h: Host, first: seq<Step>, second: seq<Step>)
    requires Inv(h) && LegalSteps(procedures, h, first)
    ensures Inv(RunSteps(procedures, h, first))
    ensures LegalSteps(procedures, h, first + second)
            <==> LegalSteps(procedures, RunSteps(procedures, h, first), second)
    ensures LegalSteps(procedures, h, first + second) ==>
              RunSteps(procedures, h, first + second) == RunSteps(procedures, RunSteps(procedures, h, first), second)
    decreases |first|
  {
    hide Inv, Enabled, Next;
    if first == [] {
      assert first + second == second;
    } else {
      assert (first + second)[1..] == first[1..] + second && (first + second)[0] == first[0];
      StepKeeps(procedures, h, first[0]);
      RunInParts(procedures, Next(procedures, h, first[0]), first[1..], second);
    }
  }

  lemma OneStepRun(procedures: Procedures, h: Host, a: Step)
    requires Inv(h) && h.store.Valid() && Enabled(h, a)
    ensures Inv(Next(procedures, h, a))
    ensures LegalSteps(procedures, h, [a]) && RunSteps(procedures, h, [a]) == Next(procedures, h, a)
  {
    hide Inv, Enabled, Next;
    StepKeeps(procedures, h, a);
    var g := Next(procedures, h, a);
    assert [a][1..] == [] && LegalSteps(procedures, g, []);
    assert RunSteps(procedures, g, []) == g;
  }

  // --- What holds in every reachable state ---

  lemma LimitsAreKept(procedures: Procedures, width: Width, h: Host)
    requires Reachable(procedures, width, h)
    ensures WithinLimits(h)
  {
    hide Inv, LegalSteps, RunSteps;
    NewHostInv(width);
    var steps :| LegalFromNew(procedures, width, steps) && Reached(procedures, width, steps) == h;
    LimitsHold(procedures, NewHost(width), steps);
  }

  /** A handle or a stream that has not been served waits on a live wire that still expects the response. */
  lemma WaitersAreExpected(procedures: Procedures, width: Width, h: Host, id: nat)
    requires Reachable(procedures, width, h) && WaitedOn(h.store.messages, h.handles, id)
    ensures id in h.store.messages && id in h.owner && h.store.messages[id].lock < |h.store.locks|
    ensures h.store.locks[h.store.messages[id].lock].Incomplete? ==>
              && h.owner[id].Response? && Awaits(h.wires, h.owner[id].wire, h.owner[id].call, id)
              && !h.wires[h.owner[id].wire].terminated
  {
    hide MessagesInv, MapsInv, Reachable;
    ReachableInv(procedures, width, h);
    OnlyLiveWiresAreWaitedFor(h, id);
    HandleLock(h, id);
  }

  /** The frame theorem: whatever happens on other wires, and whichever identifiers are recycled, the calls of a wire
      keep their buffers, their owners and what was written to them. */
  lemma OtherWiresAreUndisturbed(procedures: Procedures, width: Width, h: Host, a: Step, w: nat)
    requires Reachable(procedures, width, h) && Can(h, a) && w in h.wires && !Touches(a, w)
    ensures Elsewhere(h, Then(procedures, width, h, a), w)
  {
    hide Inv, Enabled, Next, Elsewhere, Reachable;
    ReachableInv(procedures, width, h);
    StepElsewhere(procedures, h, a, w);
  }

  /** A message loses its owner only when the handling of the last frame of a call returns an error. */
  lemma OwnersAreLostToErrors(procedures: Procedures, width: Width, h: Host, a: Step)
    requires Reachable(procedures, width, h) && Can(h, a) && NewOrphans(h, Then(procedures, width, h, a))
    ensures a.Receive? && a.wire in h.wires
    ensures a.message.Frame? && a.message.kind.CallFrame? && a.message.terminator.Complete?
    ensures Handle(procedures, h.store, h.wires[a.wire], a.message, a.order).result.Err?
  {
    hide Inv, Enabled, Next, NewOrphans, Reachable, Handle;
    ReachableInv(procedures, width, h);
    OrphansComeFromErrors(procedures, h, a);
  }

  /** When a wire is dropped, what is left that mentions its identifier are exactly the arguments of calls that it does
      not know to be ongoing. */
  lemma DroppedWireLeavesIff(procedures: Procedures, width: Width, h: Host, w: nat, order: seq<Call>)
    requires Reachable(procedures, width, h) && Can(h, DropWire(w, order))
    ensures var g := Then(procedures, width, h, DropWire(w, order));
            && w !in g.wires && w !in g.outbox
            && (forall k :: k in g.streamed ==> k.wire != w)
            && (forall id :: id in g.owner ==> !BelongsTo(g.owner[id], w))
            && (forall k: Key :: k.wire == w ==>
                  (k in g.store.calls <==> k in h.store.calls && k.call !in h.wires[w].ongoing))
  {
    hide Inv, Enabled, Next, Reachable;
    ReachableInv(procedures, width, h);
    DropLeavesIff(procedures, h, w, order);
  }

  /** Termination leaves nobody waiting: in every run that terminates or drops a wire somewhere, the lock of every
      handle that waited on the wire then is decided in every later state. */
  lemma NobodyIsLeftWaiting(procedures: Procedures, width: Width, before: seq<Step>, a: Step, later: seq<Step>, w: nat,
                            id: nat)
    requires LegalFromNew(procedures, width, before) && LegalFromNew(procedures, width, before + ([a] + later))
    requires var h := Reached(procedures, width, before);
             && Can(h, a) && EndsWire(h, a, w) && WaitedOn(h.store.messages, h.handles, id)
             && id in h.owner && BelongsTo(h.owner[id], w)
    ensures var (h, g) := (Reached(procedures, width, before), Reached(procedures, width, before + ([a] + later)));
            && id in h.store.messages && h.store.messages[id].lock < |g.store.locks|
            && !g.store.locks[h.store.messages[id].lock].Incomplete?
  {
    hide Inv, Enabled, Next, LegalSteps, RunSteps, EndsWire;
    NewHostInv(width);
    var (n, h) := (NewHost(width), Reached(procedures, width, before));
    RunInParts(procedures, n, before, [a] + later);
    OneStepRun(procedures, h, a);
    RunInParts(procedures, h, [a], later);
    TerminationLeavesNobodyWaiting(procedures, h, a, w, id, later);
  }

  /** What a wire's entry for a call is good for: the message is there, nothing is complete yet, and it belongs to this
      call of this wire and to nothing else, so that a response frame cannot reach anybody else's bytes. */
  lemma ResponseIndexIsOwn(procedures: Procedures, width: Width, h: Host, w: nat, c: Call)
    requires Reachable(procedures, width, h) && w in h.wires && c in h.wires[w].responses
    ensures var id := h.wires[w].responses[c];
            && id in h.store.messages && id in h.owner && h.owner[id] == Response(w, c)
            && h.store.messages[id].lock < |h.store.locks| && !h.store.locks[h.store.messages[id].lock].Completed?
            && (forall k :: k in h.store.calls ==> h.store.calls[k] != id)
            && (forall v, d :: v in h.wires && d in h.wires[v].responses && h.wires[v].responses[d] == id ==>
                  v == w && d == c)
  {
    hide Store.Valid, Roi.Accounts, Decided, Registered, WaitersFit, StreamsKnown, Queued, WireIds, Reachable;
    ReachableInv(procedures, width, h);
  }

  /** A wire is what it was made to be: in every run from the moment it is connected it has the widths, the style and
      the limit that were asked for, never more ongoing calls than that limit, and lets a new call through exactly as
      long as it has fewer. */
  lemma WiresAreAsMade(procedures: Procedures, width: Width, h: Host, cfg: Config, moduleStyle: bool, max: nat,
                       steps: seq<Step>, m: Message)
    requires Reachable(procedures, width, h) && Can(h, ConnectWire(cfg, moduleStyle, max))
    ensures var (g0, w) := (Then(procedures, width, h, ConnectWire(cfg, moduleStyle, max)), h.store.wireIds.Next());
            && Inv(g0) && w !in h.wires && w in g0.wires && g0.wires[w].ongoing == {} && !g0.wires[w].terminated
            && (LegalSteps(procedures, g0, steps) && KeepsWire(steps, w) ==>
                  var g := RunSteps(procedures, g0, steps);
                  && w in g.wires && g.wires[w].id == w && g.wires[w].cfg == cfg && g.wires[w].max == max
                  && g.wires[w].moduleStyle == moduleStyle && |g.wires[w].ongoing| <= max
                  && (m.Frame? && m.kind.CallFrame? ==>
                        (LetsThrough(g, w, m) <==> m.call in g.wires[w].ongoing || |g.wires[w].ongoing| < max)))
  {
    hide MessagesInv, MapsInv, LegalSteps, RunSteps, Reachable, Store.Valid;
    ReachableInv(procedures, width, h);
    LimitsAreKept(procedures, width, h);
    ConnectKeeps(h, cfg, moduleStyle, max);
    var (g0, w) := (Connect(h, cfg, moduleStyle, max), h.store.wireIds.Next());
    if LegalSteps(procedures, g0, steps) && KeepsWire(steps, w) {
      SetupStays(procedures, g0, steps, w);
      LimitsHold(procedures, g0, steps);
    }
  }

  // --- Demultiplexing ---

  /** From the moment a wire is connected under an identifier that is clean, in every state: exactly the calls with
      frames let through since they last ran have a buffer, and the buffer holds the bytes of those frames in order. */
  lemma BuffersHoldWhatCame(procedures: Procedures, width: Width, h: Host, cfg: Config, moduleStyle: bool, max: nat,
                            steps: seq<Step>)
    requires Reachable(procedures, width, h) && Can(h, ConnectWire(cfg, moduleStyle, max))
    requires Clean(h, h.store.wireIds.Next())
    ensures var (g, w) := (Then(procedures, width, h, ConnectWire(cfg, moduleStyle, max)), h.store.wireIds.Next());
            && Inv(g) && w in g.wires
            && (LegalSteps(procedures, g, steps) && KeepsWire(steps, w) ==>
                  ArgumentsFit(RunSteps(procedures, g, steps), w, TookIn(procedures, g, w, [], steps)))
  {
    hide Inv, Enabled, LegalSteps, RunSteps, TookIn, ArgumentsFit, Reachable;
    ReachableInv(procedures, width, h);
    RoomForWire(h, cfg, moduleStyle, max);
    EveryRunGathersExactly(procedures, h, cfg, moduleStyle, max, steps);
  }

  lemma RoomForWire(h: Host, cfg: Config, moduleStyle: bool, max: nat)
    requires Can(h, ConnectWire(cfg, moduleStyle, max))
    ensures |h.wires| < h.store.wireIds.limit
  {
  }

  /** The last frame of a call runs its procedure on exactly the bytes of the call's frames since it last ran. */
  lemma ProceduresGetWhatCame(procedures: Procedures, width: Width, h: Host, w: nat, took: seq<Message>, m: Message,
                              order: seq<Call>)
    requires Reachable(procedures, width, h) && Can(h, Receive(w, m, order)) && ArgumentsFit(h, w, took)
    requires w in h.wires && LetsThrough(h, w, m) && m.terminator.Complete?
    ensures var g := Then(procedures, width, h, Receive(w, m, order));
            var args := OrEmpty(Pending(took, m.call)) + m.payload;
            && w in g.outbox && w in h.outbox
            && g.outbox[w] == h.outbox[w] + Replies(m.call, Execute(procedures, m.call.procedure, args))
  {
    hide Inv, Enabled, Next, Replies, Execute, ArgumentsFit, Reachable, Pending;
    ReachableInv(procedures, width, h);
    ExecutionGetsExactArguments(procedures, h, w, took, m, order);
  }
}
