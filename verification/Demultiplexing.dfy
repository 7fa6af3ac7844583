/** Demultiplexing over whole runs: from the moment a wire is connected, in every state. Peers may send any frames in
    any order, and closures may yield at any time. */
module Demultiplexing {
  import opened Types
  import opened Stores
  import opened WireFormat
  import opened Wires
  import opened Hosts
  import opened HostCalls
  import opened HostSteps
  import opened HostRuns
  import opened HostEffects
  import opened Traces
  import opened Queues
  import opened HostTheorems

  predicate KeepsWire(steps: seq<Step>, w: nat) {
    forall i :: 0 <= i < |steps| ==> !(steps[i].DropWire? && steps[i].wire == w)
  }

  lemma WireStays(procedures: Procedures, h: Host, a: Step, w: nat)
    requires Inv(h) && Enabled(h, a) && w in h.wires && !(a.DropWire? && a.wire == w)
    ensures w in Next(procedures, h, a).wires
  {
    hide MessagesInv, MapsInv, Store.Valid, Next, Posted;
    if a.Flush? {
      hide Posted;
      FlushWires(procedures, h, a, w);
    } else {
      StepQueues(procedures, h, a, w);
    }
  }

  lemma FlushWires(procedures: Procedures, h: Host, a: Step, w: nat)
    requires Inv(h) && Enabled(h, a) && w in h.wires && a.Flush?
    ensures w in Next(procedures, h, a).wires
  {
    hide MessagesInv, MapsInv;
  }

  lemma SetupStep(procedures: Procedures, h: Host, a: Step, w: nat)
    requires Inv(h) && Enabled(h, a) && w in h.wires && !(a.DropWire? && a.wire == w)
    ensures var g := Next(procedures, h, a); w in g.wires && w in g.outbox && SameSetup(h.wires[w], g.wires[w])
  {
    hide MessagesInv, MapsInv, Posted;
    if a.Flush? && a.wire == w {
      WireFacts(h, w);
    } else {
      hide Next;
      StepQueues(procedures, h, a, w);
    }
  }

  lemma {:induction false} SetupStays(procedures: Procedures, h: Host, steps: seq<Step>, w: nat)
    requires Inv(h) && LegalSteps(procedures, h, steps) && KeepsWire(steps, w) && w in h.wires
    ensures var g := RunSteps(procedures, h, steps); w in g.wires && SameSetup(h.wires[w], g.wires[w])
    decreases |steps|
  {
    hide Inv, Enabled, Next;
    if steps != [] {
      StepKeeps(procedures, h, steps[0]);
      SetupStep(procedures, h, steps[0], w);
      SetupStays(procedures, Next(procedures, h, steps[0]), steps[1..], w);
    }
  }

  function TookAfter(h: Host, w: nat, took: seq<Message>, a: Step): seq<Message>
    requires w in h.wires
  {
    if a.Receive? && a.wire == w && LetsThrough(h, w, a.message) then took + [a.message] else took
  }

  lemma TookIsTraced(procedures: Procedures, h: Host, w: nat, took: seq<Message>, a: Step)
    requires Inv(h) && Enabled(h, a) && w in h.wires
    ensures TookAfter(h, w, took, a) == Traced(procedures, h, w, Trace([], [], took), a).took
  {
    hide MessagesInv, MapsInv, Posted, LetsThrough;
    assert took + [] == took;
  }

  /** What has been let through on wire `w` by the end of a run, or until it was dropped. */
  function TookIn(procedures: Procedures, h: Host, w: nat, took: seq<Message>, steps: seq<Step>): seq<Message>
    requires Inv(h) && LegalSteps(procedures, h, steps)
    decreases |steps|
  {
    if steps == [] || w !in h.wires then took
    else
      StepKeeps(procedures, h, steps[0]);
      TookIn(procedures, Next(procedures, h, steps[0]), w, TookAfter(h, w, took, steps[0]), steps[1..])
  }

  lemma {:induction false} RunGathers(procedures: Procedures, h: Host, w: nat, took: seq<Message>, steps: seq<Step>)
    requires Inv(h) && LegalSteps(procedures, h, steps) && KeepsWire(steps, w) && ArgumentsFit(h, w, took)
    ensures w in h.wires
    ensures ArgumentsFit(RunSteps(procedures, h, steps), w, TookIn(procedures, h, w, took, steps))
    decreases |steps|
  {
    hide Inv, Enabled, Next, Traced, TookAfter, ArgumentsFit;
    ArgumentsFitThere(h, w, took);
    if steps != [] {
      var g := Next(procedures, h, steps[0]);
      StepKeeps(procedures, h, steps[0]);
      WireStays(procedures, h, steps[0], w);
      ArgumentsStep(procedures, h, w, Trace([], [], took), steps[0]);
      TookIsTraced(procedures, h, w, took, steps[0]);
      RunGathers(procedures, g, w, TookAfter(h, w, took, steps[0]), steps[1..]);
    }
  }

  /** In every state of every run after a wire is connected, exactly the calls with frames let through since they last
      ran have a buffer, and the buffer holds the bytes of those frames in order. */
  lemma EveryRunGathersExactly(procedures: Procedures, h: Host, cfg: Config, moduleStyle: bool, max: nat,
                               steps: seq<Step>)
    requires Inv(h) && |h.wires| < h.store.wireIds.limit && Clean(h, h.store.wireIds.Next())
    ensures var (g, w) := (Connect(h, cfg, moduleStyle, max), h.store.wireIds.Next());
            && Inv(g) && w in g.wires
            && (LegalSteps(procedures, g, steps) && KeepsWire(steps, w) ==>
                  ArgumentsFit(RunSteps(procedures, g, steps), w, TookIn(procedures, g, w, [], steps)))
  {
    var (g, w) := (Connect(h, cfg, moduleStyle, max), h.store.wireIds.Next());
    ConnectKeeps(h, cfg, moduleStyle, max);
    StartsFittingIff(h, cfg, moduleStyle, max);
    hide Inv, Enabled, Next, RunSteps, TookIn;
    if LegalSteps(procedures, g, steps) && KeepsWire(steps, w) {
      RunGathers(procedures, g, w, [], steps);
    }
  }

  /** A wire that has just been connected has what came on it, which is nothing, exactly if no arguments are left under
      its identifier. */
  lemma StartsFittingIff(h: Host, cfg: Config, moduleStyle: bool, max: nat)
    requires Inv(h) && |h.wires| < h.store.wireIds.limit
    ensures var w := h.store.wireIds.Next(); ArgumentsFit(Connect(h, cfg, moduleStyle, max), w, []) <==> Clean(h, w)
  {
    hide MessagesInv, MapsInv, Store.Valid, ArgsOf;
    var (g, w) := (Connect(h, cfg, moduleStyle, max), h.store.wireIds.Next());
    ConnectKeeps(h, cfg, moduleStyle, max);
    InvValid(g);
    forall c: Call ensures ArgsOf(g.store, Key(c, w)) == ExpectedArgs(g, w, [], c) <==> Key(c, w) !in h.store.calls {
      HasBuffer(g, Key(c, w));
    }
  }

  /** When the last frame of a call is let through, its procedure runs on exactly the bytes of the call's frames since
      it last ran, this one included, and the answers to that are what joins the queue. */
  lemma ExecutionGetsExactArguments(procedures: Procedures, h: Host, w: nat, took: seq<Message>, m: Message,
                                    order: seq<Call>)
    requires Inv(h) && Enabled(h, Receive(w, m, order)) && ArgumentsFit(h, w, took)
    requires w in h.wires && LetsThrough(h, w, m) && m.terminator.Complete?
    ensures var g := Next(procedures, h, Receive(w, m, order));
            var args := OrEmpty(Pending(took, m.call)) + m.payload;
            && w in g.wires && w in g.outbox && w in h.outbox
            && g.outbox[w] == h.outbox[w] + Replies(m.call, Execute(procedures, m.call.procedure, args))
            && g.wires[w].queue == EncodeEach(g.wires[w].cfg, g.outbox[w])
  {
    hide MessagesInv, MapsInv, Store.Valid, Next, Pending, ArgsOf, Replies, Execute, EncodeEach;
    InvValid(h);
    var a := Receive(w, m, order);
    StepQueues(procedures, h, a, w);
    StepKeeps(procedures, h, a);
    QueueBytes(Next(procedures, h, a), w);
    assert ArgsOf(h.store, Key(m.call, w)) == ExpectedArgs(h, w, took, m.call);
  }
}
