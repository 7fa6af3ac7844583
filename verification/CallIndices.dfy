/** Call indices (`src/wire_common.rs:267-278` and `src/wire_common.rs:311-322`): over every run of a host the calls
    that are begun on a wire are numbered, procedure by procedure, in the order in which they are begun. */
module CallIndices {
  import opened Types
  import opened RoiQueues
  import opened Stores
  import opened Chunks
  import opened WireFormat
  import opened Wires
  import opened Hosts
  import opened HostSteps
  import opened HostRuns
  import opened HostContents
  import opened Traces
  import opened HostTheorems
  import opened Demultiplexing

  /** The procedure of the call that a step begins on wire `w`, if it begins one: the wire has not been terminated, it
      is not in module style, and a call in pieces comes with some bytes. */
  function BegunBy(h: Host, a: Step, w: nat): seq<nat> {
    if (a.Start? || a.Once?) && a.wire == w && w in h.wires && !h.wires[w].terminated && !h.wires[w].moduleStyle
       && (a.Start? ==> a.args != [])
    then [a.procedure] else []
  }

  /** The procedures of the calls begun on wire `w` in a run, in order. */
  function BegunIn(procedures: Procedures, h: Host, steps: seq<Step>, w: nat): seq<nat>
    requires Inv(h) && LegalSteps(procedures, h, steps)
    decreases |steps|
  {
    if steps == [] then []
    else
      StepKeeps(procedures, h, steps[0]);
      BegunBy(h, steps[0], w) + BegunIn(procedures, Next(procedures, h, steps[0]), steps[1..], w)
  }

  function Count(begun: seq<nat>, procedure: nat): nat {
    if begun == [] then 0
    else Count(begun[..|begun| - 1], procedure) + if begun[|begun| - 1] == procedure then 1 else 0
  }

  lemma CountOne(begun: seq<nat>, p: nat, procedure: nat)
    ensures Count(begun + [p], procedure) == Count(begun, procedure) + if p == procedure then 1 else 0
  {
    assert (begun + [p])[..|begun|] == begun;
  }

  /** A number as an integer type with `limit` values shows it. */
  function Shown(n: nat, limit: nat): (r: nat)
    requires limit > 0
    ensures r < limit && (n < limit ==> r == n)
    decreases n
  {
    if n < limit then n else Shown(n - limit, limit)
  }

  /** The counters of a wire on which these calls have been begun, and the calls that it waits for. */
  ghost predicate Numbered(x: Wire, begun: seq<nat>) {
    var limit := x.cfg.idx.Limit();
    && (forall p: nat :: p in x.counters <==> Count(begun, p) > 0)
    && (forall p: nat :: p in x.counters ==> x.counters[p] == Shown(Count(begun, p) - 1, limit))
    && (forall c: Call :: c in x.responses && Count(begun, c.procedure) <= limit ==>
          c.index < Count(begun, c.procedure))
  }

  /** The number of calls of the procedure that have been begun, as the integer type of the indices shows it. */
  function Number(x: Wire, begun: seq<nat>, procedure: nat): nat {
    Shown(Count(begun, procedure), x.cfg.idx.Limit())
  }

  lemma {:induction false} NextShown(n: nat, limit: nat)
    requires limit > 1
    ensures Increment(Shown(n, limit), limit) == Shown(n + 1, limit)
    decreases n
  {
    if n >= limit {
      NextShown(n - limit, limit);
    }
  }

  /** The index that the next call of a procedure gets is the number of those begun before. */
  lemma NextIsNumber(x: Wire, begun: seq<nat>, procedure: nat)
    requires Numbered(x, begun)
    ensures x.NextCall(procedure) == Call(procedure, Number(x, begun, procedure))
    ensures Count(begun, procedure) < x.cfg.idx.Limit() ==>
              && Number(x, begun, procedure) == Count(begun, procedure)
              && x.NextCall(procedure) !in x.responses
  {
    var (n, limit) := (Count(begun, procedure), x.cfg.idx.Limit());
    if n > 0 {
      NextShown(n - 1, limit);
    }
  }

  lemma NumberedBegins(x: Wire, y: Wire, begun: seq<nat>, procedure: nat, id: nat)
    requires Numbered(x, begun) && y.cfg == x.cfg
    requires var c := Call(procedure, Number(x, begun, procedure));
             y.counters == x.counters[procedure := c.index] && y.responses == x.responses[c := id]
    ensures Numbered(y, begun + [procedure])
  {
    var after := begun + [procedure];
    forall p: nat ensures Count(after, p) == Count(begun, p) + if p == procedure then 1 else 0 {
      CountOne(begun, procedure, p);
    }
  }

  lemma NumberedSame(x: Wire, y: Wire, begun: seq<nat>)
    requires Numbered(x, begun) && y.cfg == x.cfg && y.counters == x.counters && y.responses.Keys <= x.responses.Keys
    ensures Numbered(y, begun)
  {
  }

  // --- Steps ---

  lemma NumberedStep(procedures: Procedures, h: Host, a: Step, w: nat, begun: seq<nat>)
    requires Inv(h) && Enabled(h, a) && w in h.wires && !(a.DropWire? && a.wire == w) && Numbered(h.wires[w], begun)
    ensures var g := Next(procedures, h, a); w in g.wires && Numbered(g.wires[w], begun + BegunBy(h, a, w))
  {
    hide MessagesInv, MapsInv, Store.Valid, Numbered, Received, Terminate, NextHandling, NextCalling, MayReceive;
    hide CanBegin;
    InvValid(h);
    WireFacts(h, w);
    assert begun + [] == begun;
    var (x, g) := (h.wires[w], Next(procedures, h, a));
    if !Touches(a, w) {
      StepElsewhere(procedures, h, a, w);
      ElsewhereThere(h, g, w);
      NumberedSame(x, g.wires[w], begun);
    } else {
      match a
      case Receive(_, m, order) =>
        ReceivedCounts(procedures, h, w, m, order);
        NumberedSame(x, g.wires[w], begun);
      case ReadEof(_, order) =>
        TerminateShape(h, w, order);
        NumberedSame(x, g.wires[w], begun);
      case Later(_, c, y) => NumberedSame(x, g.wires[w], begun);
      case _ => NumberedBeginning(h, a, w, begun);
    }
  }

  lemma NumberedBeginning(h: Host, a: Step, w: nat, begun: seq<nat>)
    requires Inv(h) && Enabled(h, a) && (a.Start? || a.Once?) && a.wire == w
    requires w in h.wires && Numbered(h.wires[w], begun)
    ensures var g := NextCalling(h, a); w in g.wires && Numbered(g.wires[w], begun + BegunBy(h, a, w))
  {
    hide MessagesInv, MapsInv, Store.Valid, Numbered, CanBegin, Begin, Register, Content, Undisturbed;
    WireFacts(h, w);
    assert begun + [] == begun;
    if Starts(h, a) {
      BeginningCalls(h, a, w);
      BeginningCounts(h, a, w);
      NextIsNumber(h.wires[w], begun, a.procedure);
      NumberedBegins(h.wires[w], NextCalling(h, a).wires[w], begun, a.procedure, h.store.messageIds.Next());
    }
  }

  lemma {:induction false} NumberedRun(procedures: Procedures, h: Host, steps: seq<Step>, w: nat, begun: seq<nat>)
    requires Inv(h) && LegalSteps(procedures, h, steps) && KeepsWire(steps, w)
    requires w in h.wires && Numbered(h.wires[w], begun)
    ensures var g := RunSteps(procedures, h, steps);
            w in g.wires && Numbered(g.wires[w], begun + BegunIn(procedures, h, steps, w))
    decreases |steps|
  {
    hide Inv, Enabled, Next, Numbered, BegunBy;
    if steps == [] {
      assert begun + [] == begun;
    } else {
      StepKeeps(procedures, h, steps[0]);
      NumberedStep(procedures, h, steps[0], w, begun);
      var (g, now) := (Next(procedures, h, steps[0]), BegunBy(h, steps[0], w));
      NumberedRun(procedures, g, steps[1..], w, begun + now);
      var later := BegunIn(procedures, g, steps[1..], w);
      assert begun + now + later == begun + (now + later);
    }
  }

  // --- Theorems ---

  /** A wire is connected, and then the host takes these steps, in which the wire is not dropped. */
  ghost predicate FromTheStart(procedures: Procedures, h: Host, cfg: Config, moduleStyle: bool, max: nat,
                               steps: seq<Step>)
  {
    && Inv(h) && |h.wires| < h.store.wireIds.limit && Inv(Connect(h, cfg, moduleStyle, max))
    && LegalSteps(procedures, Connect(h, cfg, moduleStyle, max), steps) && KeepsWire(steps, h.store.wireIds.Next())
  }

  lemma NumberedFromTheStart(procedures: Procedures, h: Host, cfg: Config, moduleStyle: bool, max: nat,
                             steps: seq<Step>)
    requires FromTheStart(procedures, h, cfg, moduleStyle, max, steps)
    ensures var (g0, w) := (Connect(h, cfg, moduleStyle, max), h.store.wireIds.Next());
            var g := RunSteps(procedures, g0, steps);
            && Inv(g) && w in g.wires && Numbered(g.wires[w], BegunIn(procedures, g0, steps, w))
  {
    hide Inv, Enabled, Next, LegalSteps, RunSteps, BegunIn;
    var (g0, w) := (Connect(h, cfg, moduleStyle, max), h.store.wireIds.Next());
    NumberedRun(procedures, g0, steps, w, []);
    HostTheorems.RunKeeps(procedures, g0, steps);
    assert [] + BegunIn(procedures, g0, steps, w) == BegunIn(procedures, g0, steps, w);
  }

  /** In every run from the moment a wire is connected, the `k`-th call of a procedure that is begun on it, counted from
      zero and up to the range of the integer type, is call `k`: that is what its frame says and what its response is
      waited for under, with the message that has been set aside for it. */
  lemma CallsAreNumbered(procedures: Procedures, h: Host, cfg: Config, moduleStyle: bool, max: nat, steps: seq<Step>,
                         a: Step)
    requires FromTheStart(procedures, h, cfg, moduleStyle, max, steps)
    requires var g := RunSteps(procedures, Connect(h, cfg, moduleStyle, max), steps);
             Inv(g) && g.store.Valid() && Enabled(g, a) && BegunBy(g, a, h.store.wireIds.Next()) != []
    ensures var (g0, w) := (Connect(h, cfg, moduleStyle, max), h.store.wireIds.Next());
            var g := RunSteps(procedures, g0, steps);
            var (k, n) := (Next(procedures, g, a), Count(BegunIn(procedures, g0, steps, w), a.procedure));
            && w in g.wires && g.wires[w].cfg == cfg && w in g.outbox && w in k.outbox && w in k.wires
            && var c := Call(a.procedure, Shown(n, cfg.idx.Limit()));
            && k.outbox[w] == g.outbox[w] + [Frame(CallFrame, c, if a.Start? then None else Complete, a.args)]
            && k.wires[w].responses == g.wires[w].responses[c := g.store.messageIds.Next()]
            && (n < cfg.idx.Limit() ==> c.index == n && c !in g.wires[w].responses)
  {
    hide MessagesInv, MapsInv, Store.Valid, LegalSteps, RunSteps, BegunIn, CanBegin, Begin, Register, Content;
    hide Undisturbed, Numbered, Connect, NextCalling;
    var (g0, w) := (Connect(h, cfg, moduleStyle, max), h.store.wireIds.Next());
    var g := RunSteps(procedures, g0, steps);
    NumberedFromTheStart(procedures, h, cfg, moduleStyle, max, steps);
    SetupFromTheStart(procedures, h, cfg, moduleStyle, max, steps);
    BeginningCalls(g, a, w);
    NextIsNumber(g.wires[w], BegunIn(procedures, g0, steps, w), a.procedure);
  }

  lemma SetupFromTheStart(procedures: Procedures, h: Host, cfg: Config, moduleStyle: bool, max: nat, steps: seq<Step>)
    requires FromTheStart(procedures, h, cfg, moduleStyle, max, steps)
    ensures var (g, w) := (RunSteps(procedures, Connect(h, cfg, moduleStyle, max), steps), h.store.wireIds.Next());
            w in g.wires && g.wires[w].cfg == cfg
  {
    SetupStays(procedures, Connect(h, cfg, moduleStyle, max), steps, h.store.wireIds.Next());
    hide Inv, LegalSteps, RunSteps;
  }

  /** As long as fewer calls of a procedure have been begun on a wire than there are indices, the index of the next
      one is not waited for: all that the next call needs is room for its response. */
  lemma FreshUntilWrapped(procedures: Procedures, h: Host, cfg: Config, moduleStyle: bool, max: nat, steps: seq<Step>,
                          procedure: nat)
    requires FromTheStart(procedures, h, cfg, moduleStyle, max, steps)
    ensures var (g0, w) := (Connect(h, cfg, moduleStyle, max), h.store.wireIds.Next());
            var g := RunSteps(procedures, g0, steps);
            && w in g.wires
            && (Room(g) && Count(BegunIn(procedures, g0, steps, w), procedure) < cfg.idx.Limit() ==>
                  CanBegin(g, w, procedure))
  {
    hide Inv, LegalSteps, RunSteps, BegunIn, Numbered, Connect;
    var (g0, w) := (Connect(h, cfg, moduleStyle, max), h.store.wireIds.Next());
    NumberedFromTheStart(procedures, h, cfg, moduleStyle, max, steps);
    SetupFromTheStart(procedures, h, cfg, moduleStyle, max, steps);
    var g := RunSteps(procedures, g0, steps);
    NextIsNumber(g.wires[w], BegunIn(procedures, g0, steps, w), procedure);
  }

  /** The calls that are begun, with their numbers. */
  function CallsOf(begun: seq<nat>, limit: nat): seq<Call>
    requires limit > 0
  {
    seq(|begun|, i requires 0 <= i < |begun| => Call(begun[i], Shown(Count(begun[..i], begun[i]), limit)))
  }

  lemma {:induction false} CountGrows(begun: seq<nat>, i: nat, j: nat, procedure: nat)
    requires i <= j <= |begun|
    ensures Count(begun[..i], procedure) <= Count(begun[..j], procedure)
    decreases j
  {
    if i < j {
      assert begun[..j] == begun[..j - 1] + [begun[j - 1]];
      CountOne(begun[..j - 1], begun[j - 1], procedure);
      CountGrows(begun, i, j - 1, procedure);
    }
  }

  lemma CountThis(begun: seq<nat>, i: nat)
    requires i < |begun|
    ensures Count(begun[..i + 1], begun[i]) == Count(begun[..i], begun[i]) + 1
  {
    assert begun[..i + 1] == begun[..i] + [begun[i]];
    CountOne(begun[..i], begun[i], begun[i]);
  }

  /** No two calls of a run are the same, as long as none of its procedures has more calls than there are indices. */
  lemma CallsAreDistinct(begun: seq<nat>, limit: nat, i: nat, j: nat)
    requires limit > 0 && i < j < |begun| && forall p: nat :: Count(begun, p) <= limit
    ensures CallsOf(begun, limit)[i] != CallsOf(begun, limit)[j]
  {
    hide Count, Shown;
    var p := begun[i];
    if begun[j] == p {
      CountThis(begun, i);
      CountThis(begun, j);
      CountGrows(begun, i + 1, j, p);
      CountGrows(begun, j + 1, |begun|, p);
      assert begun[..|begun|] == begun && Count(begun, p) <= limit;
    }
  }
}
