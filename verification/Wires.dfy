/** What each operation of a `Wire` makes of the wire and of the store behind it (`src/wire_common.rs`). */
module Wires {
  import opened Types
  import opened RoiQueues
  import opened Stores
  import opened WireFormat
  import opened WireFormatProofs

  /** One end of a connection. `queue` holds the encoded messages that wait to be flushed; `idle` maps the response
      indices of unwaited call handles to their locks. */
  datatype Wire = Wire(id: nat, cfg: Config, moduleStyle: bool, queue: seq<Bytes>, counters: map<nat, nat>,
                       responses: map<Call, nat>, ongoing: set<Call>, max: nat, idle: map<nat, nat>,
                       terminated: bool)
  {
    function Enqueue(m: Message): Wire {
      this.(queue := queue + [Encode(cfg, m)])
    }

    /** The call index that the next call of a procedure gets. The addition wraps, as in a release build. */
    function NextIndex(procedure: nat): nat {
      if procedure in counters then Increment(counters[procedure], cfg.idx.Limit()) else 0
    }

    function NextCall(procedure: nat): Call {
      Call(procedure, NextIndex(procedure))
    }

    /** The call has a response buffer from now on. */
    function Started(procedure: nat, response: nat): Wire {
      this.(counters := counters[procedure := NextIndex(procedure)],
            responses := responses[NextCall(procedure) := response])
    }

    /** Errors that every calling operation starts with. */
    function CanCall(): Result<()> {
      if terminated then Err(WireTerminated) else if moduleStyle then Err(CallFromModule) else Ok(())
    }

    function WithHandle(response: nat, lock: nat): Wire {
      this.(idle := idle[response := lock])
    }

    /** A yield of a streaming procedure on this wire. */
    function Yielded(call: Call, y: Yield): Wire {
      if terminated then this
      else
        var w := Enqueue(Frame(ResponseFrame, call, y.terminator, y.bytes));
        if y.terminator.Complete? then w.(ongoing := ongoing - {call}) else w
    }

    function YieldResult(): Result<()> {
      if terminated then Err(WireTerminated) else Ok(())
    }

    function YieldedAll(call: Call, ys: seq<Yield>): Wire
      decreases |ys|
    {
      if ys == [] then this else Yielded(call, ys[0]).YieldedAll(call, ys[1..])
    }
  }

  function NewWire(id: nat, cfg: Config, moduleStyle: bool, max: nat): Wire {
    Wire(id, cfg, moduleStyle, [], map[], map[], {}, max, map[], false)
  }

  datatype Outcome<+T> = Outcome(store: Store, wire: Wire, result: Result<T>)

  // --- Calling ---

  function StartPartial(s: Store, w: Wire, procedure: nat, args: Bytes): Outcome<nat>
    requires s.Valid()
  {
    if w.CanCall().Err? then Outcome(s, w, Err(w.CanCall().error))
    else if args == [] then Outcome(s, w, Err(ZeroLengthInNonTerminating))
    else
      Outcome(s.Push(),
              w.Started(procedure, s.messageIds.Next()).Enqueue(Frame(CallFrame, w.NextCall(procedure), None, args)),
              Ok(w.NextIndex(procedure)))
  }

  /** The result is the response index of the new call handle. */
  function OneShot(s: Store, w: Wire, procedure: nat, args: Bytes): Outcome<nat>
    requires s.Valid()
  {
    if w.CanCall().Err? then Outcome(s, w, Err(w.CanCall().error))
    else
      var id := s.messageIds.Next();
      Outcome(s.Push(),
              w.Started(procedure, id).Enqueue(Frame(CallFrame, w.NextCall(procedure), Complete, args))
               .WithHandle(id, |s.locks|),
              Ok(id))
  }

  function Continue(s: Store, w: Wire, call: Call, args: Bytes): Outcome<()> {
    if w.CanCall().Err? then Outcome(s, w, w.CanCall())
    else if args == [] then Outcome(s, w, Err(ZeroLengthInNonTerminating))
    else Outcome(s, w.Enqueue(Frame(CallFrame, call, None, args)), Ok(()))
  }

  /** The message is queued before the response index is looked up. */
  function End(s: Store, w: Wire, call: Call): Outcome<nat>
    requires call in w.responses ==> w.responses[call] in s.messages
  {
    if w.CanCall().Err? then Outcome(s, w, Err(w.CanCall().error))
    else
      var w1 := w.Enqueue(Frame(CallFrame, call, Complete, []));
      if call !in w.responses then Outcome(s, w1, Err(NoResponseBuffer(call)))
      else
        var id := w.responses[call];
        Outcome(s, w1.WithHandle(id, s.messages[id].lock), Ok(id))
  }

  // --- Receiving ---

  predicate OverLimit(w: Wire, call: Call) {
    call !in w.ongoing && |w.ongoing| >= w.max
  }

  /** A `Call` frame. One over the limit is dropped without an answer. */
  function ReceiveCall(procedures: Procedures, s: Store, w: Wire, call: Call, t: Terminator, bytes: Bytes)
    : Outcome<Option<bool>>
    requires s.Valid()
  {
    if OverLimit(w, call) then Outcome(s, w, Ok(Some(false)))
    else
      var key := Key(call, w.id);
      var s1 := s.GetCallBuffer(key);
      GetCallBufferKeeps(s, key);
      AcceptCall(procedures, s1, w.(ongoing := w.ongoing + {call}), call, t, bytes)
  }

  /** The frame's buffer exists by now. */
  function AcceptCall(procedures: Procedures, s: Store, w: Wire, call: Call, t: Terminator, bytes: Bytes)
    : Outcome<Option<bool>>
    requires s.Valid() && Key(call, w.id) in s.calls
  {
    var id := s.calls[Key(call, w.id)];
    if s.Accepts(id).Err? then Outcome(s, w, Err(s.Accepts(id).error))
    else
      var s1 := s.SendMany(bytes, id);
      SendManyKeeps(s, bytes, id);
      if !t.Complete? then Outcome(s1, w, Ok(Some(false)))
      else
        var s2 := s1.TerminateMessage(id);
        TerminateMessageKeeps(s1, id);
        RunCall(procedures, s2, w, call)
  }

  /** The arguments are complete: the procedure runs, and a standard one answers at once. An error leaves the call
      among the ongoing ones. */
  function RunCall(procedures: Procedures, s: Store, w: Wire, call: Call): Outcome<Option<bool>>
    requires s.Valid() && Key(call, w.id) in s.calls
  {
    var c := s.CallProcedure(procedures, Key(call, w.id));
    var w1 := w.YieldedAll(call, c.yielded);
    match c.result
    case Err(e) => Outcome(c.store, w1, Err(e))
    case Ok(Nothing) => Outcome(c.store, w1, Ok(Some(true)))
    case Ok(Some(ret)) =>
      var w2 := w1.Enqueue(Frame(ResponseFrame, call, Complete, ret));
      Outcome(c.store, w2.(ongoing := w2.ongoing - {call}), Ok(Some(true)))
  }

  /** A `Response` frame. It reaches the one buffer that this wire set aside for the call, or none. */
  function ReceiveResponse(s: Store, w: Wire, call: Call, t: Terminator, bytes: Bytes): Outcome<Option<bool>>
    requires s.Valid()
  {
    if call !in w.responses then Outcome(s, w, Err(NoResponseBuffer(call)))
    else
      var id := w.responses[call];
      if s.Accepts(id).Err? then Outcome(s, w, Err(s.Accepts(id).error))
      else
        var s1 := s.SendMany(bytes, id);
        SendManyKeeps(s, bytes, id);
        match t
        case Complete => Outcome(s1.TerminateMessage(id), w.(responses := w.responses - {call}), Ok(Some(true)))
        case Chunk => Outcome(s1.TerminateChunk(id), w, Ok(Some(false)))
        case None => Outcome(s1, w, Ok(Some(false)))
  }

  // --- Termination ---

  /** `order` is an order in which a set can be visited. */
  ghost predicate Lists<T(!new)>(order: seq<T>, s: set<T>) {
    && (forall i, j :: 0 <= i < j < |order| ==> order[i] != order[j])
    && (forall x :: x in order <==> x in s)
  }

  function DropCalls(s: Store, wire: nat, order: seq<Call>): (t: Store)
    requires s.Valid()
    ensures t.Valid()
    decreases |order|
  {
    if order == [] then s
    else
      DropAssociatedKeeps(s, Key(order[0], wire));
      DropCalls(s.DropAssociated(Key(order[0], wire)), wire, order[1..])
  }

  lemma DropAssociatedKeeps(s: Store, key: Key)
    requires s.Valid()
    ensures s.DropAssociated(key).Valid()
  {
    if key in s.calls {
      PopKeeps(s, s.calls[key]);
    }
  }

  /** Dropping calls decides no lock and makes none. */
  lemma {:induction false} DropCallsLocks(s: Store, wire: nat, order: seq<Call>)
    requires s.Valid()
    ensures DropCalls(s, wire, order).locks == s.locks
    decreases |order|
  {
    if order != [] {
      DropAssociatedKeeps(s, Key(order[0], wire));
      DropCallsLocks(s.DropAssociated(Key(order[0], wire)), wire, order[1..]);
    }
  }

  lemma {:induction false} DropCallsIff(s: Store, wire: nat, order: seq<Call>, key: Key)
    requires s.Valid()
    ensures key in DropCalls(s, wire, order).calls <==> key in s.calls && !(key.wire == wire && key.call in order)
    decreases |order|
  {
    if order != [] {
      DropAssociatedKeeps(s, Key(order[0], wire));
      DropCallsIff(s.DropAssociated(Key(order[0], wire)), wire, order[1..], key);
    }
  }

  /** Poison reaches the incomplete ones among the given locks. */
  function PoisonAll(s: Store, locks: set<nat>): Store {
    s.(locks := seq(|s.locks|, l requires 0 <= l < |s.locks| =>
         if l in locks && s.locks[l].Incomplete? then Poisoned else s.locks[l]))
  }

  function MarkTerminated(s: Store, w: Wire, order: seq<Call>): (Store, Wire)
    requires s.Valid()
  {
    (PoisonAll(DropCalls(s, w.id, order), w.idle.Values), w.(terminated := true))
  }

  // --- One message, and many ---

  /** What a wire that is not terminated does with a message. `order` is the order in which a termination visits the
      ongoing calls. `None` in the result stops the caller. */
  function Handle(procedures: Procedures, s: Store, w: Wire, m: Message, order: seq<Call>): Outcome<Option<bool>>
    requires s.Valid()
  {
    match m
    case Frame(CallFrame, call, t, bytes) => ReceiveCall(procedures, s, w, call, t, bytes)
    case Frame(ResponseFrame, call, t, bytes) => ReceiveResponse(s, w, call, t, bytes)
    case EndOfInput => Outcome(s, w, Ok(Nothing))
    case Termination =>
      var (s1, w1) := MarkTerminated(s, w, order);
      Outcome(s1, w1, Ok(Nothing))
    case Unhandled(_) => Outcome(s, w, Ok(Some(false)))
  }

  /** `receive_one` on the bytes a reader has left. */
  function ReceiveOne(procedures: Procedures, s: Store, w: Wire, input: Bytes, order: seq<Call>): Outcome<Option<bool>>
    requires s.Valid()
  {
    if w.terminated then Outcome(s, w, Err(WireTerminated))
    else
      match Parse(w.cfg, w.moduleStyle, input)
      case Eof => Outcome(s, w, Err(UnexpectedEof))
      case Bad(e, _) => Outcome(s, w, Err(e))
      case Got(m, _) => Handle(procedures, s, w, m, order)
  }

  /** `rest` are the bytes left in the reader, unless it ran out of bytes in the middle of a message. */
  datatype Filled = Filled(store: Store, wire: Wire, result: Result<()>, rest: Bytes)

  /** `fill` on the bytes a reader has left. */
  function Fill(procedures: Procedures, s: Store, w: Wire, input: Bytes, order: seq<Call>): Filled
    requires s.Valid() && w.cfg.Valid()
  {
    if w.terminated then Filled(s, w, Err(WireTerminated), input) else FillLoop(procedures, s, w, input, order)
  }

  /** An end-of-file terminates the wire; any other error is passed on and leaves it as it is. */
  function FillLoop(procedures: Procedures, s: Store, w: Wire, input: Bytes, order: seq<Call>): Filled
    requires s.Valid() && w.cfg.Valid()
    decreases |input|
  {
    match Parse(w.cfg, w.moduleStyle, input)
    case Eof =>
      var (s1, w1) := MarkTerminated(s, w, order);
      Filled(s1, w1, Err(UnexpectedEof), [])
    case Bad(e, after) => Filled(s, w, Err(e), after)
    case Got(m, rest) =>
      HandleKeeps(procedures, s, w, m, order);
      ReadingProgresses(w.cfg, w.moduleStyle, input);
      var o := Handle(procedures, s, w, m, order);
      match o.result
      case Ok(Nothing) => Filled(o.store, o.wire, Ok(()), rest)
      case Ok(Some(_)) => FillLoop(procedures, o.store, o.wire, rest, order)
      case Err(UnexpectedEof) =>
        var (s1, w1) := MarkTerminated(o.store, o.wire, order);
        Filled(s1, w1, Err(UnexpectedEof), rest)
      case Err(e) => Filled(o.store, o.wire, Err(e), rest)
  }

  /** The bytes a reader has left after one message. */
  function RestOf(r: Parsed): Bytes {
    match r
    case Eof => []
    case Bad(_, after) => after
    case Got(_, rest) => rest
  }

  /** `fill` as rounds of `receive_one`. Only a round that stops `fill` depends on the order. */
  lemma FillStep(procedures: Procedures, s: Store, w: Wire, input: Bytes, order: seq<Call>, other: seq<Call>)
    requires s.Valid() && w.cfg.Valid() && !w.terminated
    ensures var (o, p) := (ReceiveOne(procedures, s, w, input, order), Parse(w.cfg, w.moduleStyle, input));
            && o.store.Valid() && SameSetup(w, o.wire) && (o.wire.terminated ==> o.result == Ok(Nothing))
            && (o.result.Ok? ==> p.Got?)
            && match o.result
               case Ok(Nothing) =>
                 FillLoop(procedures, s, w, input, order) == Filled(o.store, o.wire, Ok(()), RestOf(p))
               case Ok(Some(_)) =>
                 FillLoop(procedures, s, w, input, other) == FillLoop(procedures, o.store, o.wire, RestOf(p), other)
               case Err(UnexpectedEof) =>
                 var (s1, w1) := MarkTerminated(o.store, o.wire, other);
                 FillLoop(procedures, s, w, input, other) == Filled(s1, w1, Err(UnexpectedEof), RestOf(p))
               case Err(e) =>
                 && p != Eof
                 && FillLoop(procedures, s, w, input, other) == Filled(o.store, o.wire, Err(e), RestOf(p))
  {
    hide Parse, ReceiveCall, ReceiveResponse, MarkTerminated, Store.Valid;
    match Parse(w.cfg, w.moduleStyle, input)
    case Got(m, _) =>
      HandleKeeps(procedures, s, w, m, order);
      assert m.Termination? || Handle(procedures, s, w, m, order) == Handle(procedures, s, w, m, other);
    case _ =>
  }

  // --- Every operation keeps the store valid ---

  lemma PoisonAllKeeps(s: Store, locks: set<nat>)
    requires s.Valid()
    ensures PoisonAll(s, locks).Valid()
  {
  }

  lemma ExecuteKeeps(s: Store, procedures: Procedures, procedure: nat, id: nat)
    requires s.Valid()
    ensures s.Execute(procedures, procedure, id).store.Valid()
  {
    PopKeeps(s, id);
  }

  lemma RunCallKeeps(procedures: Procedures, s: Store, w: Wire, call: Call)
    requires s.Valid() && Key(call, w.id) in s.calls
    ensures var o := RunCall(procedures, s, w, call);
            o.store.Valid() && SameSetup(w, o.wire) && o.wire.terminated == w.terminated
  {
    hide Store.Execute;
    var key := Key(call, w.id);
    var t := s.(calls := s.calls - {key});
    assert t.Valid();
    hide Store.Valid;
    YieldedAllKeeps(w, call, s.CallProcedure(procedures, key).yielded);
    ExecuteKeeps(t, procedures, call.procedure, s.calls[key]);
  }

  lemma AcceptCallKeeps(procedures: Procedures, s: Store, w: Wire, call: Call, t: Terminator, bytes: Bytes)
    requires s.Valid() && Key(call, w.id) in s.calls
    ensures var o := AcceptCall(procedures, s, w, call, t, bytes);
            o.store.Valid() && SameSetup(w, o.wire) && o.wire.terminated == w.terminated
  {
    hide Store.Valid;
    var id := s.calls[Key(call, w.id)];
    SendManyKeeps(s, bytes, id);
    var s1 := s.SendMany(bytes, id);
    if s.Accepts(id).Ok? && t.Complete? {
      TerminateMessageKeeps(s1, id);
      RunCallKeeps(procedures, s1.TerminateMessage(id), w, call);
    }
  }

  lemma ReceiveCallKeeps(procedures: Procedures, s: Store, w: Wire, call: Call, t: Terminator, bytes: Bytes)
    requires s.Valid()
    ensures var o := ReceiveCall(procedures, s, w, call, t, bytes);
            o.store.Valid() && SameSetup(w, o.wire) && o.wire.terminated == w.terminated
  {
    hide Store.Valid;
    GetCallBufferKeeps(s, Key(call, w.id));
    if !OverLimit(w, call) {
      AcceptCallKeeps(procedures, s.GetCallBuffer(Key(call, w.id)), w.(ongoing := w.ongoing + {call}), call, t, bytes);
    }
  }

  lemma ReceiveResponseKeeps(s: Store, w: Wire, call: Call, t: Terminator, bytes: Bytes)
    requires s.Valid()
    ensures ReceiveResponse(s, w, call, t, bytes).store.Valid()
  {
    if call in w.responses {
      var id := w.responses[call];
      SendManyKeeps(s, bytes, id);
      TerminateMessageKeeps(s.SendMany(bytes, id), id);
      TerminateChunkKeeps(s.SendMany(bytes, id), id);
    }
  }

  /** What no message changes about a wire. */
  predicate SameSetup(w: Wire, v: Wire) {
    w.id == v.id && w.cfg == v.cfg && w.moduleStyle == v.moduleStyle && w.max == v.max
  }

  lemma {:induction false} YieldedAllKeeps(w: Wire, call: Call, ys: seq<Yield>)
    ensures var v := w.YieldedAll(call, ys);
            && SameSetup(w, v) && v.terminated == w.terminated
            && v.counters == w.counters && v.responses == w.responses && v.idle == w.idle
            && v.ongoing <= w.ongoing <= v.ongoing + {call}
    decreases |ys|
  {
    if ys != [] {
      YieldedAllKeeps(w.Yielded(call, ys[0]), call, ys[1..]);
    }
  }

  lemma HandleKeeps(procedures: Procedures, s: Store, w: Wire, m: Message, order: seq<Call>)
    requires s.Valid()
    ensures Handle(procedures, s, w, m, order).store.Valid()
    ensures SameSetup(w, Handle(procedures, s, w, m, order).wire)
    ensures Handle(procedures, s, w, m, order).wire.terminated == (w.terminated || m.Termination?)
  {
    hide Store.Valid;
    match m
    case Frame(CallFrame, call, t, bytes) => ReceiveCallKeeps(procedures, s, w, call, t, bytes);
    case Frame(ResponseFrame, call, t, bytes) => ReceiveResponseKeeps(s, w, call, t, bytes);
    case Termination => PoisonAllKeeps(DropCalls(s, w.id, order), w.idle.Values);
    case _ =>
  }
}
