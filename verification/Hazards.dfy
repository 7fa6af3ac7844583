/** Where the code does less than one might expect of it, and exactly when. */
module Hazards {
  import opened Types
  import opened RoiQueues
  import opened Stores
  import opened WireFormat
  import opened Wires
  import opened Hosts
  import opened HostCalls
  import opened HostResponses
  import opened HostRuns
  import opened HostEffects
  import opened Traces

  /** `call_procedure` takes the mapping away before it can fail. The buffer of a complete call is left without an
      owner exactly when the procedure is unknown or its streaming closure fails. */
  lemma LeftBehindIff(procedures: Procedures, s: Store, key: Key)
    requires s.Valid() && key in s.calls && s.calls[key] in s.messages && s.LockOf(s.calls[key]).Completed?
    ensures var (id, c) := (s.calls[key], s.CallProcedure(procedures, key));
            && key !in c.store.calls
            && (id in c.store.messages <==>
                  || key.call.procedure !in procedures
                  || (procedures[key.call.procedure].Streaming?
                      && procedures[key.call.procedure].start(s.messages[id].chunks[0]).result.Err?))
  {
    var (id, t) := (s.calls[key], s.(calls := s.calls - {key}));
    CallsAreFree(s, s.calls - {key});
    ExecuteEffect(procedures, t, key.call.procedure, id);
    PopEffect(t, id);
    hide Store.Valid, Store.Pop, Store.Execute;
  }

  // --- Frames over the limit ---

  lemma StandardAnswered(procedures: Procedures, x: Wire, d: Call, args: Bytes)
    requires d.procedure in procedures && procedures[d.procedure].Standard? && procedures[d.procedure].run(args).Ok?
    ensures var ex := Execute(procedures, d.procedure, args);
            Answered(x, d, ex).ongoing == x.ongoing - {d} && Answered(x, d, ex).max == x.max
  {
  }

  /** A standard procedure that runs gives the identifier of its arguments back. */
  lemma AdmitRoom(procedures: Procedures, h: Host, w: nat, call: Call, bytes: Bytes)
    requires Inv(h) && w in h.wires && !h.wires[w].terminated
    requires Key(call, w) in h.store.calls && call.procedure in procedures && procedures[call.procedure].Standard?
    ensures Room(Admit(procedures, h, w, call, Complete, bytes))
  {
    hide MessagesInv, MapsInv, GathersAt, Store.Valid, Store.SendMany, Answered, Replies, Consumed;
    var key := Key(call, w);
    InvValid(h);
    AdmitKeeps(procedures, h, w, call, bytes);
    var h2 := Accumulate(EnsureBuffer(h, w, call), key, bytes);
    InvValid(h2);
    OneChunk(h2.store, key);
    ConsumedRoom(h2, key);
  }

  lemma ConsumedRoom(h: Host, key: Key)
    requires Inv(h) && key in h.store.calls && h.store.calls[key] in h.store.messages && h.store.Valid()
    ensures var t := Consumed(h.store, key, false); |t.messages| < t.messageIds.limit
  {
    hide States, Decided, Registered, WaitersFit, MapsInv;
    CompleteKeeps(h.store, h.store.calls[key]);
    var (m, id) := (h.store.messages, h.store.calls[key]);
    CallsAreFree(h.store.Complete(id), h.store.calls - {key});
    PopEffect(h.store.Complete(id).(calls := h.store.calls - {key}), id);
    hide Store.Valid, Store.Pop;
    assert (m - {id}).Keys == m.Keys - {id};
  }

  /** The frame that a host receives is one of a call of wire `w`. */
  function CallPiece(w: nat, call: Call, t: Terminator, bytes: Bytes): Step {
    Receive(w, Frame(CallFrame, call, t, bytes), [])
  }

  /** What a call has gathered, and whether it would be let through. */
  ghost predicate Stands(h: Host, w: nat, c: Call, args: Option<Bytes>, ongoing: bool) {
    && Inv(h) && h.store.Valid() && w in h.wires && !h.wires[w].terminated && w in h.outbox
    && |h.wires[w].ongoing| <= h.wires[w].max
    && ArgsOf(h.store, Key(c, w)) == args && (c in h.wires[w].ongoing <==> ongoing)
  }

  /** Another call of the wire gathers arguments and is ongoing. */
  ghost predicate Gathers(h: Host, w: nat, d: Call) {
    w in h.wires && d in h.wires[w].ongoing && Key(d, w) in h.store.calls
  }

  lemma FirstOfTwo(procedures: Procedures, h: Host, w: nat, c: Call, args: Option<Bytes>, a: Bytes, d: Call)
    requires Stands(h, w, c, args, false) && Room(h) && c != d && Gathers(h, w, d)
    ensures Enabled(h, CallPiece(w, c, None, a))
    ensures var (g, over) := (Next(procedures, h, CallPiece(w, c, None, a)), OverLimit(h.wires[w], c));
            && Stands(g, w, c, if over then args else Some(OrEmpty(args) + a), !over)
            && Gathers(g, w, d) && ArgsOf(g.store, Key(d, w)) == ArgsOf(h.store, Key(d, w))
            && (over ==> g == h)
  {
    hide MessagesInv, MapsInv, Store.Valid, Admit, ArgsOf, SameResponses, Room;
    StepKeeps(procedures, h, CallPiece(w, c, None, a));
    if !OverLimit(h.wires[w], c) {
      AdmitArgs(procedures, h, w, c, None, a);
      var g := Admit(procedures, h, w, c, None, a);
      OtherArg(h.store, g.store, Key(c, w), Key(d, w));
      GathersOne(h, Key(d, w));
      HasArgs(g.store, Key(d, w));
    }
  }

  lemma HasArgs(s: Store, key: Key)
    requires s.Valid() && ArgsOf(s, key).Some?
    ensures key in s.calls
  {
  }

  lemma MiddleOfTwo(procedures: Procedures, h: Host, w: nat, c: Call, args: Option<Bytes>, ongoing: bool, d: Call,
                    x: Bytes)
    requires Stands(h, w, c, args, ongoing) && c != d && Gathers(h, w, d)
    requires d.procedure in procedures && procedures[d.procedure].Standard?
    requires procedures[d.procedure].run(OrEmpty(ArgsOf(h.store, Key(d, w))) + x).Ok?
    ensures Enabled(h, CallPiece(w, d, Complete, x))
    ensures var g := Next(procedures, h, CallPiece(w, d, Complete, x));
            && Stands(g, w, c, args, ongoing) && Room(g) && !OverLimit(g.wires[w], c)
  {
    hide MessagesInv, MapsInv, Store.Valid, Admit, ArgsOf, SameResponses, Answered, Execute, Replies, Room;
    GathersThere(h, Key(d, w));
    StepKeeps(procedures, h, CallPiece(w, d, Complete, x));
    AdmitArgs(procedures, h, w, d, Complete, x);
    AdmittedWire(procedures, h, w, d, Complete, x);
    AdmitRoom(procedures, h, w, d, x);
    var (g, all) := (Admit(procedures, h, w, d, Complete, x), OrEmpty(ArgsOf(h.store, Key(d, w))) + x);
    StandardYieldsNothing(procedures, d.procedure, all);
    StandardAnswered(procedures, h.wires[w].(ongoing := h.wires[w].ongoing + {d}), d, all);
    OtherArg(h.store, g.store, Key(d, w), Key(c, w));
    assert h.wires[w].ongoing + {d} == h.wires[w].ongoing;
    assert |h.wires[w].ongoing - {d}| == |h.wires[w].ongoing| - 1;
  }

  lemma StandardYieldsNothing(procedures: Procedures, procedure: nat, args: Bytes)
    requires procedure in procedures && procedures[procedure].Standard?
    ensures !YieldsOn(procedures, procedure, Execute(procedures, procedure, args))
  {
  }

  lemma LastOfTwo(procedures: Procedures, h: Host, w: nat, c: Call, args: Option<Bytes>, ongoing: bool, b: Bytes)
    requires Stands(h, w, c, args, ongoing) && Room(h) && !OverLimit(h.wires[w], c)
    ensures Enabled(h, CallPiece(w, c, Complete, b))
    ensures var g := Next(procedures, h, CallPiece(w, c, Complete, b));
            w in g.outbox
            && g.outbox[w] == h.outbox[w] + Replies(c, Execute(procedures, c.procedure, OrEmpty(args) + b))
  {
    hide MessagesInv, MapsInv, Store.Valid, Admit, ArgsOf, SameResponses, SameOtherArgs, Answered, Execute, Replies;
    hide Room;
    AdmitArgs(procedures, h, w, c, Complete, b);
  }

  /** A frame over the limit is dropped without a trace. Of two frames `a` and `b` of a call, between which the last
      frame of another call makes room, the procedure gets only `b`, behind what the call had before, exactly if the
      wire was full when `a` came. */
  lemma LimitTruncatesIff(procedures: Procedures, h: Host, w: nat, c: Call, a: Bytes, b: Bytes, d: Call, x: Bytes)
    requires Inv(h) && w in h.wires && !h.wires[w].terminated && c != d && Room(h)
    requires |h.wires[w].ongoing| <= h.wires[w].max && c !in h.wires[w].ongoing
    requires Gathers(h, w, d) && d.procedure in procedures && procedures[d.procedure].Standard?
    requires h.store.Valid() && procedures[d.procedure].run(OrEmpty(ArgsOf(h.store, Key(d, w))) + x).Ok?
    ensures Enabled(h, CallPiece(w, c, None, a))
    ensures var h1 := Next(procedures, h, CallPiece(w, c, None, a));
            && Inv(h1) && h1.store.Valid() && Enabled(h1, CallPiece(w, d, Complete, x))
            && var h2 := Next(procedures, h1, CallPiece(w, d, Complete, x));
            && Inv(h2) && h2.store.Valid() && Enabled(h2, CallPiece(w, c, Complete, b))
            && var h3 := Next(procedures, h2, CallPiece(w, c, Complete, b));
            && w in h2.outbox && w in h3.outbox
            && var args := OrEmpty(ArgsOf(h.store, Key(c, w))) + if OverLimit(h.wires[w], c) then b else a + b;
            && h3.outbox[w] == h2.outbox[w] + Replies(c, Execute(procedures, c.procedure, args))
  {
    hide Inv, Store.Valid, Next, Enabled, ArgsOf, Execute, Replies, Room;
    var (over, before) := (OverLimit(h.wires[w], c), ArgsOf(h.store, Key(c, w)));
    var args := if over then before else Some(OrEmpty(before) + a);
    WireFacts(h, w);
    FirstOfTwo(procedures, h, w, c, before, a, d);
    var h1 := Next(procedures, h, CallPiece(w, c, None, a));
    MiddleOfTwo(procedures, h1, w, c, args, !over, d, x);
    var h2 := Next(procedures, h1, CallPiece(w, d, Complete, x));
    LastOfTwo(procedures, h2, w, c, args, !over, b);
    assert OrEmpty(before) + a + b == OrEmpty(before) + (a + b);
  }

  // --- Arguments that outlive their wire ---

  /** Termination drops the argument buffers of the wire's ongoing calls, and no others: those of the wire's other
      calls stay, as do those of other wires. */
  lemma TerminationDropsIff(s: Store, w: Wire, order: seq<Call>, key: Key)
    requires s.Valid() && Lists(order, w.ongoing)
    ensures key in MarkTerminated(s, w, order).0.calls
            <==> key in s.calls && !(key.wire == w.id && key.call in w.ongoing)
  {
    DropCallsIff(s, w.id, order, key);
    hide Store.Valid, DropCalls;
  }

  /** A streaming procedure that yields its arguments back as one piece. */
  function EchoStream(): Procedures {
    map[0 := Streaming((args: Bytes) => Started([Yield(args, None)], Ok(())))]
  }

  /** A call of procedure 0 is ended and starts to stream; a frame with `x` comes for the same call; the stream
      completes; the wire is dropped; the next wire gets the same identifier, and its peer makes its first call, with
      `y`. The procedure gets `x + y`. */
  lemma NextWireInherits(width: Width, cfg: Config, x: Bytes, y: Bytes)
    ensures var (p, c, s0) := (EchoStream(), Call(0, 0), EmptyStore(width));
            var s1 := s0.(wireIds := s0.wireIds.Taken());
            && s1.Valid()
            && var r2 := ReceiveCall(p, s1, NewWire(s0.wireIds.Next(), cfg, false, 10), c, Complete, []);
            && r2.store.Valid() && r2.result == Ok(Some(true))
            && var r3 := ReceiveCall(p, r2.store, r2.wire, c, None, x);
            && r3.store.Valid() && r3.result == Ok(Some(false))
            && var w4 := r3.wire.Yielded(c, Yield([], Complete));
            && Lists([], w4.ongoing)
            && var s5 := MarkTerminated(r3.store, w4, []).0;
            && var s6 := s5.(wireIds := s5.wireIds.Returned(w4.id));
            && s6.wireIds.Next() == w4.id
            && var s7 := s6.(wireIds := s6.wireIds.Taken());
            && s7.Valid()
            && ReceiveCall(p, s7, NewWire(s6.wireIds.Next(), cfg, false, 10), c, Complete, y).wire.queue
               == [Encode(cfg, Frame(ResponseFrame, c, None, x + y))]
  {
    hide Encode, ReceiveCall, Store.Valid, MarkTerminated;
    var (p, c, s0) := (EchoStream(), Call(0, 0), EmptyStore(width));
    var s1 := s0.(wireIds := s0.wireIds.Taken());
    var w := NewWire(0, cfg, false, 10);
    EchoFirst(width, cfg);
    var r2 := ReceiveCall(p, s1, w, c, Complete, []);
    EchoStale(width.Limit(), r2.store, r2.wire, x);
    var r3 := ReceiveCall(p, r2.store, r2.wire, c, None, x);
    EchoStored(r3.store);
    var w4 := r3.wire.Yielded(c, Yield([], Complete));
    assert w4.ongoing == {};
    NothingToTerminate(r3.store, w4);
    var s7 := r3.store.(wireIds := r3.store.wireIds.Returned(0).Taken());
    EchoInherited(s7, w, x, y);
  }

  lemma EchoStored(s: Store)
    requires |s.messages| == 1 && 0 in s.messages && |s.messages[0].chunks| == 1 && s.messages[0].lock == 1
    requires s.messages.Keys == {0} && s.messages[0].sender.NoSender? && s.locks == [Completed, Incomplete]
    ensures s.Valid()
  {
  }

  lemma NothingToTerminate(s: Store, w: Wire)
    requires s.Valid() && w.idle == map[]
    ensures MarkTerminated(s, w, []) == (s, w.(terminated := true))
  {
    assert w.idle.Values == {};
    assert PoisonAll(s, {}).locks == s.locks;
  }

  lemma EchoFirst(width: Width, cfg: Config)
    ensures var s0 := EmptyStore(width);
            var s1 := s0.(wireIds := s0.wireIds.Taken());
            && s1.Valid()
            && var r := ReceiveCall(EchoStream(), s1, NewWire(0, cfg, false, 10), Call(0, 0), Complete, []);
            && r.store == Store(map[], Roi(width.Limit(), 1, [0]), map[], s1.wireIds, [Completed], [])
            && r.wire.ongoing == {Call(0, 0)} && r.wire.id == 0 && r.wire.max == 10 && !r.wire.terminated
            && r.wire.idle == map[] && r.wire.cfg == cfg && r.result == Ok(Some(true))
  {
    hide Encode, AcceptCall, Consumed, Execute, Answered, GathersAt, Store.GetCallBuffer, Store.SendMany, Store.Valid;
    var (s0, key, c) := (EmptyStore(width), Key(Call(0, 0), 0), Call(0, 0));
    var s1 := s0.(wireIds := s0.wireIds.Taken());
    EchoBuffer(width);
    var s2 := s1.GetCallBuffer(key);
    var x := NewWire(0, cfg, false, 10).(ongoing := {c});
    var none: Bytes := [];
    assert s2.calls[key] == 0 && s2.messages[0].chunks[0] == none && none + none == none;
    AcceptCallEffect(EchoStream(), s2, x, c, Complete, none);
    EchoConsumed(s2);
    EchoAnswered(x);
    assert NewWire(0, cfg, false, 10).ongoing + {c} == {c};
  }

  lemma EchoBuffer(width: Width)
    ensures var s0 := EmptyStore(width);
            var s1 := s0.(wireIds := s0.wireIds.Taken());
            && s1.Valid()
            && var s2 := s1.GetCallBuffer(Key(Call(0, 0), 0));
            && s2.Valid() && GathersAt(s2, Key(Call(0, 0), 0))
            && s2 == Store(map[0 := Buffer([[]], 0, NoSender)], Roi(width.Limit(), 1, []), map[Key(Call(0, 0), 0) := 0],
                           s1.wireIds, [Incomplete], [])
  {
  }

  lemma EchoConsumed(s: Store)
    requires s.messages == map[0 := Buffer([[]], 0, NoSender)] && s.calls == map[Key(Call(0, 0), 0) := 0]
    requires s.locks == [Incomplete] && s.messageIds.relinquished == [] && s.channels == []
    ensures s.Valid() && s.SendMany([], 0).Valid() && s.SendMany([], 0).calls == s.calls
    ensures var t := s.SendMany([], 0);
            && 0 in t.messages
            && Consumed(t, Key(Call(0, 0), 0), false)
               == Store(map[], s.messageIds.(relinquished := [0]), map[], s.wireIds, [Completed], [])
  {
    hide Store.Pop;
    EchoStoreValid(s);
    NothingSent(s, 0);
    CompleteKeeps(s, 0);
    var t := s.Complete(0).(calls := s.calls - {Key(Call(0, 0), 0)});
    CallsAreFree(s.Complete(0), s.calls - {Key(Call(0, 0), 0)});
    assert t == Store(s.messages, s.messageIds, map[], s.wireIds, [Completed], []);
    EchoPopped(t);
    hide Store.Valid, Store.SendMany;
  }

  lemma EchoStoreValid(s: Store)
    requires s.messages == map[0 := Buffer([[]], 0, NoSender)] && |s.locks| == 1
    ensures s.Valid()
  {
  }

  lemma NothingSent(s: Store, id: nat)
    requires s.Valid()
    ensures s.SendMany([], id) == s
  {
    if s.Accepts(id).Ok? {
      var b := s.messages[id];
      assert Last(b.chunks) + [] == Last(b.chunks);
      assert Extend(b.chunks, []) == b.chunks;
    }
  }

  lemma EchoPopped(s: Store)
    requires s.Valid() && s.messages == map[0 := Buffer([[]], 0, NoSender)] && s.messageIds.relinquished == []
    ensures s.Pop(0) == s.(messages := map[], messageIds := s.messageIds.(relinquished := [0]))
  {
    assert s.messages - {0} == map[];
    assert s.messageIds.relinquished + [0] == [0];
  }

  lemma EchoAnswered(x: Wire)
    requires x.ongoing == {Call(0, 0)} && !x.terminated
    ensures var (ex, c) := (Execute(EchoStream(), 0, []), Call(0, 0));
            && ex == Execution(Ok(Nothing), [Yield([], None)], false)
            && Answered(x, c, ex) == x.Enqueue(Frame(ResponseFrame, c, None, []))
  {
    hide Encode;
    var (c, ys) := (Call(0, 0), [Yield([], None)]);
    assert ys[1..] == [];
    assert x.YieldedAll(c, ys) == x.Yielded(c, ys[0]).YieldedAll(c, []);
  }

  lemma EchoStale(limit: nat, s: Store, w: Wire, x: Bytes)
    requires limit > 1 && s.messages == map[] && s.messageIds == Roi(limit, 1, [0]) && s.calls == map[]
    requires s.locks == [Completed] && s.channels == []
    requires w.ongoing == {Call(0, 0)} && w.id == 0 && !w.terminated
    ensures s.Valid()
    ensures var r := ReceiveCall(EchoStream(), s, w, Call(0, 0), None, x);
            && r.store == Store(map[0 := Buffer([x], 1, NoSender)], Roi(limit, 1, []), map[Key(Call(0, 0), 0) := 0],
                                s.wireIds, [Completed, Incomplete], [])
            && r.wire == w && r.result == Ok(Some(false))
  {
    var c := Call(0, 0);
    assert w.ongoing + {c} == w.ongoing && w.(ongoing := w.ongoing) == w;
    assert [] + x == x;
  }

  lemma EchoInherited(s: Store, w: Wire, x: Bytes, y: Bytes)
    requires s.messages == map[0 := Buffer([x], 1, NoSender)] && s.calls == map[Key(Call(0, 0), 0) := 0]
    requires s.locks == [Completed, Incomplete]
    requires w.ongoing == {} && w.max == 10 && w.id == 0 && !w.terminated && w.queue == []
    ensures s.Valid()
    ensures ReceiveCall(EchoStream(), s, w, Call(0, 0), Complete, y).wire.queue
            == [Encode(w.cfg, Frame(ResponseFrame, Call(0, 0), None, x + y))]
  {
    hide Encode;
    var (c, v) := (Call(0, 0), w.(ongoing := w.ongoing + {Call(0, 0)}));
    AcceptCallEffect(EchoStream(), s, v, c, Complete, y);
    var ys := [Yield(x + y, None)];
    assert ys[1..] == [];
    assert v.YieldedAll(c, ys) == v.Yielded(c, ys[0]).YieldedAll(c, []);
  }

  /** A lock is decided after a termination exactly when it was registered, or decided already. */
  lemma PoisonedIff(s: Store, w: Wire, order: seq<Call>, lock: nat)
    requires s.Valid() && lock < |s.locks|
    ensures var t := MarkTerminated(s, w, order).0;
            && |t.locks| == |s.locks|
            && (!t.locks[lock].Incomplete? <==> lock in w.idle.Values || !s.locks[lock].Incomplete?)
  {
    DropCallsLocks(s, w.id, order);
    hide Store.Valid, DropCalls;
  }

  // --- Handles struck off ---

  /** Striking `id` off the list of idle handles leaves a waiting handle to wait for ever, should the wire terminate,
      exactly if `id` is what that handle is registered under. */
  lemma StruckOffIff(s: Store, w: Wire, order: seq<Call>, id: nat, waiting: nat)
    requires s.Valid() && waiting in w.idle && w.idle[waiting] < |s.locks| && s.locks[w.idle[waiting]].Incomplete?
    requires forall i :: i in w.idle && w.idle[i] == w.idle[waiting] ==> i == waiting
    ensures var t := MarkTerminated(s, w.(idle := w.idle - {id}), order).0;
            |t.locks| == |s.locks| && (t.locks[w.idle[waiting]].Incomplete? <==> id == waiting)
  {
    hide Store.Valid, MarkTerminated;
    var x := w.(idle := w.idle - {id});
    PoisonedIff(s, x, order, w.idle[waiting]);
    if id != waiting {
      assert waiting in x.idle && x.idle[waiting] in x.idle.Values;
    }
  }

  /** A streamed response is completed while it is listened to, so that its identifier is free again; then a new call
      is made; then the old stream is struck off, and the wire terminates. The new handle waits for ever exactly if no
      other identifier was free. */
  lemma StrikingOffMayHitAnother(s: Store, w: Wire, id: nat, procedure: nat, args: Bytes, order: seq<Call>)
    requires s.Valid() && s.Accepts(id).Ok? && s.Streams(s.messages[id]) && s.messageIds.Accounts(s.messages.Keys)
    requires w.CanCall().Ok? && forall i :: i in w.idle ==> w.idle[i] < |s.locks|
    ensures s.TerminateMessage(id).Valid()
    ensures var o := OneShot(s.TerminateMessage(id), w, procedure, args);
            && o.result.Ok? && o.store.Valid()
            && o.result.value in o.store.messages && o.store.messages[o.result.value].lock == |s.locks|
            && var t := MarkTerminated(o.store, o.wire.(idle := o.wire.idle - {id}), order).0;
            |t.locks| == |s.locks| + 1 && (t.locks[|s.locks|].Incomplete? <==> s.messageIds.relinquished == [])
  {
    StreamCompleted(s, id);
    hide Store.TerminateMessage, Store.Streams, Roi.Accounts;
    var t := s.TerminateMessage(id);
    RecycledNext(s.messageIds, s.messages.Keys, id);
    PushKeeps(t);
    PushEffect(t);
    hide Store.Valid, Encode, Store.Push, MarkTerminated;
    var o := OneShot(t, w, procedure, args);
    StruckOffIff(o.store, o.wire, order, id, o.result.value);
  }

  lemma StreamCompleted(s: Store, id: nat)
    requires s.Valid() && s.Accepts(id).Ok? && s.Streams(s.messages[id])
    ensures var t := s.TerminateMessage(id);
            && t.Valid() && t.messages == s.messages - {id} && t.messageIds == s.messageIds.Returned(id)
            && |t.locks| == |s.locks|
  {
    TerminateMessageKeeps(s, id);
    AcceptedMessage(s, id);
    SettledLock(s, id);
    FinishStreamEffect(s.Complete(id), id);
    hide Store.Valid, Store.FinishStream;
  }

  lemma AcceptedMessage(s: Store, id: nat)
    requires s.Valid() && s.Accepts(id).Ok? && s.Streams(s.messages[id])
    ensures s.Complete(id).Valid() && s.Complete(id).messages == s.messages && s.messages[id].sender.Sender?
    ensures s.Complete(id).Streams(s.messages[id]) && s.Complete(id).messageIds == s.messageIds
  {
    CompleteKeeps(s, id);
  }

  lemma RecycledNext(q: Roi, live: set<nat>, id: nat)
    requires q.Accounts(live) && id in live
    ensures q.Returned(id).Next() !in live - {id} && (q.Returned(id).Next() == id <==> q.relinquished == [])
  {
    if q.relinquished != [] {
      assert q.Returned(id).Next() == q.relinquished[0];
    }
  }

  // --- Pieces after the last one ---

  /** A response piece that comes after the one that completed the response is an error at the caller, which changes
      nothing but stops whoever reads the wire. */
  lemma PieceAfterLastIsError(s: Store, w: Wire, call: Call, last: Bytes, t: Terminator, more: Bytes)
    requires s.Valid() && call in w.responses && s.Accepts(w.responses[call]).Ok?
    ensures var o := ReceiveResponse(s, w, call, Complete, last);
            && o.result == Ok(Some(true)) && o.store.Valid()
            && ReceiveResponse(o.store, o.wire, call, t, more) == Outcome(o.store, o.wire, Err(NoResponseBuffer(call)))
  {
    ReceiveResponseKeeps(s, w, call, Complete, last);
    hide Store.Valid, Store.SendMany, Store.TerminateMessage;
  }
}
