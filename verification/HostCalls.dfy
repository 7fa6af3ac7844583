/** A call frame at a host, seen as what it means: a buffer is made, bytes are added to it, and a complete call takes
    the buffer away, runs, and answers. */
module HostCalls {
  import opened Types
  import opened RoiQueues
  import opened Stores
  import opened WireFormat
  import opened Wires
  import opened Hosts

  /** What running a procedure on its arguments comes to. A `kept` buffer is left behind. */
  datatype Execution = Execution(result: Result<Option<Bytes>>, yielded: seq<Yield>, kept: bool)

  function Execute(procedures: Procedures, procedure: nat, args: Bytes): Execution {
    if procedure !in procedures then Execution(Err(NoSuchProcedure(procedure)), [], true)
    else
      match procedures[procedure]
      case Standard(run) =>
        (match run(args)
         case Ok(value) => Execution(Ok(Some(value)), [], false)
         case Err(e) => Execution(Err(e), [], false))
      case Streaming(start) =>
        var started := start(args);
        if started.result.Ok? then Execution(Ok(Nothing), started.yielded, false)
        else Execution(Err(started.result.error), started.yielded, true)
  }

  /** The frames that answer a call straight away. */
  function Replies(call: Call, ex: Execution): seq<Message> {
    ReplyEach(call, ex.yielded) + (match ex.result
                                   case Ok(Some(ret)) => [Frame(ResponseFrame, call, Complete, ret)]
                                   case _ => [])
  }

  function ReplyEach(call: Call, ys: seq<Yield>): seq<Message> {
    seq(|ys|, i requires 0 <= i < |ys| => Frame(ResponseFrame, call, ys[i].terminator, ys[i].bytes))
  }

  function Answered(w: Wire, call: Call, ex: Execution): Wire {
    var w1 := w.YieldedAll(call, ex.yielded);
    match ex.result
    case Ok(Some(ret)) =>
      var w2 := w1.Enqueue(Frame(ResponseFrame, call, Complete, ret));
      w2.(ongoing := w2.ongoing - {call})
    case _ => w1
  }

  function AnswerResult(ex: Execution): Result<Option<bool>> {
    match ex.result
    case Err(e) => Err(e)
    case Ok(_) => Ok(Some(true))
  }

  /** The store once the arguments of `key` have been used. */
  function Consumed(s: Store, key: Key, kept: bool): Store
    requires s.Valid() && key in s.calls && s.calls[key] in s.messages
  {
    var id := s.calls[key];
    CompleteKeeps(s, id);
    var t := s.Complete(id).(calls := s.calls - {key});
    if kept then t else t.Pop(id)
  }

  predicate GathersAt(s: Store, key: Key)
    requires s.Valid()
  {
    && key in s.calls && s.calls[key] in s.messages
    && StateFits(s.messages[s.calls[key]], s.LockOf(s.calls[key]), Argument(key))
  }

  /** The code that runs a complete call, as one change to the store, one to the wire, and a result. */
  lemma RunCallEffect(procedures: Procedures, s: Store, w: Wire, call: Call)
    requires s.Valid() && GathersAt(s, Key(call, w.id))
    ensures var key := Key(call, w.id);
            var (id, t) := (s.calls[key], s.TerminateMessage(s.calls[key]));
            && t.Valid() && t.calls == s.calls
            && var ex := Execute(procedures, call.procedure, s.messages[id].chunks[0]);
            RunCall(procedures, t, w, call)
            == Outcome(Consumed(s, key, ex.kept), Answered(w, call, ex), AnswerResult(ex))
  {
    var key := Key(call, w.id);
    var id := s.calls[key];
    CompleteKeeps(s, id);
    var t := s.Complete(id);
    assert s.TerminateMessage(id) == t;
    ExecuteEffect(procedures, t.(calls := t.calls - {key}), call.procedure, id);
    hide Store.Valid, Store.TerminateMessage, Store.Execute;
  }

  lemma ExecuteEffect(procedures: Procedures, s: Store, procedure: nat, id: nat)
    requires s.Valid() && id in s.messages && s.LockOf(id).Completed?
    ensures var ex := Execute(procedures, procedure, s.messages[id].chunks[0]);
            s.Execute(procedures, procedure, id) == Called(if ex.kept then s else s.Pop(id), ex.result, ex.yielded)
  {
  }

  lemma AcceptCallEffect(procedures: Procedures, s: Store, w: Wire, call: Call, t: Terminator, bytes: Bytes)
    requires s.Valid() && GathersAt(s, Key(call, w.id))
    ensures var key := Key(call, w.id);
            var s1 := s.SendMany(bytes, s.calls[key]);
            && s1.Valid() && GathersAt(s1, key) && s1.calls == s.calls
            && s1.messages[s.calls[key]].chunks == [s.messages[s.calls[key]].chunks[0] + bytes]
            && AcceptCall(procedures, s, w, call, t, bytes)
               == if !t.Complete? then Outcome(s1, w, Ok(Some(false)))
                  else
                    var ex := Execute(procedures, call.procedure, s.messages[s.calls[key]].chunks[0] + bytes);
                    Outcome(Consumed(s1, key, ex.kept), Answered(w, call, ex), AnswerResult(ex))
  {
    var key := Key(call, w.id);
    var id := s.calls[key];
    SendManyKeeps(s, bytes, id);
    var s1 := s.SendMany(bytes, id);
    assert s.Accepts(id).Ok?;
    assert s1.messages[id].chunks == [s.messages[id].chunks[0] + bytes];
    RunCallEffect(procedures, s1, w, call);
    hide Store.Valid, RunCall, Store.TerminateMessage, Consumed, Answered;
  }

  // --- The same at a host ---

  function EnsureBuffer(h: Host, w: nat, call: Call): Host
    requires h.store.Valid() && w in h.wires
  {
    var wire := h.wires[w];
    var g := if Key(call, w) in h.store.calls then h
             else
               var added := Add(h, Argument(Key(call, w)));
               added.(store := added.store.(calls := h.store.calls[Key(call, w) := h.store.messageIds.Next()]));
    g.(wires := h.wires[w := wire.(ongoing := wire.ongoing + {call})])
  }

  /** Bytes arrive for a call whose buffer is there. */
  function Accumulate(h: Host, key: Key, bytes: Bytes): Host
    requires h.store.Valid() && key in h.store.calls
  {
    h.(store := h.store.SendMany(bytes, h.store.calls[key]))
  }

  predicate Streams(procedures: Procedures, procedure: nat) {
    procedure in procedures && procedures[procedure].Streaming?
  }

  /** Some piece completes the response. */
  predicate Completes(ys: seq<Yield>)
    decreases |ys|
  {
    ys != [] && (ys[0].terminator.Complete? || Completes(ys[1..]))
  }

  /** A streaming closure has been started and may yield on: it has not completed its response. */
  predicate YieldsOn(procedures: Procedures, procedure: nat, ex: Execution) {
    Streams(procedures, procedure) && !Completes(ex.yielded)
  }

  /** A call whose arguments are complete runs. */
  function Consume(procedures: Procedures, h: Host, key: Key): Host
    requires h.store.Valid() && key in h.store.calls && key.wire in h.wires && key.wire in h.outbox
    requires h.store.calls[key] in h.store.messages && h.store.messages[h.store.calls[key]].chunks != []
  {
    var id := h.store.calls[key];
    var ex := Execute(procedures, key.call.procedure, h.store.messages[id].chunks[0]);
    h.(store := Consumed(h.store, key, ex.kept),
       wires := h.wires[key.wire := Answered(h.wires[key.wire], key.call, ex)],
       owner := if ex.kept then h.owner[id := Orphan] else h.owner - {id},
       streamed := h.streamed + if YieldsOn(procedures, key.call.procedure, ex) then {key} else {},
       outbox := h.outbox[key.wire := h.outbox[key.wire] + Replies(key.call, ex)])
  }

  lemma EnsureBufferKeeps(h: Host, w: nat, call: Call)
    requires Inv(h) && w in h.wires
    requires Key(call, w) !in h.store.calls ==> |h.store.messages| < h.store.messageIds.limit
    ensures Inv(EnsureBuffer(h, w, call))
  {
    hide Store.Valid, Roi.Accounts, States, Decided, Registered, WaitersFit, ArgumentsOwned, ResponsesOwned, Queued;
    var (key, wire) := (Key(call, w), h.wires[w]);
    var x := wire.(ongoing := wire.ongoing + {call});
    WireChanges(h, w, x);
    if key !in h.store.calls {
      AddArgumentKeeps(h.(wires := h.wires[w := x]), key);
    }
  }

  lemma AddArgumentKeeps(h: Host, key: Key)
    requires Inv(h) && key !in h.store.calls && |h.store.messages| < h.store.messageIds.limit
    ensures var g := Add(h, Argument(key));
            Inv(g.(store := g.store.(calls := h.store.calls[key := h.store.messageIds.Next()])))
  {
    hide Store.Valid, Roi.Accounts, States, Decided, Registered, WaitersFit, ArgumentsOwned, ResponsesOwned, Queued;
    hide StreamsKnown, Store.Push;
    var id := h.store.messageIds.Next();
    AddKeeps(h, Argument(key));
    OwnersLive(h);
    PushEffect(h.store);
    ArgumentAdded(h.store.calls, h.owner, key, id);
    NoResponse(h.wires, h.owner, id, Argument(key));
    var g := Add(h, Argument(key));
    CallsAreFree(g.store, h.store.calls[key := id]);
  }

  /** No validity depends on the argument map. */
  lemma CallsAreFree(s: Store, calls: map<Key, nat>)
    requires s.Valid()
    ensures s.(calls := calls).Valid()
  {
  }

  lemma AccumulateKeeps(h: Host, key: Key, bytes: Bytes)
    requires Inv(h) && key in h.store.calls
    ensures Inv(Accumulate(h, key, bytes)) && GathersAt(h.store, key) && GathersAt(Accumulate(h, key, bytes).store, key)
    ensures h.store.messages[h.store.calls[key]].chunks != []
    ensures Accumulate(h, key, bytes).store.messages[h.store.calls[key]].chunks
            == [h.store.messages[h.store.calls[key]].chunks[0] + bytes]
  {
    var id := h.store.calls[key];
    var t := h.store.SendMany(bytes, id);
    GathersThere(h, key);
    SendManyKeeps(h.store, bytes, id);
    assert t.messages[id].chunks == [h.store.messages[id].chunks[0] + bytes];
    hide Store.Valid, Roi.Accounts, States, Decided, Registered, WaitersFit, ArgumentsOwned, ResponsesOwned;
    hide StreamsKnown;
    RewrittenKeeps(h, t, id);
  }

  lemma GathersThere(h: Host, key: Key)
    requires Inv(h) && key in h.store.calls
    ensures h.store.calls[key] in h.owner && h.owner[h.store.calls[key]] == Argument(key)
    ensures GathersAt(h.store, key) && h.store.calls[key] !in h.handles
  {
  }

  lemma OneChunk(s: Store, key: Key)
    requires s.Valid() && GathersAt(s, key)
    ensures key in s.calls && s.calls[key] in s.messages && s.messages[s.calls[key]].chunks != []
  {
  }

  // --- Answers ---

  lemma {:induction false} YieldedAllQueue(w: Wire, call: Call, ys: seq<Yield>)
    requires !w.terminated
    ensures w.YieldedAll(call, ys).queue == w.queue + EncodeEach(w.cfg, ReplyEach(call, ys))
    decreases |ys|
  {
    hide Encode, EncodeEach, ReplyEach;
    RepliesUnfold(w.cfg, call, ys);
    if ys != [] {
      var v := w.Yielded(call, ys[0]);
      YieldedAllQueue(v, call, ys[1..]);
      var b := Encode(w.cfg, Frame(ResponseFrame, call, ys[0].terminator, ys[0].bytes));
      var later := EncodeEach(w.cfg, ReplyEach(call, ys[1..]));
      assert w.queue + [b] + later == w.queue + ([b] + later);
    }
  }

  lemma RepliesUnfold(cfg: Config, call: Call, ys: seq<Yield>)
    ensures ys == [] ==> EncodeEach(cfg, ReplyEach(call, ys)) == []
    ensures ys != [] ==>
              EncodeEach(cfg, ReplyEach(call, ys))
              == [Encode(cfg, Frame(ResponseFrame, call, ys[0].terminator, ys[0].bytes))]
                 + EncodeEach(cfg, ReplyEach(call, ys[1..]))
  {
    hide Encode;
  }

  lemma EncodeEachAppend(cfg: Config, a: seq<Message>, b: seq<Message>)
    ensures EncodeEach(cfg, a + b) == EncodeEach(cfg, a) + EncodeEach(cfg, b)
  {
  }

  /** An answer changes the queue, by the replies, and may take the call off the ongoing ones. */
  lemma AnsweredEffect(w: Wire, call: Call, ex: Execution)
    requires !w.terminated
    ensures var x := Answered(w, call, ex);
            && SameSetup(w, x) && !x.terminated && x.counters == w.counters && x.responses == w.responses
            && x.idle == w.idle && w.ongoing - {call} <= x.ongoing <= w.ongoing
            && x.queue == w.queue + EncodeEach(w.cfg, Replies(call, ex))
  {
    hide Encode;
    YieldedAllKeeps(w, call, ex.yielded);
    YieldedAllQueue(w, call, ex.yielded);
    EncodeEachAppend(w.cfg, ReplyEach(call, ex.yielded), Replies(call, ex)[|ex.yielded|..]);
    match ex.result
    case Ok(Some(ret)) =>
      var m := Frame(ResponseFrame, call, Complete, ret);
      assert Replies(call, ex)[|ex.yielded|..] == [m];
      assert EncodeEach(w.cfg, [m]) == [Encode(w.cfg, m)];
    case _ =>
      assert Replies(call, ex) == ReplyEach(call, ex.yielded);
  }

  lemma ConsumeKeeps(procedures: Procedures, h: Host, key: Key)
    requires Inv(h) && key in h.store.calls && key.wire in h.wires && !h.wires[key.wire].terminated
    ensures GathersAt(h.store, key) && key.wire in h.outbox
    ensures Inv(Consume(procedures, h, key))
  {
    hide MessagesInv, MapsInv, Store.Valid, Answered, Replies, Consumed, Execute, YieldsOn, StateFits, Store.LockOf;
    GathersThere(h, key);
    InvParts(h, key.wire);
    InvValid(h);
    OneChunk(h.store, key);
    var id := h.store.calls[key];
    var ex := Execute(procedures, key.call.procedure, h.store.messages[id].chunks[0]);
    var wire := h.wires[key.wire];
    var x := Answered(wire, key.call, ex);
    AnsweredEffect(wire, key.call, ex);
    ConsumeMessages(h, key, ex.kept);
    var (s1, owner1) := (Consumed(h.store, key, ex.kept), if ex.kept then h.owner[id := Orphan] else h.owner - {id});
    ConsumedMaps(h.store, key, ex.kept);
    ConsumeMaps(h, Consume(procedures, h, key), key, x, Replies(key.call, ex));
    WireKeepsMessages(h.(store := s1, owner := owner1), key.wire, x);
    SameMessages(h.(store := s1, owner := owner1, wires := h.wires[key.wire := x]), Consume(procedures, h, key));
  }

  lemma ConsumedMaps(s: Store, key: Key, kept: bool)
    requires s.Valid() && GathersAt(s, key)
    ensures Consumed(s, key, kept).calls == s.calls - {key} && Consumed(s, key, kept).wireIds == s.wireIds
  {
    CompleteKeeps(s, s.calls[key]);
  }

  lemma ConsumeMaps(h: Host, g: Host, key: Key, x: Wire, more: seq<Message>)
    requires MapsInv(h) && key in h.store.calls && key.wire in h.wires && key.wire in h.outbox
    requires h.store.calls[key] in h.owner && h.owner[h.store.calls[key]] == Argument(key)
    requires g.store.calls == h.store.calls - {key} && g.store.wireIds == h.store.wireIds
    requires g.owner in {h.owner[h.store.calls[key] := Orphan], h.owner - {h.store.calls[key]}}
    requires g.wires == h.wires[key.wire := x] && h.streamed <= g.streamed <= h.streamed + {key}
    requires g.outbox == h.outbox[key.wire := h.outbox[key.wire] + more]
    requires SameSetup(h.wires[key.wire], x) && x.responses == h.wires[key.wire].responses
    requires x.queue == h.wires[key.wire].queue + EncodeEach(x.cfg, more)
    ensures MapsInv(g)
  {
    hide Roi.Accounts, ResponsesOwned, Queued, ArgumentsOwned, EncodeEach;
    var id := h.store.calls[key];
    ArgumentTaken(h.store.calls, h.owner, key);
    NoResponse(h.wires, h.owner, id, Orphan);
    WireResponses(h.wires, g.owner, key.wire, x);
    assert StreamsKnown(g.wires.Keys, g.streamed);
    WireQueued(h.wires, h.outbox, key.wire, x, more);
    assert g.wires.Keys == h.wires.Keys;
  }

  lemma SameMessages(h: Host, g: Host)
    requires MessagesInv(h) && g.store == h.store && g.wires == h.wires && g.owner == h.owner && g.handles == h.handles
    ensures MessagesInv(g)
  {
  }

  lemma ConsumeMessages(h: Host, key: Key, kept: bool)
    requires Inv(h) && key in h.store.calls && GathersAt(h.store, key)
    ensures var id := h.store.calls[key];
            MessagesInv(h.(store := Consumed(h.store, key, kept),
                           owner := if kept then h.owner[id := Orphan] else h.owner - {id}))
  {
    hide Roi.Accounts, States, Decided, Registered, WaitersFit, ArgumentsOwned, ResponsesOwned, StreamsKnown, Queued;
    GathersThere(h, key);
    var id := h.store.calls[key];
    SettleKeeps(h, id, Orphan);
    var g := Settle(h, id, Orphan);
    var g1 := g.(store := g.store.(calls := h.store.calls - {key}));
    CallsAreFree(g.store, h.store.calls - {key});
    hide Store.Valid;
    if !kept {
      RemoveKeeps(g1, id);
      assert g1.owner - {id} == h.owner - {id};
    }
  }
}
