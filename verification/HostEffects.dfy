/** What the steps that are about a wire's own calls do, in terms of what each call has been sent so far. */
module HostEffects {
  import opened Types
  import opened RoiQueues
  import opened Stores
  import opened Chunks
  import opened Wires
  import opened Hosts
  import opened HostCalls
  import opened HostResponses
  import opened HostSteps
  import opened HostRuns
  import opened HostContents

  /** The argument bytes gathered so far for a call that has not run yet. */
  function ArgsOf(s: Store, key: Key): Option<Bytes>
    requires s.Valid()
  {
    if key in s.calls && s.calls[key] in s.messages then Some(Content(s, s.calls[key])[0]) else Nothing
  }

  function OrEmpty(o: Option<Bytes>): Bytes {
    if o.Some? then o.value else []
  }

  /** Calls other than `key` have the arguments they had. */
  ghost predicate SameOtherArgs(s: Store, t: Store, key: Key) {
    s.Valid() && t.Valid() && forall k :: k != key ==> ArgsOf(t, k) == ArgsOf(s, k)
  }

  /** Responses, complete or not, belong to whom they did and say what they said; none has come. */
  ghost predicate SameResponses(h: Host, g: Host) {
    && h.store.Valid() && g.store.Valid()
    && forall id :: id in g.owner && (g.owner[id].Response? || g.owner[id].Finished?) ==>
         && id in h.owner && h.owner[id] == g.owner[id]
         && id in h.store.messages && id in g.store.messages && Content(g.store, id) == Content(h.store, id)
  }

  lemma SameOtherArgsTwice(s: Store, t: Store, u: Store, key: Key)
    requires SameOtherArgs(s, t, key) && SameOtherArgs(t, u, key)
    ensures SameOtherArgs(s, u, key)
  {
    hide Store.Valid, ArgsOf;
  }

  lemma SameResponsesTwice(h: Host, g: Host, k: Host)
    requires SameResponses(h, g) && SameResponses(g, k)
    ensures SameResponses(h, k)
  {
    hide Store.Valid, Content;
  }

  /** Only message `id` has changed, or come, or gone; it gathers the arguments of `key` and nothing else does. */
  lemma OneArgument(h: Host, g: Host, key: Key, id: nat)
    requires Preserves(h.store, g.store, {id}) && ArgumentsOwned(h.store.calls, h.owner)
    requires h.owner.Keys == h.store.messages.Keys && g.owner.Keys == g.store.messages.Keys
    requires id in h.owner ==> h.owner[id] == Argument(key)
    requires g.owner in {h.owner, h.owner[id := Argument(key)], h.owner[id := Orphan], h.owner - {id}}
    requires g.store.calls - {key} == h.store.calls - {key}
    ensures SameOtherArgs(h.store, g.store, key) && SameResponses(h, g)
  {
    hide Store.Valid, Content;
    forall k | k != key ensures ArgsOf(g.store, k) == ArgsOf(h.store, k) {
      assert k in g.store.calls - {key} <==> k in h.store.calls - {key};
      if k in h.store.calls {
        assert (g.store.calls - {key})[k] == (h.store.calls - {key})[k];
        assert h.owner[h.store.calls[k]] == Argument(k);
      }
    }
  }

  lemma Arguments(h: Host)
    requires Inv(h)
    ensures ArgumentsOwned(h.store.calls, h.owner)
  {
  }

  lemma GathersOne(h: Host, key: Key)
    requires Inv(h) && key in h.store.calls
    ensures h.store.Valid() && h.store.calls[key] in h.store.messages
    ensures Content(h.store, h.store.calls[key]) == h.store.messages[h.store.calls[key]].chunks
    ensures |Content(h.store, h.store.calls[key])| == 1
    ensures ArgsOf(h.store, key) == Some(h.store.messages[h.store.calls[key]].chunks[0])
  {
    hide Decided, Registered, WaitersFit, Roi.Accounts, ResponsesOwned, StreamsKnown, Queued, WireIds;
  }

  /** A call has arguments exactly if there is a mapping for it. */
  lemma HasBuffer(h: Host, key: Key)
    requires Inv(h)
    ensures h.store.Valid() && (key in h.store.calls <==> ArgsOf(h.store, key).Some?)
  {
    hide MessagesInv, MapsInv, Content;
    InvValid(h);
    if key in h.store.calls {
      GathersThere(h, key);
    }
  }

  lemma EnsureBufferArgs(h: Host, w: nat, call: Call)
    requires Inv(h) && w in h.wires && Inv(EnsureBuffer(h, w, call)) && (Key(call, w) in h.store.calls || Room(h))
    ensures var (g, key) := (EnsureBuffer(h, w, call), Key(call, w));
            && h.store.Valid() && g.store.Valid()
            && ArgsOf(g.store, key) == Some(OrEmpty(ArgsOf(h.store, key)))
            && SameOtherArgs(h.store, g.store, key) && SameResponses(h, g)
  {
    hide MessagesInv, MapsInv, Store.Push, Content, Store.Valid, ArgumentsOwned, ArgsOf, SameOtherArgs, SameResponses;
    Owned(h);
    var (g, key) := (EnsureBuffer(h, w, call), Key(call, w));
    Owned(g);
    if key in h.store.calls {
      Arguments(h);
      GathersOne(h, key);
      GathersThere(h, key);
      OthersPreserve(h.store, h.store);
      OneArgument(h, g, key, h.store.calls[key]);
    } else {
      NewBufferArgs(h, w, call);
    }
  }

  lemma NewBufferArgs(h: Host, w: nat, call: Call)
    requires Inv(h) && w in h.wires && Inv(EnsureBuffer(h, w, call)) && Key(call, w) !in h.store.calls && Room(h)
    ensures var (g, key) := (EnsureBuffer(h, w, call), Key(call, w));
            && h.store.Valid() && g.store.Valid()
            && ArgsOf(h.store, key) == Nothing && ArgsOf(g.store, key) == Some([])
            && SameOtherArgs(h.store, g.store, key) && SameResponses(h, g)
  {
    hide MessagesInv, MapsInv, Store.Push, Content, Store.Valid, ArgumentsOwned, SameOtherArgs, SameResponses;
    hide EnsureBuffer, Preserves;
    Owned(h);
    Arguments(h);
    var (g, id, key) := (EnsureBuffer(h, w, call), h.store.messageIds.Next(), Key(call, w));
    Owned(g);
    FreshId(h);
    NewBufferShape(h, w, call);
    FreshContent(g.store, id);
    SameCallsWithout(h.store.calls, key, id);
    OneArgument(h, g, key, id);
  }

  lemma SameCallsWithout(calls: map<Key, nat>, key: Key, id: nat)
    ensures calls[key := id] - {key} == calls - {key}
  {
  }

  lemma NewBufferShape(h: Host, w: nat, call: Call)
    requires Inv(h) && w in h.wires && Inv(EnsureBuffer(h, w, call)) && Key(call, w) !in h.store.calls && Room(h)
    ensures var (g, id, key) := (EnsureBuffer(h, w, call), h.store.messageIds.Next(), Key(call, w));
            && h.store.Valid() && g.store.Valid() && Preserves(h.store, g.store, {id})
            && g.store.calls == h.store.calls[key := id] && g.owner == h.owner[id := Argument(key)]
            && id in g.store.messages && g.store.messages[id] == Fresh(h.store)
  {
    hide MessagesInv, MapsInv, Store.Push, Content, Store.Valid;
    Owned(h);
    var g := EnsureBuffer(h, w, call);
    Owned(g);
    FreshId(h);
    PushPreserves(h.store);
    PushEffect(h.store);
    CallsPreserve(h.store, h.store.Push(), g.store);
  }

  lemma FreshContent(s: Store, id: nat)
    requires s.Valid() && id in s.messages && s.messages[id].chunks == [[]] && s.messages[id].sender.NoSender?
    ensures Content(s, id) == [[]]
  {
  }

  lemma AccumulateArgs(h: Host, key: Key, bytes: Bytes)
    requires Inv(h) && key in h.store.calls
    ensures var g := Accumulate(h, key, bytes);
            && h.store.Valid() && g.store.Valid() && ArgsOf(h.store, key).Some?
            && ArgsOf(g.store, key) == Some(ArgsOf(h.store, key).value + bytes)
            && SameOtherArgs(h.store, g.store, key) && SameResponses(h, g)
  {
    hide MessagesInv, MapsInv, Content, Store.Valid, ArgumentsOwned, Store.SendMany, GathersAt, ArgsOf;
    Owned(h);
    Arguments(h);
    var (g, id) := (Accumulate(h, key, bytes), h.store.calls[key]);
    AccumulateKeeps(h, key, bytes);
    AccumulateCalls(h, key, bytes);
    Owned(g);
    GathersOne(h, key);
    GathersOne(g, key);
    GathersThere(h, key);
    SendManyPreserves(h.store, bytes, id);
    OneArgument(h, g, key, id);
  }

  lemma ConsumeArgs(procedures: Procedures, h: Host, key: Key)
    requires Inv(h) && key in h.store.calls && key.wire in h.wires && !h.wires[key.wire].terminated
    ensures GathersAt(h.store, key) && h.store.messages[h.store.calls[key]].chunks != []
    ensures key.wire in h.outbox
    ensures var g := Consume(procedures, h, key);
            && h.store.Valid() && g.store.Valid()
            && ArgsOf(h.store, key) == Some(h.store.messages[h.store.calls[key]].chunks[0])
            && ArgsOf(g.store, key) == Nothing
            && SameOtherArgs(h.store, g.store, key) && SameResponses(h, g)
  {
    hide MessagesInv, MapsInv, Content, Store.Valid, Consumed, Answered, Execute, Replies, GathersAt, ArgumentsOwned;
    Owned(h);
    Arguments(h);
    GathersThere(h, key);
    OneChunk(h.store, key);
    GathersOne(h, key);
    ConsumeKeeps(procedures, h, key);
    var (g, id) := (Consume(procedures, h, key), h.store.calls[key]);
    Owned(g);
    var ex := Execute(procedures, key.call.procedure, h.store.messages[id].chunks[0]);
    ConsumedPreserves(h.store, key, ex.kept);
    OneArgument(h, g, key, id);
  }

  /** What a frame of a call that is let through does: the arguments of this call grow by the bytes of the frame, or,
      with the last frame, are handed to the procedure all together. */
  lemma AdmitArgs(procedures: Procedures, h: Host, w: nat, call: Call, t: Terminator, bytes: Bytes)
    requires Inv(h) && w in h.wires && !h.wires[w].terminated && w in h.outbox
    requires Key(call, w) in h.store.calls || Room(h)
    ensures var (g, key) := (Admit(procedures, h, w, call, t, bytes), Key(call, w));
            && h.store.Valid() && g.store.Valid()
            && SameOtherArgs(h.store, g.store, key) && SameResponses(h, g)
            && var args := OrEmpty(ArgsOf(h.store, key)) + bytes;
            var x := h.wires[w].(ongoing := h.wires[w].ongoing + {call});
            if !t.Complete? then
              && ArgsOf(g.store, key) == Some(args)
              && g.wires == h.wires[w := x] && g.streamed == h.streamed && g.outbox == h.outbox
            else
              var ex := Execute(procedures, call.procedure, args);
              && ArgsOf(g.store, key) == Nothing
              && g.wires == h.wires[w := Answered(x, call, ex)]
              && g.streamed == h.streamed + (if YieldsOn(procedures, call.procedure, ex) then {key} else {})
              && g.outbox == h.outbox[w := h.outbox[w] + Replies(call, ex)]
  {
    hide MessagesInv, MapsInv, GathersAt, ArgsOf, SameOtherArgs, SameResponses, Store.Valid, Answered, Execute, Replies;
    hide Consumed, Store.SendMany, Store.Push;
    var key := Key(call, w);
    InvValid(h);
    AdmitKeeps(procedures, h, w, call, bytes);
    var h1 := EnsureBuffer(h, w, call);
    EnsureBufferArgs(h, w, call);
    AccumulateArgs(h1, key, bytes);
    var h2 := Accumulate(h1, key, bytes);
    SameOtherArgsTwice(h.store, h1.store, h2.store, key);
    SameResponsesTwice(h, h1, h2);
    if t.Complete? {
      AccumulateCalls(h1, key, bytes);
      EnsureBufferThere(h, w, call);
      ConsumeArgs(procedures, h2, key);
      GathersOne(h2, key);
      var g := Consume(procedures, h2, key);
      SameOtherArgsTwice(h.store, h2.store, g.store, key);
      SameResponsesTwice(h, h2, g);
      WiresTwice(h.wires, w, h1.wires[w], g.wires[w]);
    }
  }

  lemma WiresTwice(wires: Wiring, w: nat, x: Wire, y: Wire)
    ensures wires[w := x][w := y] == wires[w := y]
  {
  }

  // --- Responses ---

  /** A response frame is written onto the response buffer of its call. */
  lemma RespondContent(h: Host, w: nat, call: Call, t: Terminator, bytes: Bytes)
    requires Inv(h) && w in h.wires && call in h.wires[w].responses
    ensures h.store.Valid() && h.wires[w].responses[call] in h.store.messages
    ensures var (g, id) := (Respond(h, w, call, t, bytes), h.wires[w].responses[call]);
            && g.store.Valid() && (!t.Complete? ==> id in g.store.messages)
            && (id in g.store.messages ==> Content(g.store, id) == Gathered(Content(h.store, id), Yield(bytes, t)))
  {
    hide MessagesInv, MapsInv, Content, Store.Valid, Store.SendMany, Store.TerminateChunk, Store.FinishStream, Extend;
    AwaitsThere(h, w, call);
    InvValid(h);
    RespondKeeps(h, w, call, t, bytes);
    InvValid(Respond(h, w, call, t, bytes));
    var (id, s1) := (h.wires[w].responses[call], h.store.SendMany(bytes, h.wires[w].responses[call]));
    SendManyThere(h.store, bytes, id);
    SendManyContent(h.store, bytes, id);
    match t
    case None =>
    case Chunk => TerminateChunkContent(s1, id);
    case Complete => FinishContent(h.(store := s1), w, call);
  }

  lemma FinishContent(h: Host, w: nat, call: Call)
    requires h.store.Valid() && w in h.wires && call in h.wires[w].responses
    requires h.wires[w].responses[call] in h.store.messages
    ensures var (g, id) := (Finish(h, w, call), h.wires[w].responses[call]);
            && g.store.Valid() && (id in g.store.messages ==> Content(g.store, id) == Content(h.store, id))
  {
    hide Content, Store.Valid, Store.FinishStream;
    var id := h.wires[w].responses[call];
    SettledLock(h.store, id);
    CompletePreserves(h.store, id);
    CompleteMessages(h.store, id);
    if h.store.messages[id].sender.Sender? {
      FinishStreamPreserves(h.store.Complete(id), id);
    }
  }

  /** A call that begins has an empty response, and no other call of the wire notices. */
  lemma BeginContent(h: Host, w: nat, procedure: nat, t: Terminator, args: Bytes)
    requires Inv(h) && w in h.wires && w in h.outbox && CanBegin(h, w, procedure) && h.wires[w].CanCall().Ok?
    ensures h.store.Valid()
    ensures var (g, id) := (Begin(h, w, procedure, t, args), h.store.messageIds.Next());
            && Undisturbed(h, g, w, {id}) && SameArguments(h, g, w)
            && g.owner == h.owner[id := Response(w, h.wires[w].NextCall(procedure))]
            && id in g.store.messages && Content(g.store, id) == [[]]
  {
    hide MessagesInv, MapsInv, Content, Store.Push, Store.Valid;
    Owned(h);
    var (g, id) := (Begin(h, w, procedure, t, args), h.store.messageIds.Next());
    BeginKeeps(h, w, procedure, t, args);
    Owned(g);
    PushPreserves(h.store);
    PushEffect(h.store);
    FreshContent(g.store, id);
  }
}
