/** What operations report to whoever calls them, and what is left when they report an error. */
module Outcomes {
  import opened Types
  import opened Stores
  import opened Chunks
  import opened WireFormat
  import opened Wires
  import opened Hosts
  import opened HostCalls
  import opened HostResponses
  import opened HostRuns
  import opened HostEffects
  import opened HostCode
  import opened Traces
  import opened Piecemeal

  // --- Bytes one at a time ---

  /** `send` byte by byte, with what the last one reported. */
  function SendEach(s: Store, data: Bytes, id: nat): (r: (Store, Result<bool>))
    requires s.Valid() && forall i :: 0 <= i < |data| ==> data[i] < 128
    ensures r.0.Valid()
    decreases |data|
  {
    if data == [] then (s, Ok(true))
    else
      SendKeeps(s, data[0], id);
      var (t, r) := s.Send(data[0], id);
      if r == Ok(true) then SendEach(t, data[1..], id) else (t, r)
  }

  lemma SendKeeps(s: Store, datum: int, id: nat)
    requires s.Valid() && -128 <= datum < 128
    ensures s.Send(datum, id).0.Valid()
  {
    if datum >= 0 {
      SendManyKeeps(s, [datum], id);
    }
  }

  /** Bytes sent one by one are bytes sent at once. The reports are that the message is open. */
  lemma {:induction false} SendEachIsSendMany(s: Store, data: Bytes, id: nat)
    requires s.Valid() && s.Accepts(id).Ok? && forall i :: 0 <= i < |data| ==> data[i] < 128
    ensures SendEach(s, data, id) == (s.SendMany(data, id), Ok(true))
    decreases |data|
  {
    if data == [] {
      var b := s.messages[id];
      assert Extend(b.chunks, data) == b.chunks by {
        assert Last(b.chunks) + data == Last(b.chunks);
      }
      assert s.messages[id := b] == s.messages;
    } else {
      SendManyKeeps(s, [data[0]], id);
      var t := s.SendMany([data[0]], id);
      SendEachIsSendMany(t, data[1..], id);
      assert [data[0]] + data[1..] == data;
      SendTwice(s, id, [data[0]], data[1..]);
    }
  }

  /** A negative byte completes the message, and reports that: it adds nothing, whoever waits gets what was written, and
      nothing more is accepted. */
  lemma NegativeCompletes(s: Store, datum: int, id: nat, more: int)
    requires s.Valid() && s.Accepts(id).Ok? && -128 <= datum < 0 && -128 <= more < 128
    ensures var (t, r) := s.Send(datum, id);
            && r == Ok(false) && t.Valid() && t.Ready(id) && t.messages == s.messages && t.channels == s.channels
            && t.GetRaw(id).1 == Ok(s.messages[id].chunks)
            && t.Send(more, id) == (t, Err(AlreadyCompleted(id)))
            && t.SendMany([], id) == t && t.TerminateChunk(id) == t && t.TerminateMessage(id) == t
  {
    CompleteKeeps(s, id);
  }

  // --- Messages that are not there, or complete ---

  /** Writing is refused exactly for a message that is not there or that is complete, with an error that says which, and
      then changes nothing. A poisoned message is still written to. */
  lemma RefusedIff(s: Store, id: nat, data: Bytes, datum: int)
    requires s.Valid() && -128 <= datum < 128
    ensures (s.Accepts(id).Err? <==> id !in s.messages || s.LockOf(id).Completed?)
    ensures (id !in s.messages ==> s.Accepts(id) == Err(OutOfBounds(id)))
    ensures (id in s.messages && s.LockOf(id).Completed? ==> s.Accepts(id) == Err(AlreadyCompleted(id)))
    ensures s.Accepts(id).Err? ==>
              && s.SendMany(data, id) == s && s.TerminateChunk(id) == s && s.TerminateMessage(id) == s
              && s.Send(datum, id) == (s, Err(s.Accepts(id).error))
    ensures s.Accepts(id).Ok? && data != [] ==> s.SendMany(data, id) != s
  {
    if s.Accepts(id).Ok? && data != [] {
      var b := s.messages[id];
      assert Last(Extend(b.chunks, data)) != Last(b.chunks);
      assert s.SendMany(data, id).messages[id] != b;
    }
  }

  // --- Procedures ---

  /** `call_procedure` runs the procedure exactly if there is one, its buffer is there, and the buffer is complete; each
      of the other cases has its own error, in this order. Only the mapping goes then. */
  lemma CallReports(procedures: Procedures, s: Store, key: Key)
    requires s.Valid() && key in s.calls
    ensures var (id, c) := (s.calls[key], s.CallProcedure(procedures, key));
            && c.store.calls == s.calls - {key}
            && (key.call.procedure !in procedures ==> c.result == Err(NoSuchProcedure(key.call.procedure)))
            && (key.call.procedure in procedures && id !in s.messages ==> c.result == Err(NoCallBuffer(id)))
            && (key.call.procedure in procedures && id in s.messages && s.LockOf(id).Incomplete? ==>
                  c.result == Err(CallBufferIncomplete(id)))
            && (key.call.procedure in procedures && id in s.messages && s.LockOf(id).Poisoned? ==>
                  c.result == Err(CallBufferPoisoned(id)))
            && (key.call.procedure in procedures && id in s.messages && s.LockOf(id).Completed? ==>
                  var ex := Execute(procedures, key.call.procedure, s.messages[id].chunks[0]);
                  c.result == ex.result && c.yielded == ex.yielded)
            && (!(key.call.procedure in procedures && id in s.messages && s.LockOf(id).Completed?) ==>
                  c.store == s.(calls := s.calls - {key}) && c.yielded == [])
  {
    var (id, t) := (s.calls[key], s.(calls := s.calls - {key}));
    CallsAreFree(s, s.calls - {key});
    if id in s.messages && s.LockOf(id).Completed? {
      ExecuteEffect(procedures, t, key.call.procedure, id);
      PopEffect(t, id);
    }
    hide Store.Valid, Store.Pop;
  }

  // --- Waiting ---

  /** A wait ends exactly when the message is there and decided. A complete message is handed over whole and is gone
      afterwards; a poisoned one is an error, again and again. */
  lemma WaitReports(s: Store, id: nat)
    requires s.Valid()
    ensures s.Ready(id) <==> id in s.messages && !s.LockOf(id).Incomplete?
    ensures s.Ready(id) ==>
              var (t, r) := s.GetRaw(id);
              && (s.LockOf(id).Completed? ==>
                    && r == Ok(s.messages[id].chunks) && t.messages == s.messages - {id}
                    && t.messageIds == s.messageIds.Returned(id) && t.Valid() && !t.Ready(id))
              && (s.LockOf(id).Poisoned? ==> r == Err(LockPoisoned(id)) && t == s)
  {
    if s.Ready(id) {
      PopKeeps(s, id);
      PopEffect(s, id);
    }
    hide Store.Valid, Store.Pop;
  }

  // --- Receiving ---

  /** What `receive_one` reports of a message, at a wire that is not terminated. An end-of-input or a termination is
      nothing more to read. Otherwise it says whether the message completed a call or a response. The errors are those
      of the procedure that the last frame of a call runs, and that of a response to a call that is not waited for. */
  function Reported(procedures: Procedures, h: Host, w: nat, m: Message): Result<Option<bool>>
    requires h.store.Valid() && w in h.wires
  {
    match m
    case Frame(CallFrame, call, t, bytes) =>
      if !LetsThrough(h, w, m) || !t.Complete? then Ok(Some(false))
      else
        (match Execute(procedures, call.procedure, ArgumentsWith(h, w, m)).result
         case Err(e) => Err(e)
         case Ok(_) => Ok(Some(true)))
    case Frame(ResponseFrame, call, t, bytes) =>
      if call in h.wires[w].responses then Ok(Some(t.Complete?)) else Err(NoResponseBuffer(call))
    case EndOfInput => Ok(Nothing)
    case Termination => Ok(Nothing)
    case Unhandled(_) => Ok(Some(false))
  }

  /** And that is what it reports. A frame over the limit, a response that nobody waits for, an end-of-input and a
      message of an unknown type change nothing. */
  lemma ReceivingReports(procedures: Procedures, h: Host, w: nat, m: Message, order: seq<Call>)
    requires Inv(h) && h.store.Valid() && w in h.wires && !h.wires[w].terminated && MayReceive(h, w, m, order)
    ensures var o := Handle(procedures, h.store, h.wires[w], m, order);
            && o.result == Reported(procedures, h, w, m)
            && (m.EndOfInput? || m.Unhandled? || (m.Frame? && m.kind.CallFrame? && !LetsThrough(h, w, m))
                || (m.Frame? && m.kind.ResponseFrame? && m.call !in h.wires[w].responses) ==>
                  o.store == h.store && o.wire == h.wires[w])
  {
    hide MessagesInv, MapsInv, Store.Valid, AcceptCall, ReceiveResponse, Respond, MarkTerminated, Execute, ArgsOf;
    match m
    case Frame(CallFrame, call, t, bytes) =>
      if LetsThrough(h, w, m) {
        CallFrameReports(procedures, h, w, m);
      }
    case Frame(ResponseFrame, call, t, bytes) =>
      ReceiveResponseEffect(h, w, call, t, bytes);
      NobodyWaits(h.store, h.wires[w], call, t, bytes);
    case _ =>
  }

  lemma NobodyWaits(s: Store, w: Wire, call: Call, t: Terminator, bytes: Bytes)
    requires s.Valid()
    ensures call !in w.responses ==> ReceiveResponse(s, w, call, t, bytes) == Outcome(s, w, Err(NoResponseBuffer(call)))
  {
  }

  lemma CallFrameReports(procedures: Procedures, h: Host, w: nat, m: Message)
    requires Inv(h) && h.store.Valid() && w in h.wires && !h.wires[w].terminated && LetsThrough(h, w, m)
    requires Key(m.call, w) in h.store.calls || Room(h)
    ensures ReceiveCall(procedures, h.store, h.wires[w], m.call, m.terminator, m.payload).result
            == if !m.terminator.Complete? then Ok(Some(false))
               else AnswerResult(Execute(procedures, m.call.procedure, ArgumentsWith(h, w, m)))
  {
    hide MessagesInv, MapsInv, GathersAt, Store.Valid, Answered, Execute, Consumed, Store.SendMany, AcceptCall;
    hide Store.GetCallBuffer, Store.Push, Replies, Content;
    WireFacts(h, w);
    var (call, key) := (m.call, Key(m.call, w));
    AdmitKeeps(procedures, h, w, call, m.payload);
    var h1 := EnsureBuffer(h, w, call);
    EnsureBufferIsCode(h, w, call);
    GetCallBufferKeeps(h.store, key);
    InvValid(h1);
    var x := h.wires[w].(ongoing := h.wires[w].ongoing + {call});
    AcceptCallEffect(procedures, h1.store, x, call, m.terminator, m.payload);
    GathersOne(h1, key);
    EnsureBufferArgs(h, w, call);
  }

  /** A yield is an error exactly on a terminated wire, and then nothing is queued; otherwise its piece joins the queue,
      and a completing one takes the call off the ongoing ones. */
  lemma YieldReports(w: Wire, call: Call, y: Yield)
    ensures w.YieldResult() == if w.terminated then Err(WireTerminated) else Ok(())
    ensures w.YieldResult().Err? ==> w.Yielded(call, y) == w
    ensures w.YieldResult().Ok? ==>
              var x := w.Yielded(call, y);
              && x.queue == w.queue + [Encode(w.cfg, Frame(ResponseFrame, call, y.terminator, y.bytes))]
              && (call in x.ongoing <==> call in w.ongoing && !y.terminator.Complete?)
  {
    hide Encode;
  }

  /** A new interface has no messages, and room for as many as there are values of its integer type. */
  lemma NewInterfaceHasRoom(width: Width)
    ensures var s := EmptyStore(width);
            && s.Valid() && s.messages == map[] && s.calls == map[] && s.locks == [] && s.channels == []
            && s.messageIds.Accounts({}) && s.messageIds.limit == width.Limit() && s.messageIds.Next() == 0
            && s.wireIds.Accounts({}) && s.wireIds.limit == width.Limit() && s.wireIds.Next() == 0
  {
  }

  // --- Bytes that make no message ---

  /** A type byte that means nothing, or that of a response at a wire in module style, is skipped: nothing changes, and
      `fill` goes on behind it. */
  lemma UnknownTypesAreSkipped(procedures: Procedures, s: Store, w: Wire, ty: Byte, rest: Bytes, order: seq<Call>)
    requires s.Valid() && w.cfg.Valid() && !w.terminated && (ty > 3 || (ty == 2 && w.moduleStyle))
    ensures ReceiveOne(procedures, s, w, [ty] + rest, order) == Outcome(s, w, Ok(Some(false)))
    ensures Fill(procedures, s, w, [ty] + rest, order) == Fill(procedures, s, w, rest, order)
  {
    assert ([ty] + rest)[1..] == rest;
    hide MarkTerminated, ParseFlag, Store.Valid;
  }

  /** A flag byte with the one pattern that is no terminator is an error, found before anything else of the message is
      read; nothing changes. */
  lemma BadTerminatorIsError(procedures: Procedures, s: Store, w: Wire, ty: Byte, flag: Byte, rest: Bytes,
                             order: seq<Call>)
    requires s.Valid() && w.cfg.Valid() && !w.terminated && (ty == 1 || (ty == 2 && !w.moduleStyle))
    requires BitsOf(flag, 8)[6] == false && BitsOf(flag, 8)[7] == true
    ensures ReceiveOne(procedures, s, w, [ty, flag] + rest, order) == Outcome(s, w, Err(InvalidTerminator))
    ensures Fill(procedures, s, w, [ty, flag] + rest, order) == Filled(s, w, Err(InvalidTerminator), rest)
  {
    assert ([ty, flag] + rest)[1..] == [flag] + rest && ([flag] + rest)[1..] == rest;
    hide MarkTerminated, ParseIndices, BitsOf, Store.Valid;
  }
}
