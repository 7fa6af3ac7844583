/** The wire as the program holds it (`src/wire_common.rs`, blocking expansion, and `src/blocking/wire.rs`). Every
    method is proved to do to the wire and its interface what `Wires` says. */
module BlockingWires {
  import opened Types
  import opened Integers
  import opened RoiQueues
  import opened Stores
  import opened Interfaces
  import opened WireFormat
  import opened WireFormatProofs
  import opened Wires

  class ByteWriter {
    var written: Bytes

    constructor ()
      ensures written == []
    {
      written := [];
    }

    method WriteAll(b: Bytes)
      modifies this
      ensures written == old(written) + b
    {
      written := written + b;
    }
  }

  // --- Steps of the two termination loops ---

  lemma {:induction false} DropCallsAppend(s: Store, wire: nat, order: seq<Call>, call: Call)
    requires s.Valid()
    ensures DropCalls(s, wire, order + [call]) == DropCalls(s, wire, order).DropAssociated(Key(call, wire))
    decreases |order|
  {
    hide Store.Valid;
    if order == [] {
      DropAssociatedKeeps(s, Key(call, wire));
      assert order + [call] == [call] && [call][1..] == [];
      assert DropCalls(s, wire, [call]) == DropCalls(s.DropAssociated(Key(call, wire)), wire, []);
    } else {
      DropAssociatedKeeps(s, Key(order[0], wire));
      assert (order + [call])[1..] == order[1..] + [call];
      DropCallsAppend(s.DropAssociated(Key(order[0], wire)), wire, order[1..], call);
    }
  }

  lemma PoisonAllAdd(s: Store, locks: set<nat>, lock: nat)
    requires lock < |s.locks|
    ensures PoisonAll(s, locks).Poison(lock) == PoisonAll(s, locks + {lock})
  {
  }

  class BlockingWire {
    const id: nat
    const cfg: Config
    const moduleStyle: bool
    const max: nat
    const interface: Interface
    var queue: seq<Bytes>
    var counters: map<nat, nat>
    var responses: map<Call, nat>
    var ongoing: set<Call>
    var idle: map<nat, nat>
    var terminated: bool

    ghost predicate Valid()
      reads this, interface, interface.messageIds, interface.wireIds
    {
      && interface.Valid() && this !in interface.Repr
      && (forall i :: i in idle ==> idle[i] < |interface.locks|)
    }

    ghost function State(): Wire
      reads this
    {
      Wire(id, cfg, moduleStyle, queue, counters, responses, ongoing, max, idle, terminated)
    }

    constructor (interface: Interface, cfg: Config, moduleStyle: bool, max: nat)
      requires interface.Valid()
      modifies interface.Repr
      ensures Valid() && this.interface == interface && interface.procedures == old(interface.procedures)
      ensures State() == NewWire(old(interface.State()).wireIds.Next(), cfg, moduleStyle, max)
      ensures interface.State() == old(interface.State()).(wireIds := old(interface.State()).wireIds.Taken())
    {
      var i := interface.GetId();
      this.id := i;
      this.interface := interface;
      this.cfg := cfg;
      this.moduleStyle := moduleStyle;
      this.max := max;
      queue := [];
      counters := map[];
      responses := map[];
      ongoing := {};
      idle := map[];
      terminated := false;
    }

    // --- Calling ---

    method NextCallIndex(procedure: nat) returns (index: nat)
      modifies this`counters
      ensures index == old(State()).NextIndex(procedure)
      ensures counters == old(counters)[procedure := index]
    {
      if procedure in counters {
        index := Increment(counters[procedure], cfg.idx.Limit());
      } else {
        index := 0;
      }
      counters := counters[procedure := index];
    }

    method StartCallWithPartialBytes(procedure: nat, args: Bytes) returns (r: Result<nat>)
      requires Valid()
      modifies this, interface.Repr
      ensures Valid() && interface.procedures == old(interface.procedures)
      ensures Outcome(interface.State(), State(), r)
              == StartPartial(old(interface.State()), old(State()), procedure, args)
    {
      hide Store.Valid, Encode;
      if terminated {
        return Err(WireTerminated);
      } else if moduleStyle {
        return Err(CallFromModule);
      }
      if args == [] {
        return Err(ZeroLengthInNonTerminating);
      }
      var index := NextCallIndex(procedure);
      var responseIdx := interface.Push();
      responses := responses[Call(procedure, index) := responseIdx];
      var sent := ContinueGivenCallWithBytes(Call(procedure, index), args);
      r := Ok(index);
    }

    method CallWithBytes(procedure: nat, args: Bytes) returns (r: Result<nat>)
      requires Valid()
      modifies this, interface.Repr
      ensures Valid() && interface.procedures == old(interface.procedures)
      ensures Outcome(interface.State(), State(), r) == OneShot(old(interface.State()), old(State()), procedure, args)
    {
      hide Store.Valid, Encode;
      if terminated {
        return Err(WireTerminated);
      } else if moduleStyle {
        return Err(CallFromModule);
      }
      var index := NextCallIndex(procedure);
      var call := Call(procedure, index);
      var responseIdx := interface.Push();
      responses := responses[call := responseIdx];
      var bytes := ToBytes(cfg, Frame(CallFrame, call, Complete, args));
      queue := queue + [bytes];
      var idx := GetResponseIdx(call);
      NewCallHandle(idx.value);
      r := idx;
    }

    method ContinueGivenCallWithBytes(call: Call, args: Bytes) returns (r: Result<()>)
      requires Valid()
      modifies this`queue
      ensures Valid()
      ensures Outcome(interface.State(), State(), r) == Continue(interface.State(), old(State()), call, args)
    {
      if terminated {
        return Err(WireTerminated);
      } else if moduleStyle {
        return Err(CallFromModule);
      }
      if args == [] {
        return Err(ZeroLengthInNonTerminating);
      }
      var bytes := ToBytes(cfg, Frame(CallFrame, call, None, args));
      queue := queue + [bytes];
      r := Ok(());
    }

    method EndGivenCall(call: Call) returns (r: Result<nat>)
      requires Valid() && (call in responses ==> responses[call] in interface.messages)
      modifies this`queue, this`idle
      ensures Valid()
      ensures Outcome(interface.State(), State(), r) == End(interface.State(), old(State()), call)
    {
      hide Store.Valid, Encode;
      if terminated {
        return Err(WireTerminated);
      } else if moduleStyle {
        return Err(CallFromModule);
      }
      var bytes := ToBytes(cfg, Frame(CallFrame, call, Complete, []));
      queue := queue + [bytes];
      var idx := GetResponseIdx(call);
      if idx.Ok? {
        NewCallHandle(idx.value);
      }
      r := idx;
    }

    method GetResponseIdx(call: Call) returns (r: Result<nat>)
      ensures r == if terminated then Err(WireTerminated)
                   else if call in responses then Ok(responses[call]) else Err(NoResponseBuffer(call))
    {
      if terminated {
        return Err(WireTerminated);
      }
      r := if call in responses then Ok(responses[call]) else Err(NoResponseBuffer(call));
    }

    /** `CallHandle::new`: the handle is registered for poisoning. */
    method NewCallHandle(responseIdx: nat)
      requires Valid() && responseIdx in interface.messages
      modifies this`idle
      ensures Valid() && idle == old(idle)[responseIdx := interface.messages[responseIdx].lock]
    {
      var lock := interface.GetCompleteLock(responseIdx);
      idle := idle[responseIdx := lock.value];
    }

    /** `CallHandle::wait_bytes`, once the response's lock is decided. A handle that fails stays registered. */
    method WaitBytes(responseIdx: nat) returns (r: Result<seq<Bytes>>)
      requires Valid() && interface.State().Ready(responseIdx)
      modifies this`idle, interface.Repr
      ensures Valid() && interface.procedures == old(interface.procedures)
      ensures (interface.State(), r) == old(interface.State()).GetRaw(responseIdx)
      ensures idle == if r.Ok? then old(idle) - {responseIdx} else old(idle)
    {
      r := interface.GetRaw(responseIdx);
      if r.Ok? {
        idle := idle - {responseIdx};
      }
    }

    method SignalEndOfInput() returns (r: Result<()>)
      requires Valid()
      modifies this`queue
      ensures Valid()
      ensures terminated ==> r == Err(WireTerminated) && queue == old(queue)
      ensures !terminated ==> r == Ok(()) && State() == old(State()).Enqueue(EndOfInput)
    {
      if terminated {
        return Err(WireTerminated);
      }
      var bytes := ToBytes(cfg, EndOfInput);
      queue := queue + [bytes];
      r := Ok(());
    }

    /** `signal_termination` works on a terminated wire too. */
    method SignalTermination()
      requires Valid()
      modifies this`queue
      ensures Valid() && State() == old(State()).Enqueue(Termination)
    {
      var bytes := ToBytes(cfg, Termination);
      queue := queue + [bytes];
    }

    // --- Termination ---

    method MarkTerminated() returns (ghost order: seq<Call>)
      requires Valid()
      modifies this`terminated, interface.Repr
      ensures Valid() && interface.procedures == old(interface.procedures)
      ensures Lists(order, ongoing)
      ensures (interface.State(), State()) == Wires.MarkTerminated(old(interface.State()), old(State()), order)
    {
      ghost var s0 := interface.State();
      order := MarkTerminatedSync();
      DropCallsLocks(s0, id, order);
      PoisonIdleCallHandles();
    }

    method MarkTerminatedSync() returns (ghost order: seq<Call>)
      requires Valid()
      modifies this`terminated, interface.Repr
      ensures Valid() && interface.procedures == old(interface.procedures)
      ensures Lists(order, ongoing) && terminated
      ensures interface.State() == DropCalls(old(interface.State()), id, order)
    {
      ghost var s0 := interface.State();
      terminated := true;
      order := [];
      var left := ongoing;
      while left != {}
        invariant Valid() && interface.procedures == old(interface.procedures)
        invariant terminated && left <= ongoing && Lists(order, ongoing - left)
        invariant interface.State() == DropCalls(s0, id, order)
        invariant interface.locks == s0.locks
      {
        var entry :| entry in left;
        interface.DropAssociatedCallMessage(entry, id);
        DropCallsAppend(s0, id, order, entry);
        order := order + [entry];
        left := left - {entry};
        DropCallsLocks(s0, id, order);
      }
    }

    method PoisonIdleCallHandles()
      requires Valid()
      modifies interface`locks
      ensures Valid() && interface.State() == PoisonAll(old(interface.State()), idle.Values)
    {
      ghost var s0 := interface.State();
      var left := idle.Keys;
      ghost var done: set<nat> := {};
      assert PoisonAll(s0, done).locks == s0.locks;
      while left != {}
        invariant Valid() && left <= idle.Keys && |interface.locks| == |s0.locks|
        invariant interface.State() == PoisonAll(s0, done)
        invariant done == set i | i in idle && i !in left :: idle[i]
      {
        var entry :| entry in left;
        interface.Poison(idle[entry]);
        PoisonAllAdd(s0, done, idle[entry]);
        done := done + {idle[entry]};
        left := left - {entry};
      }
      assert done == idle.Values;
    }

    /** `Drop for Wire`: the identifier goes back last. */
    method Drop() returns (ghost order: seq<Call>)
      requires Valid()
      modifies this`terminated, interface.Repr
      ensures Valid() && interface.procedures == old(interface.procedures) && Lists(order, ongoing)
      ensures var (s, w) := Wires.MarkTerminated(old(interface.State()), old(State()), order);
              interface.State() == s.(wireIds := s.wireIds.Returned(id)) && State() == w
    {
      order := MarkTerminated();
      interface.RelinquishId(id);
    }

    // --- Receiving ---

    /** The reading half of `receive_one`. */
    method ReadMessage(reader: ByteReader) returns (r: Result<Message>)
      modifies reader
      ensures |reader.rest| <= |old(reader.rest)|
      ensures match Parse(cfg, moduleStyle, old(reader.rest))
              case Eof => r == Err(UnexpectedEof)
              case Bad(e, after) => r == Err(e) && reader.rest == after
              case Got(m, rest) => r == Ok(m) && reader.rest == rest
    {
      var tyBuf := reader.ReadExact(1);
      if tyBuf.Err? { return Err(tyBuf.error); }
      var ty := tyBuf.value[0];
      if ty == 2 && moduleStyle {
        r := Ok(Unhandled(ty));
      } else if ty == 1 {
        r := ReadFrame(reader, CallFrame);
      } else if ty == 2 {
        r := ReadFrame(reader, ResponseFrame);
      } else if ty == 3 {
        r := Ok(EndOfInput);
      } else if ty == 0 {
        r := Ok(Termination);
      } else {
        r := Ok(Unhandled(ty));
      }
    }

    method ReadFrame(reader: ByteReader, kind: Kind) returns (r: Result<Message>)
      modifies reader
      ensures |reader.rest| <= |old(reader.rest)|
      ensures match ParseFlag(cfg, kind, old(reader.rest))
              case Eof => r == Err(UnexpectedEof)
              case Bad(e, after) => r == Err(e) && reader.rest == after
              case Got(m, rest) => r == Ok(m) && reader.rest == rest
    {
      var flagBuf := reader.ReadExact(1);
      if flagBuf.Err? { return Err(flagBuf.error); }
      var bits := U8ToBoolArray(flagBuf.value[0]);
      var terminator := TerminatorFromFlag((bits[6], bits[7]));
      if terminator.Err? { return Err(terminator.error); }
      r := ReadFields(reader, kind, terminator.value, bits);
    }

    method ReadFields(reader: ByteReader, kind: Kind, terminator: Terminator,
                      bits: seq<bool>) returns (r: Result<Message>)
      requires |bits| == 8
      modifies reader
      ensures |reader.rest| <= |old(reader.rest)|
      ensures match ParseIndices(cfg, kind, terminator, bits, old(reader.rest))
              case Eof => r == Err(UnexpectedEof)
              case Bad(e, after) => r == Err(e) && reader.rest == after
              case Got(m, rest) => r == Ok(m) && reader.rest == rest
    {
      var p := PopulateFromReader(Integer.FromFlag((bits[0], bits[1])), reader);
      if p.Err? { return Err(p.error); }
      var procedure := p.value.IntoInt(cfg.idx);
      if procedure.Nothing? { return Err(IdxTooBig); }
      var c := PopulateFromReader(Integer.FromFlag((bits[2], bits[3])), reader);
      if c.Err? { return Err(c.error); }
      var index := c.value.IntoInt(cfg.idx);
      if index.Nothing? { return Err(IdxTooBig); }
      var n := PopulateFromReader(Integer.FromFlag((bits[4], bits[5])), reader);
      if n.Err? { return Err(n.error); }
      var numBytes := n.value.IntoUsize(cfg.ptr);
      if numBytes.Nothing? { return Err(IdxTooBig); }
      var bytes := reader.ReadExact(numBytes.value);
      if bytes.Err? { return Err(bytes.error); }
      r := Ok(Frame(kind, Call(procedure.value, index.value), terminator, bytes.value));
    }

    /** `receive_one`. */
    method ReceiveOne(reader: ByteReader) returns (r: Result<Option<bool>>, ghost order: seq<Call>)
      requires Valid() && reader !in interface.Repr
      modifies this, interface.Repr, reader
      ensures Valid() && interface.procedures == old(interface.procedures)
      ensures terminated && !old(terminated) ==> Lists(order, ongoing)
      ensures Outcome(interface.State(), State(), r)
           == Wires.ReceiveOne(old(interface.procedures), old(interface.State()), old(State()), old(reader.rest), order)
      ensures |reader.rest| <= |old(reader.rest)|
      ensures !old(terminated) && Parse(cfg, moduleStyle, old(reader.rest)) != Eof ==>
                reader.rest == RestOf(Parse(cfg, moduleStyle, old(reader.rest)))
    {
      hide Parse, ReceiveCall, ReceiveResponse, Wires.MarkTerminated, Store.Valid;
      order := [];
      if terminated {
        return Err(WireTerminated), order;
      }
      var m := ReadMessage(reader);
      if m.Err? {
        return Err(m.error), order;
      }
      match m.value
      case Frame(CallFrame, call, t, bytes) =>
        r := HandleCall(call, t, bytes);
      case Frame(ResponseFrame, call, t, bytes) =>
        r := HandleResponse(call, t, bytes);
      case EndOfInput =>
        r := Ok(Nothing);
      case Termination =>
        order := MarkTerminated();
        r := Ok(Nothing);
      case Unhandled(_) =>
        r := Ok(Some(false));
    }

    method HandleCall(call: Call, terminator: Terminator, bytes: Bytes) returns (r: Result<Option<bool>>)
      requires Valid() && !terminated
      modifies this, interface.Repr
      ensures Valid() && interface.procedures == old(interface.procedures) && !terminated
      ensures Outcome(interface.State(), State(), r)
           == ReceiveCall(old(interface.procedures), old(interface.State()), old(State()), call, terminator, bytes)
    {
      hide Store.Valid, AcceptCall;
      if call !in ongoing && |ongoing| >= max {
        return Ok(Some(false));
      }
      var callBufIdx := interface.GetCallBuffer(call, id);
      ongoing := ongoing + {call};
      r := HandleAcceptedCall(call, terminator, bytes, callBufIdx);
    }

    /** The frame has a buffer to go to. */
    method HandleAcceptedCall(call: Call, terminator: Terminator, bytes: Bytes, callBufIdx: nat)
      returns (r: Result<Option<bool>>)
      requires Valid() && !terminated && Key(call, id) in interface.calls
      requires callBufIdx == interface.calls[Key(call, id)]
      modifies this, interface.Repr
      ensures Valid() && interface.procedures == old(interface.procedures) && !terminated
      ensures Outcome(interface.State(), State(), r)
           == AcceptCall(old(interface.procedures), old(interface.State()), old(State()), call, terminator, bytes)
    {
      hide Store.Valid, Store.CallProcedure, RunCall;
      var sent := interface.SendMany(bytes, callBufIdx);
      if sent.Err? {
        return Err(sent.error);
      }
      if terminator.Complete? {
        var ended := interface.TerminateMessage(callBufIdx);
        r := HandleCompleteCall(call);
      } else {
        r := Ok(Some(false));
      }
    }

    method HandleCompleteCall(call: Call) returns (r: Result<Option<bool>>)
      requires Valid() && !terminated && Key(call, id) in interface.calls
      modifies this, interface.Repr
      ensures Valid() && interface.procedures == old(interface.procedures) && !terminated
      ensures Outcome(interface.State(), State(), r)
           == RunCall(old(interface.procedures), old(interface.State()), old(State()), call)
    {
      hide Store.Valid, Store.CallProcedure;
      var ret, yielded := interface.CallProcedure(call, id);
      YieldEach(call, yielded);
      if ret.Err? {
        return Err(ret.error);
      }
      if ret.value.Some? {
        var retMsgBytes := ToBytes(cfg, Frame(ResponseFrame, call, Complete, ret.value.value));
        queue := queue + [retMsgBytes];
        ongoing := ongoing - {call};
      }
      r := Ok(Some(true));
    }

    /** The closure that a streaming procedure yields through. */
    method Yielder(call: Call, bytes: Bytes, terminator: Terminator) returns (r: Result<()>)
      modifies this`queue, this`ongoing
      ensures State() == old(State()).Yielded(call, Yield(bytes, terminator))
      ensures r == old(State()).YieldResult()
    {
      if terminated {
        return Err(WireTerminated);
      }
      var retMsgBytes := ToBytes(cfg, Frame(ResponseFrame, call, terminator, bytes));
      queue := queue + [retMsgBytes];
      if terminator.Complete? {
        ongoing := ongoing - {call};
      }
      r := Ok(());
    }

    method YieldEach(call: Call, yielded: seq<Yield>)
      modifies this`queue, this`ongoing
      ensures State() == old(State()).YieldedAll(call, yielded)
    {
      ghost var w0 := State();
      for i := 0 to |yielded|
        invariant w0.YieldedAll(call, yielded) == State().YieldedAll(call, yielded[i..])
      {
        assert yielded[i..][0] == yielded[i] && yielded[i..][1..] == yielded[i + 1..];
        var _ := Yielder(call, yielded[i].bytes, yielded[i].terminator);
      }
    }

    method HandleResponse(call: Call, terminator: Terminator, bytes: Bytes) returns (r: Result<Option<bool>>)
      requires Valid() && !terminated
      modifies this, interface.Repr
      ensures Valid() && interface.procedures == old(interface.procedures) && !terminated
      ensures Outcome(interface.State(), State(), r)
           == ReceiveResponse(old(interface.State()), old(State()), call, terminator, bytes)
    {
      hide Store.Valid, Store.TerminateMessage, Store.TerminateChunk;
      var responseIdx := GetResponseIdx(call);
      if responseIdx.Err? {
        return Err(responseIdx.error);
      }
      var sent := interface.SendMany(bytes, responseIdx.value);
      if sent.Err? {
        return Err(sent.error);
      }
      if terminator.Complete? {
        var ended := interface.TerminateMessage(responseIdx.value);
        responses := responses - {call};
        r := Ok(Some(true));
      } else if terminator.Chunk? {
        var ended := interface.TerminateChunk(responseIdx.value);
        r := Ok(Some(false));
      } else {
        r := Ok(Some(false));
      }
    }

    // --- Whole inputs and outputs ---

    /** `flush_partial`. */
    method FlushPartial(writer: ByteWriter) returns (r: Result<()>)
      requires Valid() && writer !in interface.Repr
      modifies this`queue, writer
      ensures Valid()
      ensures terminated ==> r == Err(WireTerminated) && queue == old(queue) && writer.written == old(writer.written)
      ensures !terminated ==> r == Ok(()) && queue == [] && writer.written == old(writer.written) + Concat(old(queue))
    {
      if terminated {
        return Err(WireTerminated);
      }
      while queue != []
        invariant writer.written + Concat(queue) == old(writer.written) + Concat(old(queue))
        decreases |queue|
      {
        var msgBytes := queue[0];
        queue := queue[1..];
        writer.WriteAll(msgBytes);
      }
      assert Concat([]) == [];
      r := Ok(());
    }

    /** `flush_end`. */
    method FlushEnd(writer: ByteWriter) returns (r: Result<()>)
      requires Valid() && writer !in interface.Repr
      modifies this`queue, writer
      ensures Valid()
      ensures terminated ==> r == Err(WireTerminated) && queue == old(queue) && writer.written == old(writer.written)
      ensures !terminated ==> r == Ok(()) && queue == []
                              && writer.written == old(writer.written) + Concat(old(queue) + [Encode(cfg, EndOfInput)])
    {
      if terminated {
        return Err(WireTerminated);
      }
      var signalled := SignalEndOfInput();
      r := FlushPartial(writer);
    }

    /** `flush_terminate`. */
    method FlushTerminate(writer: ByteWriter) returns (r: Result<()>)
      requires Valid() && writer !in interface.Repr
      modifies this`queue, writer
      ensures Valid()
      ensures terminated ==> r == Err(WireTerminated) && queue == old(queue) && writer.written == old(writer.written)
      ensures !terminated ==> r == Ok(()) && queue == []
                              && writer.written == old(writer.written) + Concat(old(queue) + [Encode(cfg, Termination)])
    {
      if terminated {
        return Err(WireTerminated);
      }
      SignalTermination();
      r := FlushPartial(writer);
    }

    /** `fill`: receives until a message says to stop, or an error occurs. A reader that runs out of bytes in the
        middle of a message may have been read to anywhere behind the last one. */
    method Fill(reader: ByteReader) returns (r: Result<()>, ghost order: seq<Call>)
      requires Valid() && cfg.Valid() && reader !in interface.Repr
      modifies this, interface.Repr, reader
      ensures Valid() && interface.procedures == old(interface.procedures)
      ensures terminated && !old(terminated) ==> Lists(order, ongoing)
      ensures var f := Wires.Fill(old(interface.procedures), old(interface.State()), old(State()), old(reader.rest),
                                  order);
              && interface.State() == f.store && State() == f.wire && r == f.result
              && (r != Err(UnexpectedEof) ==> reader.rest == f.rest)
    {
      hide Parse, Wires.ReceiveOne, FillLoop, Wires.MarkTerminated, Store.Valid;
      order := [];
      if terminated {
        return Err(WireTerminated), order;
      }
      ghost var s0, w0, b0 := interface.State(), State(), reader.rest;
      while true
        invariant Valid() && interface.procedures == old(interface.procedures) && !terminated
        invariant State().cfg == cfg && State().moduleStyle == moduleStyle
        invariant forall o :: FillLoop(interface.procedures, s0, w0, b0, o)
                              == FillLoop(interface.procedures, interface.State(), State(), reader.rest, o)
        decreases |reader.rest|
      {
        ghost var s1, w1, b1 := interface.State(), State(), reader.rest;
        if Parse(cfg, moduleStyle, b1).Got? {
          ReadingProgresses(cfg, moduleStyle, b1);
        }
        var one;
        one, order := ReceiveOne(reader);
        forall o: seq<Call> {
          FillStep(interface.procedures, s1, w1, b1, order, o);
        }
        if one.Ok? {
          if one.value.Nothing? {
            return Ok(()), order;
          }
        } else if one.error.UnexpectedEof? {
          order := MarkTerminated();
          return Err(UnexpectedEof), order;
        } else {
          return Err(one.error), order;
        }
      }
    }
  }
}
