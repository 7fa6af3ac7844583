/** The interface as the program holds it (`src/interface_common.rs`, blocking expansion). Every method is proved to
    do to the fields what `Stores` says its operation does to a store. */
module Interfaces {
  import opened Types
  import opened RoiQueues
  import opened Stores

  class Interface {
    var messages: map<nat, Buffer>
    const messageIds: RoiQueue
    var calls: map<Key, nat>
    const wireIds: RoiQueue
    var procedures: Procedures
    var locks: seq<LockState>
    var channels: seq<Channel>

    ghost const Repr: set<object>

    ghost predicate Valid()
      reads this, messageIds, wireIds
    {
      && messageIds != wireIds
      && Repr == {this, messageIds, wireIds}
      && messageIds.Valid() && wireIds.Valid()
      && State().Valid()
    }

    ghost function State(): Store
      reads this, messageIds, wireIds
    {
      Store(messages, messageIds.State(), calls, wireIds.State(), locks, channels)
    }

    constructor (w: Width)
      ensures Valid() && fresh(Repr) && State() == EmptyStore(w) && procedures == map[]
    {
      messages := map[];
      var m := new RoiQueue(w);
      var i := new RoiQueue(w);
      messageIds := m;
      wireIds := i;
      calls := map[];
      procedures := map[];
      locks := [];
      channels := [];
      Repr := {this, m, i};
    }

    method AddProcedure(idx: nat, procedure: Procedure)
      requires Valid()
      modifies this
      ensures Valid() && State() == old(State()) && procedures == old(procedures)[idx := procedure]
    {
      procedures := procedures[idx := procedure];
    }

    method GetId() returns (id: nat)
      requires Valid()
      modifies Repr
      ensures Valid() && procedures == old(procedures) && |locks| >= |old(locks)|
      ensures id == old(State()).wireIds.Next()
      ensures State() == old(State()).(wireIds := old(State()).wireIds.Taken())
    {
      id := wireIds.Get();
    }

    method RelinquishId(id: nat)
      requires Valid()
      modifies Repr
      ensures Valid() && procedures == old(procedures) && |locks| >= |old(locks)|
      ensures State() == old(State()).(wireIds := old(State()).wireIds.Returned(id))
    {
      wireIds.Relinquish(id);
    }

    /** What dropping a buffer does to the channel it feeds. */
    method DropBuffer(b: Buffer)
      requires Valid() && State().BufferValid(b)
      modifies this`channels
      ensures Valid() && State() == old(State()).Dropped(b)
    {
      DroppedKeeps(State(), b);
      if b.sender.Sender? && b.sender.live {
        var ch := b.sender.channel;
        channels := channels[ch := channels[ch].(senderAlive := false)];
      }
    }

    method Push() returns (id: nat)
      requires Valid()
      modifies Repr
      ensures Valid() && procedures == old(procedures) && |locks| >= |old(locks)|
      ensures id == old(State()).messageIds.Next() && State() == old(State()).Push()
    {
      ghost var was := State();
      PushKeeps(was);
      id := messageIds.Get();
      if id in messages {
        DropBuffer(messages[id]);
      }
      messages := messages[id := Buffer([[]], |locks|, NoSender)];
      locks := locks + [Incomplete];
      assert State() == was.Push();
    }

    method Pop(id: nat) returns (popped: Option<Buffer>)
      requires Valid()
      modifies Repr
      ensures Valid() && procedures == old(procedures) && |locks| >= |old(locks)|
      ensures State() == old(State()).Pop(id)
      ensures popped == if id in old(messages) then Some(old(messages)[id]) else Nothing
    {
      ghost var was := State();
      PopKeeps(was, id);
      if id in messages {
        var val := messages[id];
        DropBuffer(val);
        messages := messages - {id};
        messageIds.Relinquish(id);
        assert State() == was.Pop(id);
        popped := Some(val);
      } else {
        popped := Nothing;
      }
    }

    method DropAssociatedCallMessage(call: Call, wire: nat)
      requires Valid()
      modifies Repr
      ensures Valid() && procedures == old(procedures) && |locks| >= |old(locks)|
      ensures State() == old(State()).DropAssociated(Key(call, wire))
    {
      var key := Key(call, wire);
      if key in calls {
        var id := calls[key];
        calls := calls - {key};
        var _ := Pop(id);
      }
    }

    method GetCallBuffer(call: Call, wire: nat) returns (id: nat)
      requires Valid()
      modifies Repr
      ensures Valid() && procedures == old(procedures) && |locks| >= |old(locks)|
      ensures State() == old(State()).GetCallBuffer(Key(call, wire))
      ensures Key(call, wire) in calls && id == calls[Key(call, wire)]
    {
      var key := Key(call, wire);
      if key in calls {
        id := calls[key];
      } else {
        var newIdx := Push();
        calls := calls[key := newIdx];
        id := newIdx;
      }
    }

    /** The yielder is the wire's; what the closure hands to it is returned for the wire to act on. */
    method CallProcedure(call: Call, wire: nat) returns (r: Result<Option<Bytes>>, yielded: seq<Yield>)
      requires Valid()
      modifies Repr
      ensures Valid() && procedures == old(procedures) && |locks| >= |old(locks)|
      ensures var key := Key(call, wire);
              && (key in old(State()).calls || old(State()).GetCallBuffer(key).Valid())
              && Called(State(), r, yielded) == old(State()).CallProcedure(old(procedures), key)
    {
      hide Store.Push, Store.GetCallBuffer;
      GetCallBufferKeeps(State(), Key(call, wire));
      var id := GetCallBuffer(call, wire);
      calls := calls - {Key(call, wire)};
      yielded := [];
      if call.procedure in procedures {
        if id in messages {
          var message := messages[id];
          match locks[message.lock]
          case Completed =>
            match procedures[call.procedure] {
              case Standard(run) =>
                var value := run(message.chunks[0]);
                r := if value.Ok? then Ok(Some(value.value)) else Err(value.error);
              case Streaming(start) =>
                var started := start(message.chunks[0]);
                yielded := started.yielded;
                if started.result.Err? {
                  return Err(started.result.error), yielded;
                }
                r := Ok(Nothing);
            }
            var _ := Pop(id);
          case Incomplete =>
            r := Err(CallBufferIncomplete(id));
          case Poisoned =>
            r := Err(CallBufferPoisoned(id));
        } else {
          r := Err(NoCallBuffer(id));
        }
      } else {
        r := Err(NoSuchProcedure(call.procedure));
      }
    }

    method Send(datum: int, id: nat) returns (r: Result<bool>)
      requires Valid() && -128 <= datum < 128
      modifies this
      ensures Valid() && procedures == old(procedures) && |locks| >= |old(locks)|
      ensures (State(), r) == old(State()).Send(datum, id)
    {
      if id in messages {
        var message := messages[id];
        if locks[message.lock].Completed? {
          r := Err(AlreadyCompleted(id));
        } else if datum < 0 {
          locks := locks[message.lock := Completed];
          r := Ok(false);
        } else {
          SendManyKeeps(State(), [datum], id);
          messages := messages[id := message.(chunks := Extend(message.chunks, [datum]))];
          r := Ok(true);
        }
      } else {
        r := Err(OutOfBounds(id));
      }
    }

    method SendMany(data: Bytes, id: nat) returns (r: Result<()>)
      requires Valid()
      modifies this
      ensures Valid() && procedures == old(procedures) && |locks| >= |old(locks)|
      ensures r == old(State()).Accepts(id) && State() == old(State()).SendMany(data, id)
    {
      SendManyKeeps(State(), data, id);
      if id in messages {
        var message := messages[id];
        if locks[message.lock].Completed? {
          r := Err(AlreadyCompleted(id));
        } else {
          messages := messages[id := message.(chunks := Extend(message.chunks, data))];
          r := Ok(());
        }
      } else {
        r := Err(OutOfBounds(id));
      }
    }

    method TerminateMessage(id: nat) returns (r: Result<()>)
      requires Valid()
      modifies Repr
      ensures Valid() && procedures == old(procedures) && |locks| >= |old(locks)|
      ensures r == old(State()).Accepts(id) && State() == old(State()).TerminateMessage(id)
    {
      ghost var was := State();
      TerminateMessageKeeps(was, id);
      if id in messages {
        var message := messages[id];
        if locks[message.lock].Completed? {
          r := Err(AlreadyCompleted(id));
        } else {
          locks := locks[message.lock := Completed];
          CompleteKeeps(was, id);
          assert State() == was.Complete(id);
          if message.sender.Sender? {
            FinishStream(id);
          }
          r := Ok(());
        }
      } else {
        r := Err(OutOfBounds(id));
      }
    }

    /** What `terminate_message` does about a sender once the lock is completed. */
    method FinishStream(id: nat)
      requires Valid() && id in messages && messages[id].sender.Sender? && State().LockOf(id).Completed?
      modifies Repr
      ensures Valid() && procedures == old(procedures) && |locks| >= |old(locks)|
      ensures State() == old(State()).FinishStream(id)
    {
      ghost var was := State();
      FinishStreamKeeps(was, id);
      var message := messages[id];
      var ch := message.sender.channel;
      var chunk := Last(message.chunks);
      if channels[ch].receiverAlive {
        channels := channels[ch := channels[ch].(sent := channels[ch].sent + [chunk])];
        messages := messages[id := message.(chunks := AllButLast(message.chunks) + [[]])];
        GrownKeeps(was, State(), id);
        assert messages - {id} == was.messages - {id};
        var _ := Pop(id);
      } else {
        DropBuffer(message);
        messages := messages[id := message.(sender := message.sender.(live := false))];
      }
      assert State() == was.FinishStream(id);
    }

    method TerminateChunk(id: nat) returns (r: Result<()>)
      requires Valid()
      modifies this
      ensures Valid() && procedures == old(procedures) && |locks| >= |old(locks)|
      ensures r == old(State()).Accepts(id) && State() == old(State()).TerminateChunk(id)
    {
      ghost var was := State();
      TerminateChunkKeeps(was, id);
      if id in messages {
        var message := messages[id];
        if locks[message.lock].Completed? {
          r := Err(AlreadyCompleted(id));
        } else {
          var chunks := message.chunks;
          if message.sender.Sender? {
            var ch := message.sender.channel;
            var chunk := Last(chunks);
            chunks := AllButLast(chunks);
            if channels[ch].receiverAlive {
              channels := channels[ch := channels[ch].(sent := channels[ch].sent + [chunk])];
            } else {
              chunks := chunks + [chunk];
              assert chunks == message.chunks;
            }
          }
          chunks := chunks + [[]];
          messages := messages[id := message.(chunks := chunks)];
          assert State() == was.TerminateChunk(id);
          r := Ok(());
        }
      } else {
        r := Err(OutOfBounds(id));
      }
    }

    /** The message exists: a caller that comes before it is kept waiting. */
    method GetChunkStream(id: nat) returns (channel: nat)
      requires Valid() && id in messages
      modifies this
      ensures Valid() && procedures == old(procedures) && |locks| >= |old(locks)|
      ensures channel == |old(channels)| && State() == old(State()).OpenStream(id)
    {
      ghost var was := State();
      OpenStreamKeeps(was, id);
      var message := messages[id];
      channel := |channels|;
      DropBuffer(message);
      channels := channels + [Channel([], 0, true, true, |message.chunks| - 1)];
      messages := messages[id := message.(sender := Sender(channel, true))];
      assert State() == was.OpenStream(id);
    }

    /** The lock has been decided: until then the caller is kept waiting. */
    method GetRaw(id: nat) returns (r: Result<seq<Bytes>>)
      requires Valid() && State().Ready(id)
      modifies Repr
      ensures Valid() && procedures == old(procedures) && |locks| >= |old(locks)|
      ensures (State(), r) == old(State()).GetRaw(id)
    {
      if locks[messages[id].lock].Poisoned? {
        return Err(LockPoisoned(id));
      }
      var message := Pop(id);
      r := Ok(message.value.chunks);
    }

    method GetCompleteLock(id: nat) returns (lock: Option<nat>)
      requires Valid()
      ensures lock == if id in messages then Some(messages[id].lock) else Nothing
      ensures lock.Some? ==> lock.value < |locks|
    {
      if id in messages {
        lock := Some(messages[id].lock);
      } else {
        lock := Nothing;
      }
    }

    method Poison(lock: nat)
      requires Valid() && lock < |locks|
      modifies this`locks
      ensures Valid() && State() == old(State()).Poison(lock)
    {
      PoisonKeeps(State(), lock);
      if locks[lock].Incomplete? {
        locks := locks[lock := Poisoned];
      }
    }

    /** One round of `recv_raw` in which there is something to return. */
    method RecvRaw(ch: nat, lock: nat, id: nat) returns (r: Result<Option<Bytes>>)
      requires Valid() && ch < |channels| && lock < |locks| && State().CanReceive(ch, lock)
      modifies this`channels
      ensures Valid() && (State(), r) == old(State()).Receive(ch, lock, id)
    {
      var c := channels[ch];
      if c.taken < |c.sent| {
        r := Ok(Some(c.sent[c.taken]));
        channels := channels[ch := c.(taken := c.taken + 1)];
      } else if locks[lock].Poisoned? {
        r := Err(LockPoisoned(id));
      } else {
        r := Ok(Nothing);
      }
    }
  }
}
