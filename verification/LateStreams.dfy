/** A stream that is opened on a message after the message is complete (`src/interface_common.rs`), and whatever is done
    to the interface from then on. */
module LateStreams {
  import opened Types
  import opened Stores
  import opened Wires
  import opened HostCalls
  import opened HostSteps

  /** Everything that can be done to a store, by number of message, channel or lock. */
  datatype Use =
    | Push
    | Pop(id: nat)
    | Send(datum: int, id: nat)
    | SendMany(data: Bytes, id: nat)
    | TerminateChunk(id: nat)
    | TerminateMessage(id: nat)
    | OpenStream(id: nat)
    | GetRaw(id: nat)
    | GetCallBuffer(key: Key)
    | CallProcedure(procedures: Procedures, key: Key)
    | DropAssociated(key: Key)
    | Poison(lock: nat)
    | Receive(channel: nat, lock: nat, id: nat)
    | DropReceiver(channel: nat)

  /** What the operation leaves; nothing, where it would wait or has nothing to work on. */
  function Used(s: Store, u: Use): (t: Store)
    requires s.Valid()
    ensures t.Valid()
  {
    match u
    case Push =>
      PushKeeps(s);
      s.Push()
    case Pop(id) =>
      Stores.PopKeeps(s, id);
      s.Pop(id)
    case Send(datum, id) =>
      SendKeeps(s, datum, id);
      if -128 <= datum < 128 then s.Send(datum, id).0 else s
    case SendMany(data, id) =>
      SendManyKeeps(s, data, id);
      s.SendMany(data, id)
    case TerminateChunk(id) =>
      TerminateChunkKeeps(s, id);
      s.TerminateChunk(id)
    case TerminateMessage(id) =>
      TerminateMessageKeeps(s, id);
      s.TerminateMessage(id)
    case _ => UsedElse(s, u)
  }

  function UsedElse(s: Store, u: Use): (t: Store)
    requires s.Valid()
    ensures t.Valid()
  {
    match u
    case OpenStream(id) =>
      if id in s.messages then
        OpenStreamKeeps(s, id);
        s.OpenStream(id)
      else s
    case GetRaw(id) =>
      Stores.PopKeeps(s, id);
      if s.Ready(id) then s.GetRaw(id).0 else s
    case GetCallBuffer(key) =>
      GetCallBufferKeeps(s, key);
      s.GetCallBuffer(key)
    case CallProcedure(procedures, key) =>
      CallProcedureKeeps(s, procedures, key);
      s.CallProcedure(procedures, key).store
    case DropAssociated(key) =>
      DropAssociatedKeeps(s, key);
      s.DropAssociated(key)
    case Poison(lock) =>
      if lock < |s.locks| then
        PoisonKeeps(s, lock);
        s.Poison(lock)
      else s
    case Receive(ch, lock, id) =>
      if ch < |s.channels| && lock < |s.locks| && s.CanReceive(ch, lock) then
        ReceiveKeeps(s, ch, lock, id);
        s.Receive(ch, lock, id).0
      else s
    case DropReceiver(ch) =>
      if ch < |s.channels| then
        DropReceiverKeeps(s, ch);
        s.DropReceiver(ch)
      else s
    case _ => s
  }

  lemma SendKeeps(s: Store, datum: int, id: nat)
    requires s.Valid()
    ensures -128 <= datum < 128 ==> s.Send(datum, id).0.Valid()
  {
    if 0 <= datum < 128 {
      SendManyKeeps(s, [datum], id);
    }
    if id in s.messages {
      CompleteKeeps(s, id);
    }
  }

  lemma CallProcedureKeeps(s: Store, procedures: Procedures, key: Key)
    requires s.Valid()
    ensures s.GetCallBuffer(key).Valid() && s.CallProcedure(procedures, key).store.Valid()
  {
    GetCallBufferKeeps(s, key);
    var t := s.GetCallBuffer(key);
    CallsAreFree(t, t.calls - {key});
    ExecuteKeeps(t.(calls := t.calls - {key}), procedures, key.call.procedure, t.calls[key]);
  }

  function UsedAll(s: Store, us: seq<Use>): (t: Store)
    requires s.Valid()
    ensures t.Valid()
    decreases |us|
  {
    if us == [] then s else UsedAll(Used(s, us[0]), us[1..])
  }

  /** The message still feeds the channel. */
  predicate Feeds(s: Store, id: nat, ch: nat) {
    id in s.messages && s.messages[id].sender == Sender(ch, true)
  }

  /** The channel has carried nothing. It is open exactly as long as its completed message feeds it, and no other
      message has to do with it. */
  ghost predicate Late(s: Store, id: nat, ch: nat, lock: nat) {
    && s.Valid() && ch < |s.channels| && lock < |s.locks| && s.locks[lock].Completed?
    && s.channels[ch].sent == [] && s.channels[ch].taken == 0
    && (s.channels[ch].senderAlive <==> Feeds(s, id, ch))
    && (forall i :: i in s.messages && s.messages[i].sender.Sender? && s.messages[i].sender.channel == ch ==>
          i == id && Feeds(s, id, ch) && s.messages[i].lock == lock)
  }

  lemma PushStaysLate(s: Store, id: nat, ch: nat, lock: nat)
    requires Late(s, id, ch, lock)
    ensures Late(s.Push(), id, ch, lock)
  {
    PushKeeps(s);
  }

  lemma PopStaysLate(s: Store, id: nat, ch: nat, lock: nat, i: nat)
    requires Late(s, id, ch, lock)
    ensures Late(s.Pop(i), id, ch, lock)
  {
    Stores.PopKeeps(s, i);
  }

  lemma CallsStayLate(s: Store, id: nat, ch: nat, lock: nat, calls: map<Key, nat>)
    requires Late(s, id, ch, lock)
    ensures Late(s.(calls := calls), id, ch, lock)
  {
    CallsAreFree(s, calls);
  }

  /** What feeds a late stream is complete, so nothing is written to it. */
  lemma WritesStayLate(s: Store, id: nat, ch: nat, lock: nat, data: Bytes, i: nat)
    requires Late(s, id, ch, lock)
    ensures Late(s.SendMany(data, i), id, ch, lock)
    ensures Late(s.TerminateChunk(i), id, ch, lock)
  {
    SendManyKeeps(s, data, i);
    TerminateChunkKeeps(s, i);
  }

  lemma CompletingStaysLate(s: Store, id: nat, ch: nat, lock: nat, i: nat)
    requires Late(s, id, ch, lock) && i in s.messages
    ensures Late(s.Complete(i), id, ch, lock)
  {
    CompleteKeeps(s, i);
  }

  lemma TerminationStaysLate(s: Store, id: nat, ch: nat, lock: nat, i: nat)
    requires Late(s, id, ch, lock)
    ensures Late(s.TerminateMessage(i), id, ch, lock)
  {
    TerminateMessageKeeps(s, i);
    if s.Accepts(i).Ok? {
      CompletingStaysLate(s, id, ch, lock, i);
    }
  }

  lemma OpeningStaysLate(s: Store, id: nat, ch: nat, lock: nat, i: nat)
    requires Late(s, id, ch, lock) && i in s.messages
    ensures Late(s.OpenStream(i), id, ch, lock)
  {
    OpenStreamKeeps(s, i);
  }

  lemma BufferStaysLate(s: Store, id: nat, ch: nat, lock: nat, key: Key)
    requires Late(s, id, ch, lock)
    ensures s.GetCallBuffer(key).Valid() && Late(s.GetCallBuffer(key), id, ch, lock)
  {
    GetCallBufferKeeps(s, key);
    PushStaysLate(s, id, ch, lock);
    hide Late, Store.Push, Store.Valid;
    if key !in s.calls {
      CallsStayLate(s.Push(), id, ch, lock, s.calls[key := s.messageIds.Next()]);
    }
  }

  lemma CallStaysLate(s: Store, id: nat, ch: nat, lock: nat, procedures: Procedures, key: Key)
    requires Late(s, id, ch, lock)
    ensures s.GetCallBuffer(key).Valid() && Late(s.CallProcedure(procedures, key).store, id, ch, lock)
  {
    hide Late, Store.Pop, Store.Valid, Store.GetCallBuffer;
    LateValid(s, id, ch, lock);
    BufferStaysLate(s, id, ch, lock, key);
    GetCallBufferKeeps(s, key);
    var t := s.GetCallBuffer(key);
    CallsAreFree(t, t.calls - {key});
    CallsStayLate(t, id, ch, lock, t.calls - {key});
    PopStaysLate(t.(calls := t.calls - {key}), id, ch, lock, t.calls[key]);
  }

  lemma ReceivingStaysLate(s: Store, id: nat, ch: nat, lock: nat, c: nat, l: nat, i: nat)
    requires Late(s, id, ch, lock) && c < |s.channels|
    ensures Late(s.DropReceiver(c), id, ch, lock)
    ensures l < |s.locks| && s.CanReceive(c, l) ==> Late(s.Receive(c, l, i).0, id, ch, lock)
  {
    DropReceiverKeeps(s, c);
    if l < |s.locks| && s.CanReceive(c, l) {
      ReceiveKeeps(s, c, l, i);
    }
  }

  lemma StaysLate(s: Store, id: nat, ch: nat, lock: nat, u: Use)
    requires Late(s, id, ch, lock)
    ensures Late(Used(s, u), id, ch, lock)
  {
    match u
    case Push => PushStaysLate(s, id, ch, lock);
    case Pop(i) => PopStaysLate(s, id, ch, lock, i);
    case Send(datum, i) =>
      WritesStayLate(s, id, ch, lock, if 0 <= datum < 128 then [datum] else [], i);
      if i in s.messages {
        CompletingStaysLate(s, id, ch, lock, i);
      }
    case SendMany(data, i) => WritesStayLate(s, id, ch, lock, data, i);
    case TerminateChunk(i) => WritesStayLate(s, id, ch, lock, [], i);
    case TerminateMessage(i) => TerminationStaysLate(s, id, ch, lock, i);
    case _ => StaysLateElse(s, id, ch, lock, u);
  }

  lemma StaysLateElse(s: Store, id: nat, ch: nat, lock: nat, u: Use)
    requires Late(s, id, ch, lock)
    ensures Late(UsedElse(s, u), id, ch, lock)
  {
    match u
    case OpenStream(i) =>
      if i in s.messages {
        OpeningStaysLate(s, id, ch, lock, i);
      }
    case GetRaw(i) => PopStaysLate(s, id, ch, lock, i);
    case GetCallBuffer(key) => BufferStaysLate(s, id, ch, lock, key);
    case CallProcedure(procedures, key) => CallStaysLate(s, id, ch, lock, procedures, key);
    case DropAssociated(key) =>
      if key in s.calls {
        PopStaysLate(s, id, ch, lock, s.calls[key]);
        CallsStayLate(s.Pop(s.calls[key]), id, ch, lock, s.calls - {key});
      }
    case Poison(l) =>
      if l < |s.locks| {
        PoisonKeeps(s, l);
      }
    case Receive(c, l, i) =>
      if c < |s.channels| {
        ReceivingStaysLate(s, id, ch, lock, c, l, i);
      }
    case DropReceiver(c) =>
      if c < |s.channels| {
        ReceivingStaysLate(s, id, ch, lock, c, 0, 0);
      }
    case _ =>
  }

  lemma {:induction false} AlwaysLate(s: Store, id: nat, ch: nat, lock: nat, us: seq<Use>)
    requires Late(s, id, ch, lock)
    ensures Late(UsedAll(s, us), id, ch, lock)
    decreases |us|
  {
    hide Late, Used;
    LateValid(s, id, ch, lock);
    if us != [] {
      StaysLate(s, id, ch, lock, us[0]);
      AlwaysLate(Used(s, us[0]), id, ch, lock, us[1..]);
    }
  }

  lemma LateValid(s: Store, id: nat, ch: nat, lock: nat)
    requires Late(s, id, ch, lock)
    ensures s.Valid()
  {
  }

  /** A stream opened on a completed message never delivers a chunk, whatever is done afterwards. Its receiver waits
      until the message is removed, or another stream takes this one's place, and then gets the end of the stream. */
  lemma LateStreamEndsIff(s: Store, id: nat, us: seq<Use>)
    requires s.Valid() && id in s.messages && s.LockOf(id).Completed?
    ensures s.OpenStream(id).Valid()
    ensures var (ch, lock, t) := (|s.channels|, s.messages[id].lock, UsedAll(s.OpenStream(id), us));
            && ch < |t.channels| && lock < |t.locks| && t.channels[ch].sent == []
            && (t.CanReceive(ch, lock) <==> !Feeds(t, id, ch))
            && (t.CanReceive(ch, lock) ==> t.Receive(ch, lock, id) == (t, Ok(Nothing)))
  {
    OpenStreamKeeps(s, id);
    var (ch, lock, o) := (|s.channels|, s.messages[id].lock, s.OpenStream(id));
    OpenedIsLate(s, id);
    AlwaysLate(o, id, ch, lock, us);
    hide Store.Valid, UsedAll;
  }

  lemma OpenedIsLate(s: Store, id: nat)
    requires s.Valid() && id in s.messages && s.LockOf(id).Completed?
    ensures Late(s.OpenStream(id), id, |s.channels|, s.messages[id].lock)
  {
    OpenStreamKeeps(s, id);
  }
}
