/** What an `Interface` holds and what each of its operations makes of it (`src/interface_common.rs`).

    A `CompleteLock` and a channel are shared by reference in the program. Here each has a number, its position in
    `locks` or `channels`; a clone is the same number, and a number is never used again. */
module Stores {
  import opened Types
  import opened RoiQueues

  /** `sender` of a buffer: never installed, or the channel it feeds, which termination may have let go of. */
  datatype Sender = NoSender | Sender(channel: nat, live: bool)

  datatype Buffer = Buffer(chunks: seq<Bytes>, lock: nat, sender: Sender)

  /** A channel of chunks. The receiver has taken the first `taken` of those `sent`. `kept` records how many finished
      chunks the buffer already held when the channel was installed. */
  datatype Channel = Channel(sent: seq<Bytes>, taken: nat, receiverAlive: bool, senderAlive: bool, kept: nat)

  datatype Yield = Yield(bytes: Bytes, terminator: Terminator)

  /** What a streaming closure does before it returns: what it yields straight away, and whether it fails. */
  datatype Started = Started(yielded: seq<Yield>, result: Result<()>)

  datatype Procedure =
    | Standard(run: Bytes -> Result<Bytes>)
    | Streaming(start: Bytes -> Started)

  type Procedures = map<nat, Procedure>

  /** The result of `call_procedure`, with what the closure handed to its yielder meanwhile. */
  datatype Called = Called(store: Store, result: Result<Option<Bytes>>, yielded: seq<Yield>)

  function Last(chunks: seq<Bytes>): Bytes
    requires chunks != []
  {
    chunks[|chunks| - 1]
  }

  function AllButLast(chunks: seq<Bytes>): seq<Bytes>
    requires chunks != []
  {
    chunks[..|chunks| - 1]
  }

  function Extend(chunks: seq<Bytes>, data: Bytes): (r: seq<Bytes>)
    requires chunks != []
    ensures |r| == |chunks| && AllButLast(r) == AllButLast(chunks) && Last(r) == Last(chunks) + data
  {
    AllButLast(chunks) + [Last(chunks) + data]
  }

  datatype Store = Store(messages: map<nat, Buffer>, messageIds: Roi, calls: map<Key, nat>, wireIds: Roi,
                         locks: seq<LockState>, channels: seq<Channel>)
  {
    /** Enough for no `unwrap` in the interface to fail: a buffer always has a chunk, and its lock and channel are
        its own. */
    ghost predicate Valid() {
      && (forall id :: id in messages ==> BufferValid(messages[id]))
      && (forall i, j :: i in messages && j in messages && messages[i].lock == messages[j].lock ==> i == j)
      && (forall i, j :: i in messages && j in messages && i != j ==> Apart(messages[i].sender, messages[j].sender))
    }

    static predicate Apart(a: Sender, b: Sender) {
      a.Sender? && b.Sender? ==> a.channel != b.channel
    }

    ghost predicate BufferValid(b: Buffer) {
      && b.chunks != []
      && b.lock < |locks|
      && (b.sender.Sender? ==>
            && b.sender.channel < |channels|
            && channels[b.sender.channel].kept < |b.chunks|
            && (channels[b.sender.channel].receiverAlive ==> |b.chunks| == channels[b.sender.channel].kept + 1)
            && (locks[b.lock].Completed? || b.sender.live))
    }

    function LockOf(id: nat): LockState
      requires Valid() && id in messages
    {
      locks[messages[id].lock]
    }

    /** Dropping a buffer drops its sender. */
    function Dropped(b: Buffer): Store
      requires BufferValid(b)
    {
      if b.sender.Sender? && b.sender.live then
        var ch := b.sender.channel;
        this.(channels := channels[ch := channels[ch].(senderAlive := false)])
      else this
    }

    function Push(): Store
      requires Valid()
    {
      var id := messageIds.Next();
      var s := if id in messages then Dropped(messages[id]) else this;
      s.(messages := messages[id := Buffer([[]], |locks|, NoSender)],
         messageIds := messageIds.Taken(),
         locks := locks + [Incomplete])
    }

    function Pop(id: nat): Store
      requires Valid()
    {
      if id in messages then
        Dropped(messages[id]).(messages := messages - {id}, messageIds := messageIds.Returned(id))
      else this
    }

    /** Bytes and terminators are refused by a buffer that is not there or is completed, but not by a poisoned one. */
    function Accepts(id: nat): Result<()>
      requires Valid()
    {
      if id !in messages then Err(OutOfBounds(id))
      else if LockOf(id).Completed? then Err(AlreadyCompleted(id))
      else Ok(())
    }

    function SendMany(data: Bytes, id: nat): Store
      requires Valid()
    {
      if Accepts(id).Err? then this
      else
        var b := messages[id];
        this.(messages := messages[id := b.(chunks := Extend(b.chunks, data))])
    }

    /** Single bytes, where a negative one completes the message and leaves its sender alone. */
    function Send(datum: int, id: nat): (Store, Result<bool>)
      requires Valid() && -128 <= datum < 128
    {
      match Accepts(id)
      case Err(e) => (this, Err(e))
      case Ok(_) =>
        if datum < 0 then (this.(locks := locks[messages[id].lock := Completed]), Ok(false))
        else (SendMany([datum], id), Ok(true))
    }

    function Deliver(ch: nat, chunk: Bytes): Store
      requires ch < |channels|
    {
      this.(channels := channels[ch := channels[ch].(sent := channels[ch].sent + [chunk])])
    }

    function Streams(b: Buffer): bool
      requires BufferValid(b)
    {
      b.sender.Sender? && channels[b.sender.channel].receiverAlive
    }

    function TerminateChunk(id: nat): Store
      requires Valid()
    {
      if Accepts(id).Err? then this
      else
        var b := messages[id];
        if Streams(b) then
          Deliver(b.sender.channel, Last(b.chunks))
            .(messages := messages[id := b.(chunks := AllButLast(b.chunks) + [[]])])
        else
          this.(messages := messages[id := b.(chunks := b.chunks + [[]])])
    }

    function Complete(id: nat): Store
      requires Valid() && id in messages
    {
      this.(locks := locks[messages[id].lock := Completed])
    }

    function TerminateMessage(id: nat): Store
      requires Valid()
    {
      if Accepts(id).Err? then this
      else if messages[id].sender.Sender? then
        CompleteKeeps(this, id);
        Complete(id).FinishStream(id)
      else Complete(id)
    }

    /** The last chunk of a completed message goes down its stream, and the message goes with it; or the receiver has
        gone, and then only the sender goes. */
    function FinishStream(id: nat): Store
      requires Valid() && id in messages && messages[id].sender.Sender?
    {
      var b := messages[id];
      var ch := b.sender.channel;
      if Streams(b) then
        var s := Deliver(ch, Last(b.chunks)).Dropped(b);
        s.(messages := messages - {id}, messageIds := messageIds.Returned(id))
      else
        Dropped(b).(messages := messages[id := b.(sender := b.sender.(live := false))])
    }

    /** The number of the new channel is `|channels|`. */
    function OpenStream(id: nat): Store
      requires Valid() && id in messages
    {
      var b := messages[id];
      var s := Dropped(b);
      s.(messages := messages[id := b.(sender := Sender(|channels|, true))],
         channels := s.channels + [Channel([], 0, true, true, |b.chunks| - 1)])
    }

    function DropReceiver(ch: nat): Store
      requires ch < |channels|
    {
      this.(channels := channels[ch := channels[ch].(receiverAlive := false)])
    }

    function GetCallBuffer(key: Key): Store
      requires Valid()
    {
      if key in calls then this
      else Push().(calls := calls[key := messageIds.Next()])
    }

    function CallProcedure(procedures: Procedures, key: Key): Called
      requires Valid() && (key in calls || GetCallBuffer(key).Valid())
    {
      var s := GetCallBuffer(key);
      var id := s.calls[key];
      s.(calls := s.calls - {key}).Execute(procedures, key.call.procedure, id)
    }

    /** The procedure runs on the buffer's only chunk. The buffer goes once the closure has returned, except that a
        streaming closure which fails, or a procedure which is not there, leaves it behind. */
    function Execute(procedures: Procedures, procedure: nat, id: nat): Called
      requires Valid()
    {
      if procedure !in procedures then Called(this, Err(NoSuchProcedure(procedure)), [])
      else if id !in messages then Called(this, Err(NoCallBuffer(id)), [])
      else
        match LockOf(id)
        case Incomplete => Called(this, Err(CallBufferIncomplete(id)), [])
        case Poisoned => Called(this, Err(CallBufferPoisoned(id)), [])
        case Completed =>
          var args := messages[id].chunks[0];
          match procedures[procedure]
          case Standard(run) =>
            (match run(args)
             case Ok(value) => Called(Pop(id), Ok(Some(value)), [])
             case Err(e) => Called(Pop(id), Err(e), []))
          case Streaming(start) =>
            var started := start(args);
            if started.result.Ok? then Called(Pop(id), Ok(Nothing), started.yielded)
            else Called(this, Err(started.result.error), started.yielded)
    }

    function DropAssociated(key: Key): Store
      requires Valid()
    {
      if key in calls then Pop(calls[key]).(calls := calls - {key}) else this
    }

    /** Waiting for a message comes to an end once its lock is decided. */
    predicate Ready(id: nat)
      requires Valid()
    {
      id in messages && !LockOf(id).Incomplete?
    }

    function GetRaw(id: nat): (Store, Result<seq<Bytes>>)
      requires Valid() && Ready(id)
    {
      if LockOf(id).Poisoned? then (this, Err(LockPoisoned(id))) else (Pop(id), Ok(messages[id].chunks))
    }

    function Poison(lock: nat): Store
      requires lock < |locks|
    {
      if locks[lock].Incomplete? then this.(locks := locks[lock := Poisoned]) else this
    }

    // --- Receiving from a channel ---

    predicate CanReceive(ch: nat, lock: nat)
      requires ch < |channels| && lock < |locks|
    {
      locks[lock].Poisoned? || channels[ch].taken < |channels[ch].sent| || !channels[ch].senderAlive
    }

    /** The next chunk, or the end of the stream; or an error if nothing is left and the lock is poisoned. */
    function Receive(ch: nat, lock: nat, id: nat): (Store, Result<Option<Bytes>>)
      requires ch < |channels| && lock < |locks| && CanReceive(ch, lock)
    {
      var c := channels[ch];
      if c.taken < |c.sent| then
        (this.(channels := channels[ch := c.(taken := c.taken + 1)]), Ok(Some(c.sent[c.taken])))
      else if locks[lock].Poisoned? then (this, Err(LockPoisoned(id)))
      else (this, Ok(Nothing))
    }
  }

  function EmptyStore(w: Width): Store {
    Store(map[], FreshQueue(w.Limit()), map[], FreshQueue(w.Limit()), [], [])
  }

  // --- Every operation keeps the store valid ---

  lemma DroppedKeeps(s: Store, b: Buffer)
    requires s.Valid() && s.BufferValid(b)
    ensures s.Dropped(b).Valid()
  {
  }

  lemma PushKeeps(s: Store)
    requires s.Valid()
    ensures s.Push().Valid()
  {
  }

  lemma PopKeeps(s: Store, id: nat)
    requires s.Valid()
    ensures s.Pop(id).Valid()
  {
  }

  /** A buffer may gain chunks, and channels may gain what was sent to them. */
  lemma GrownKeeps(s: Store, t: Store, id: nat)
    requires s.Valid() && id in s.messages && id in t.messages && t.locks == s.locks
    requires t.messages == s.messages[id := s.messages[id].(chunks := t.messages[id].chunks)]
    requires |t.messages[id].chunks| >= |s.messages[id].chunks|
    requires |t.channels| == |s.channels|
    requires forall ch :: 0 <= ch < |s.channels| ==>
               && t.channels[ch].kept == s.channels[ch].kept
               && t.channels[ch].receiverAlive == s.channels[ch].receiverAlive
    requires s.Streams(s.messages[id]) ==> |t.messages[id].chunks| == |s.messages[id].chunks|
    ensures t.Valid()
  {
  }

  lemma SendManyKeeps(s: Store, data: Bytes, id: nat)
    requires s.Valid()
    ensures s.SendMany(data, id).Valid()
  {
    if s.Accepts(id).Ok? {
      GrownKeeps(s, s.SendMany(data, id), id);
    }
  }

  lemma TerminateChunkKeeps(s: Store, id: nat)
    requires s.Valid()
    ensures s.TerminateChunk(id).Valid()
  {
    if s.Accepts(id).Ok? {
      var t := s.TerminateChunk(id);
      assert |t.channels| == |s.channels|;
      GrownKeeps(s, t, id);
    }
  }

  lemma CompleteKeeps(s: Store, id: nat)
    requires s.Valid() && id in s.messages
    ensures s.Complete(id).Valid()
  {
  }

  lemma FinishStreamKeeps(s: Store, id: nat)
    requires s.Valid() && id in s.messages && s.messages[id].sender.Sender? && s.LockOf(id).Completed?
    ensures s.FinishStream(id).Valid()
  {
    hide Store.Valid, Store.Dropped, Store.Deliver;
    BufferKnown(s, id);
    var b := s.messages[id];
    if s.Streams(b) {
      DeliverKeeps(s, b, Last(b.chunks));
      var t := s.Deliver(b.sender.channel, Last(b.chunks));
      DroppedKeeps(t, b);
      FewerKeeps(t.Dropped(b), id, s.messageIds.Returned(id));
    } else {
      SilencedKeeps(s, id);
    }
  }

  lemma BufferKnown(s: Store, id: nat)
    requires s.Valid() && id in s.messages
    ensures s.BufferValid(s.messages[id])
  {
  }

  lemma DeliverKeeps(s: Store, b: Buffer, chunk: Bytes)
    requires s.Valid() && s.BufferValid(b) && b.sender.Sender?
    ensures s.Deliver(b.sender.channel, chunk).Valid() && s.Deliver(b.sender.channel, chunk).BufferValid(b)
    ensures s.Deliver(b.sender.channel, chunk).Dropped(b).messages == s.messages
    ensures s.Deliver(b.sender.channel, chunk).Dropped(b).messageIds == s.messageIds
  {
  }

  lemma FewerKeeps(s: Store, id: nat, ids: Roi)
    requires s.Valid()
    ensures s.(messages := s.messages - {id}, messageIds := ids).Valid()
  {
  }

  lemma SilencedKeeps(s: Store, id: nat)
    requires s.Valid() && id in s.messages && s.messages[id].sender.Sender? && s.LockOf(id).Completed?
    ensures var b := s.messages[id];
            s.Dropped(b).(messages := s.messages[id := b.(sender := b.sender.(live := false))]).Valid()
  {
  }

  lemma TerminateMessageKeeps(s: Store, id: nat)
    requires s.Valid()
    ensures s.TerminateMessage(id).Valid()
  {
    if s.Accepts(id).Ok? {
      CompleteKeeps(s, id);
      if s.messages[id].sender.Sender? {
        FinishStreamKeeps(s.Complete(id), id);
      }
    }
  }

  lemma OpenStreamKeeps(s: Store, id: nat)
    requires s.Valid() && id in s.messages
    ensures s.OpenStream(id).Valid()
  {
  }

  lemma GetCallBufferKeeps(s: Store, key: Key)
    requires s.Valid()
    ensures s.GetCallBuffer(key).Valid() && key in s.GetCallBuffer(key).calls
  {
    PushKeeps(s);
  }

  lemma PoisonKeeps(s: Store, lock: nat)
    requires s.Valid() && lock < |s.locks|
    ensures s.Poison(lock).Valid()
  {
  }
}
