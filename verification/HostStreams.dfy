/** Streams of responses at a host: opening one loses nothing that has been written, and over whole runs its receiver is
    handed exactly the chunks that went down it, in order, whatever else happens. What it is told when there are no more
    is what became of the response. */
module HostStreams {
  import opened Types
  import opened Stores
  import opened Chunks
  import opened WireFormat
  import opened Wires
  import opened Hosts
  import opened HostCalls
  import opened HostResponses
  import opened HostSteps
  import opened HostRuns
  import opened HostContents
  import opened HostTheorems

  // --- Opening ---

  /** The handle becomes a stream: nothing written to any message is lost, what has been finished so far stays in the
      buffer, and a new channel, on which nothing has been sent, takes the chunks from now on. */
  lemma OpeningKeepsAll(procedures: Procedures, h: Host, id: nat)
    requires Inv(h) && Enabled(h, Open(id))
    ensures var (g, ch) := (Next(procedures, h, Open(id)), |h.store.channels|);
            && Preserves(h.store, g.store, {}) && g.store.messages.Keys == h.store.messages.Keys
            && g.owner == h.owner && g.handles == h.handles - {id}
            && id in g.store.messages && g.store.messages[id].chunks == h.store.messages[id].chunks
            && g.store.messages[id].sender == Sender(ch, true) && g.store.Streams(g.store.messages[id])
            && |g.store.channels| == ch + 1 && g.store.channels[..ch] == h.store.channels
            && g.store.channels[ch].sent == [] && g.store.channels[ch].taken == 0
  {
    hide MessagesInv, MapsInv, Content, Store.Valid, Store.OpenStream, Store.Streams;
    HandleOwner(h, id);
    Owned(h);
    OpenStreamPreserves(h.store, id);
    OpenedStream(h.store, id);
  }

  lemma OpenedStream(s: Store, id: nat)
    requires s.Valid() && id in s.messages && s.messages[id].sender.NoSender?
    ensures var (t, ch) := (s.OpenStream(id), |s.channels|);
            && t.Valid() && t.messages == s.messages[id := s.messages[id].(sender := Sender(ch, true))]
            && t.Streams(t.messages[id])
            && |t.channels| == ch + 1 && t.channels[..ch] == s.channels
            && t.channels[ch].sent == [] && t.channels[ch].taken == 0
  {
    OpenStreamKeeps(s, id);
  }

  // --- Channels over steps ---

  /** The receiver has lost nothing and sees no chunk out of turn: what was sent stays, more may follow. */
  predicate Follows(c: Channel, d: Channel) {
    c.sent <= d.sent && d.taken == c.taken && d.kept == c.kept && (d.receiverAlive ==> c.receiverAlive)
  }

  predicate ChannelsFollow(before: seq<Channel>, after: seq<Channel>) {
    |before| <= |after| && forall ch :: 0 <= ch < |before| ==> Follows(before[ch], after[ch])
  }

  lemma FollowTwice(a: seq<Channel>, b: seq<Channel>, c: seq<Channel>)
    requires ChannelsFollow(a, b) && ChannelsFollow(b, c)
    ensures ChannelsFollow(a, c)
  {
  }

  lemma PopChannels(s: Store, id: nat)
    requires s.Valid()
    ensures ChannelsFollow(s.channels, s.Pop(id).channels)
  {
  }

  lemma PushChannels(s: Store)
    requires s.Valid()
    ensures ChannelsFollow(s.channels, s.Push().channels)
  {
  }

  lemma SendManyChannels(s: Store, bytes: Bytes, id: nat)
    requires s.Valid()
    ensures s.SendMany(bytes, id).channels == s.channels
  {
  }

  lemma TerminateChunkChannels(s: Store, id: nat)
    requires s.Valid()
    ensures ChannelsFollow(s.channels, s.TerminateChunk(id).channels)
  {
  }

  lemma CompleteChannels(s: Store, id: nat)
    requires s.Valid() && id in s.messages
    ensures s.Complete(id).channels == s.channels
  {
  }

  lemma FinishStreamChannels(s: Store, id: nat)
    requires s.Valid() && id in s.messages && s.messages[id].sender.Sender?
    ensures ChannelsFollow(s.channels, s.FinishStream(id).channels)
  {
  }

  lemma OpenStreamChannels(s: Store, id: nat)
    requires s.Valid() && id in s.messages
    ensures ChannelsFollow(s.channels, s.OpenStream(id).channels)
  {
  }

  lemma DropReceiverChannels(s: Store, ch: nat)
    requires ch < |s.channels|
    ensures ChannelsFollow(s.channels, s.DropReceiver(ch).channels)
  {
  }

  lemma {:induction false} DropCallsChannels(s: Store, w: nat, order: seq<Call>)
    requires s.Valid()
    ensures ChannelsFollow(s.channels, DropCalls(s, w, order).channels)
    decreases |order|
  {
    hide Store.Pop;
    DropAssociatedKeeps(s, if order == [] then Key(Call(0, 0), w) else Key(order[0], w));
    if order != [] {
      var key := Key(order[0], w);
      if key in s.calls {
        PopChannels(s, s.calls[key]);
      }
      hide Store.Valid;
      DropCallsChannels(s.DropAssociated(key), w, order[1..]);
      FollowTwice(s.channels, s.DropAssociated(key).channels, DropCalls(s, w, order).channels);
    }
  }

  lemma TerminateChannels(h: Host, w: nat, order: seq<Call>)
    requires h.store.Valid() && w in h.wires
    ensures ChannelsFollow(h.store.channels, Terminate(h, w, order).store.channels)
  {
    DropCallsChannels(h.store, w, order);
    hide Store.Valid, DropCalls, DropArguments;
  }

  lemma ConsumedChannels(s: Store, key: Key, kept: bool)
    requires s.Valid() && key in s.calls && s.calls[key] in s.messages
    ensures ChannelsFollow(s.channels, Consumed(s, key, kept).channels)
  {
    hide Store.Pop;
    var id := s.calls[key];
    CompleteKeeps(s, id);
    CallsAreFree(s.Complete(id), s.calls - {key});
    PopChannels(s.Complete(id).(calls := s.calls - {key}), id);
  }

  lemma AdmitChannels(procedures: Procedures, h: Host, w: nat, call: Call, t: Terminator, bytes: Bytes)
    requires Inv(h) && w in h.wires && !h.wires[w].terminated && (Key(call, w) in h.store.calls || Room(h))
    ensures ChannelsFollow(h.store.channels, Admit(procedures, h, w, call, t, bytes).store.channels)
  {
    hide MessagesInv, MapsInv, GathersAt, Store.Valid, Consumed, Store.SendMany, Store.Push;
    InvValid(h);
    AdmitKeeps(procedures, h, w, call, bytes);
    var (key, h1) := (Key(call, w), EnsureBuffer(h, w, call));
    PushChannels(h.store);
    InvValid(h1);
    SendManyChannels(h1.store, bytes, h1.store.calls[key]);
    var h2 := Accumulate(h1, key, bytes);
    InvValid(h2);
    OneChunk(h2.store, key);
    ConsumedChannels(h2.store, key, false);
    ConsumedChannels(h2.store, key, true);
  }

  lemma RespondChannels(h: Host, w: nat, call: Call, t: Terminator, bytes: Bytes)
    requires Inv(h) && w in h.wires
    ensures call in h.wires[w].responses ==> h.wires[w].responses[call] in h.store.messages
    ensures ChannelsFollow(h.store.channels, Respond(h, w, call, t, bytes).store.channels)
  {
    hide MessagesInv, MapsInv, Store.Valid, Store.SendMany, Store.TerminateChunk, Store.FinishStream;
    InvValid(h);
    if call in h.wires[w].responses {
      AwaitsThere(h, w, call);
      var (id, s1) := (h.wires[w].responses[call], h.store.SendMany(bytes, h.wires[w].responses[call]));
      SendManyThere(h.store, bytes, id);
      SendManyChannels(h.store, bytes, id);
      TerminateChunkChannels(s1, id);
      AcceptedThere(s1, id);
      SettledLock(s1, id);
      CompleteMessages(s1, id);
      CompleteChannels(s1, id);
      if s1.messages[id].sender.Sender? {
        FinishStreamChannels(s1.Complete(id), id);
      }
    }
  }

  lemma ReceivedChannels(procedures: Procedures, h: Host, w: nat, m: Message, order: seq<Call>)
    requires Inv(h) && w in h.wires && !h.wires[w].terminated && MayReceive(h, w, m, order)
    ensures ChannelsFollow(h.store.channels, Received(procedures, h, w, m, order).store.channels)
  {
    hide MessagesInv, MapsInv, Store.Valid, Admit, Respond, Terminate;
    InvValid(h);
    match m
    case Frame(CallFrame, call, t, bytes) =>
      if !OverLimit(h.wires[w], call) {
        AdmitChannels(procedures, h, w, call, t, bytes);
      }
    case Frame(ResponseFrame, call, t, bytes) => RespondChannels(h, w, call, t, bytes);
    case Termination => TerminateChannels(h, w, order);
    case _ =>
  }

  lemma CallingChannels(h: Host, a: Step)
    requires Inv(h) && Enabled(h, a) && Calling(a)
    ensures ChannelsFollow(h.store.channels, NextCalling(h, a).store.channels)
  {
    hide MessagesInv, MapsInv, Store.Valid, Store.Push, Encode, CanBegin, Unclaimed;
    InvValid(h);
    WireFacts(h, a.wire);
    PushChannels(h.store);
  }

  lemma HandlingChannels(h: Host, a: Step)
    requires Inv(h) && Enabled(h, a) && Handling(a) && !a.Take?
    ensures ChannelsFollow(h.store.channels, NextHandling(h, a).store.channels)
  {
    hide MessagesInv, MapsInv, Store.Valid, Store.Pop, Store.OpenStream, Store.DropReceiver;
    InvValid(h);
    match a
    case Wait(id) =>
      HandleOwner(h, id);
      PopChannels(h.store, id);
    case Open(id) => OpenStreamChannels(h.store, id);
    case Close(ch) => DropReceiverChannels(h.store, ch);
    case StrikeOff(_, _) =>
  }

  lemma ChannelsStep(procedures: Procedures, h: Host, a: Step)
    requires Inv(h) && Enabled(h, a) && !a.Take?
    ensures ChannelsFollow(h.store.channels, Next(procedures, h, a).store.channels)
  {
    hide MessagesInv, MapsInv, Store.Valid, Terminate, Received, NextCalling, NextHandling, MayReceive;
    InvValid(h);
    if Calling(a) {
      CallingChannels(h, a);
    } else if Handling(a) {
      HandlingChannels(h, a);
    } else {
      match a
      case DropWire(w, order) => TerminateChannels(h, w, order);
      case Receive(w, m, order) => ReceivedChannels(procedures, h, w, m, order);
      case ReadEof(w, order) => TerminateChannels(h, w, order);
      case _ =>
    }
  }

  // --- Receiving ---

  /** The chunk that a step hands to the receiver of channel `ch`, if it hands one. */
  function Handed(h: Host, a: Step, ch: nat): seq<Bytes>
    requires h.store.Valid() && Enabled(h, a)
  {
    if a.Take? && a.channel == ch then
      match h.store.Receive(ch, a.lock, a.id).1
      case Ok(Some(chunk)) => [chunk]
      case _ => []
    else []
  }

  function HandedIn(procedures: Procedures, h: Host, steps: seq<Step>, ch: nat): seq<Bytes>
    requires Inv(h) && LegalSteps(procedures, h, steps)
    decreases |steps|
  {
    if steps == [] then []
    else
      InvValid(h);
      StepKeeps(procedures, h, steps[0]);
      Handed(h, steps[0], ch) + HandedIn(procedures, Next(procedures, h, steps[0]), steps[1..], ch)
  }

  predicate InOrder(c: Channel) {
    c.taken <= |c.sent|
  }

  /** What is handed out is what was sent next. */
  lemma HandedStep(procedures: Procedures, h: Host, a: Step, ch: nat)
    requires Inv(h) && Enabled(h, a) && ch < |h.store.channels| && InOrder(h.store.channels[ch])
    ensures h.store.Valid()
    ensures var g := Next(procedures, h, a);
            && ch < |g.store.channels|
            && var (c, d) := (h.store.channels[ch], g.store.channels[ch]);
            && InOrder(d) && c.sent <= d.sent && c.taken <= d.taken
            && Handed(h, a, ch) == d.sent[c.taken..d.taken]
  {
    hide MessagesInv, MapsInv, Store.Valid;
    InvValid(h);
    if a.Take? {
      TakeStep(h.store, a.channel, a.lock, a.id, ch);
    } else {
      hide Next, Enabled;
      ChannelsStep(procedures, h, a);
    }
  }

  lemma TakeStep(s: Store, c: nat, lock: nat, id: nat, ch: nat)
    requires c < |s.channels| && lock < |s.locks| && s.CanReceive(c, lock)
    requires ch < |s.channels| && InOrder(s.channels[ch])
    ensures var (t, r) := s.Receive(c, lock, id);
            && |t.channels| == |s.channels| && InOrder(t.channels[ch])
            && t.channels[ch].sent == s.channels[ch].sent && s.channels[ch].taken <= t.channels[ch].taken
            && t.channels[ch].sent[s.channels[ch].taken..t.channels[ch].taken]
               == if c == ch && r.Ok? && r.value.Some? then [r.value.value] else []
  {
  }

  lemma SlicesJoin(c: seq<Bytes>, d: seq<Bytes>, i: nat, j: nat, k: nat)
    requires c <= d && i <= j <= |c| && j <= k <= |d|
    ensures c[i..j] + d[j..k] == d[i..k]
  {
  }

  /** Over every run, whatever else happens: the receiver of a channel is handed exactly what has been sent down it, in
      order and without gaps, from where it was. */
  lemma {:induction false} ReceiverGetsWhatWasSent(procedures: Procedures, h: Host, steps: seq<Step>, ch: nat)
    requires Inv(h) && LegalSteps(procedures, h, steps) && ch < |h.store.channels| && InOrder(h.store.channels[ch])
    ensures var g := RunSteps(procedures, h, steps);
            && ch < |g.store.channels|
            && var (c, d) := (h.store.channels[ch], g.store.channels[ch]);
            && InOrder(d) && c.sent <= d.sent && c.taken <= d.taken
            && HandedIn(procedures, h, steps, ch) == d.sent[c.taken..d.taken]
    decreases |steps|
  {
    hide Inv, Enabled, Next, Handed;
    if steps != [] {
      StepKeeps(procedures, h, steps[0]);
      HandedStep(procedures, h, steps[0], ch);
      var k := Next(procedures, h, steps[0]);
      ReceiverGetsWhatWasSent(procedures, k, steps[1..], ch);
      var g := RunSteps(procedures, k, steps[1..]);
      SlicesJoin(k.store.channels[ch].sent, g.store.channels[ch].sent, h.store.channels[ch].taken,
                 k.store.channels[ch].taken, g.store.channels[ch].taken);
    }
  }

  /** What a receiver is told. It gets a chunk exactly if one has been sent that it has not taken, and then the oldest
      such; it gets the end only if there is none, the sender is gone and the lock is not poisoned; and an error only if
      there is none and the lock is poisoned. Nothing but its own position changes. */
  lemma ReceiverIsTold(s: Store, ch: nat, lock: nat, id: nat)
    requires ch < |s.channels| && lock < |s.locks| && s.CanReceive(ch, lock) && InOrder(s.channels[ch])
    ensures var (c, (t, r)) := (s.channels[ch], s.Receive(ch, lock, id));
            && (c.taken < |c.sent| ==>
                  r == Ok(Some(c.sent[c.taken])) && t == s.(channels := s.channels[ch := c.(taken := c.taken + 1)]))
            && (c.taken == |c.sent| ==> t == s)
            && (r == Ok(Nothing) <==> c.taken == |c.sent| && !c.senderAlive && !s.locks[lock].Poisoned?)
            && (r.Err? <==> c.taken == |c.sent| && s.locks[lock].Poisoned?)
            && (r.Err? ==> r.error == LockPoisoned(id))
  {
  }

  // --- The end of a stream ---

  /** A stream: its channel, and the message that feeds it with its lock. */
  datatype Stream = Stream(channel: nat, lock: nat, id: nat)

  /** As long as the sender is there the message feeds the channel and is not complete; once it is gone the message has
      been completed, and nothing feeds the channel. */
  ghost predicate Feeds(s: Store, st: Stream) {
    && st.channel < |s.channels| && st.lock < |s.locks|
    && if s.channels[st.channel].senderAlive then
         && st.id in s.messages && s.messages[st.id].sender == Sender(st.channel, true)
         && s.messages[st.id].lock == st.lock && !s.locks[st.lock].Completed?
       else
         && s.locks[st.lock].Completed?
         && forall x :: x in s.messages ==> s.messages[x].sender != Sender(st.channel, true)
  }

  /** It goes on, and no chunk goes down it once its sender is gone. */
  ghost predicate CarriesOn(s: Store, t: Store, st: Stream) {
    Feeds(s, st) ==>
      && Feeds(t, st)
      && (!s.channels[st.channel].senderAlive ==>
            !t.channels[st.channel].senderAlive && t.channels[st.channel].sent == s.channels[st.channel].sent)
  }

  lemma CarriesTwice(s: Store, t: Store, u: Store, st: Stream)
    requires CarriesOn(s, t, st) && CarriesOn(t, u, st)
    ensures CarriesOn(s, u, st)
  {
  }

  lemma PushCarries(s: Store, st: Stream)
    requires s.Valid() && s.messageIds.Next() !in s.messages
    ensures CarriesOn(s, s.Push(), st)
  {
  }

  lemma PopCarries(s: Store, id: nat, st: Stream)
    requires s.Valid() && (id in s.messages ==> s.messages[id].sender.NoSender?)
    ensures CarriesOn(s, s.Pop(id), st)
  {
  }

  lemma SendManyCarries(s: Store, bytes: Bytes, id: nat, st: Stream)
    requires s.Valid()
    ensures CarriesOn(s, s.SendMany(bytes, id), st)
  {
  }

  lemma TerminateChunkCarries(s: Store, id: nat, st: Stream)
    requires s.Valid()
    ensures CarriesOn(s, s.TerminateChunk(id), st)
  {
  }

  /** A message that feeds nothing is completed. */
  lemma CompleteCarries(s: Store, id: nat, st: Stream)
    requires s.Valid() && id in s.messages && s.messages[id].sender.NoSender?
    ensures CarriesOn(s, s.Complete(id), st)
  {
  }

  lemma TerminateMessageCarries(s: Store, id: nat, st: Stream)
    requires s.Valid() && s.Accepts(id).Ok?
    ensures CarriesOn(s, s.TerminateMessage(id), st)
  {
    CompleteKeeps(s, id);
  }

  lemma OpenStreamCarries(s: Store, id: nat, st: Stream)
    requires s.Valid() && id in s.messages && s.messages[id].sender.NoSender?
    ensures CarriesOn(s, s.OpenStream(id), st)
  {
  }

  lemma DropReceiverCarries(s: Store, ch: nat, st: Stream)
    requires ch < |s.channels|
    ensures CarriesOn(s, s.DropReceiver(ch), st)
  {
  }

  lemma ReceiveCarries(s: Store, ch: nat, lock: nat, id: nat, st: Stream)
    requires ch < |s.channels| && lock < |s.locks| && s.CanReceive(ch, lock)
    ensures CarriesOn(s, s.Receive(ch, lock, id).0, st)
  {
  }

  lemma PoisonCarries(s: Store, locks: set<nat>, st: Stream)
    ensures CarriesOn(s, PoisonAll(s, locks), st)
  {
  }

  /** Neither the argument map nor the wire identifiers have a say in it. */
  lemma SameCarries(s: Store, t: Store, st: Stream)
    requires t.messages == s.messages && t.locks == s.locks && t.channels == s.channels
    ensures CarriesOn(s, t, st)
  {
  }

  lemma DropArgumentCarries(h: Host, key: Key, st: Stream)
    requires Inv(h)
    ensures h.store.Valid() && CarriesOn(h.store, DropArgument(h, key).store, st)
  {
    hide MessagesInv, MapsInv, Feeds, Store.Valid, Store.Pop, Store.LockOf;
    InvValid(h);
    SameCarries(h.store, h.store, st);
    if key in h.store.calls {
      GathersThere(h, key);
      var t := h.store.Pop(h.store.calls[key]);
      PopCarries(h.store, h.store.calls[key], st);
      SameCarries(t, t.(calls := h.store.calls - {key}), st);
      PopEffect(h.store, h.store.calls[key]);
    }
  }

  lemma {:induction false} DropArgumentsCarry(h: Host, w: nat, order: seq<Call>, st: Stream)
    requires Inv(h)
    ensures h.store.Valid() && CarriesOn(h.store, DropArguments(h, w, order).store, st)
    decreases |order|
  {
    hide Inv, Feeds, Store.Valid;
    InvValid(h);
    if order == [] {
      SameCarries(h.store, h.store, st);
    } else {
      var g := DropArgument(h, Key(order[0], w));
      DropArgumentKeeps(h, Key(order[0], w));
      DropArgumentCarries(h, Key(order[0], w), st);
      DropArgumentsCarry(g, w, order[1..], st);
      CarriesTwice(h.store, g.store, DropArguments(g, w, order[1..]).store, st);
    }
  }

  lemma TerminateCarries(h: Host, w: nat, order: seq<Call>, st: Stream)
    requires Inv(h) && w in h.wires
    ensures h.store.Valid() && CarriesOn(h.store, Terminate(h, w, order).store, st)
  {
    hide Inv, Feeds, Store.Valid, DropArguments, DropCalls;
    InvValid(h);
    var g := DropArguments(h, w, order);
    DropArgumentsCarry(h, w, order, st);
    PoisonCarries(g.store, g.wires[w].idle.Values, st);
    CarriesTwice(h.store, g.store, Terminate(h, w, order).store, st);
  }

  lemma EnsureBufferCarries(h: Host, w: nat, call: Call, st: Stream)
    requires Inv(h) && w in h.wires && (Key(call, w) in h.store.calls || Room(h))
    ensures h.store.Valid() && CarriesOn(h.store, EnsureBuffer(h, w, call).store, st)
  {
    hide MessagesInv, MapsInv, Feeds, Store.Valid, Store.Push;
    InvValid(h);
    SameCarries(h.store, h.store, st);
    if Key(call, w) !in h.store.calls {
      FreshId(h);
      PushCarries(h.store, st);
      SameCarries(h.store.Push(), EnsureBuffer(h, w, call).store, st);
      CarriesTwice(h.store, h.store.Push(), EnsureBuffer(h, w, call).store, st);
    }
  }

  lemma ConsumedCarries(s: Store, key: Key, kept: bool, st: Stream)
    requires s.Valid() && GathersAt(s, key)
    ensures CarriesOn(s, Consumed(s, key, kept), st)
  {
    hide Feeds, Store.Pop;
    var id := s.calls[key];
    CompleteKeeps(s, id);
    CompleteCarries(s, id, st);
    var t := s.Complete(id).(calls := s.calls - {key});
    CallsAreFree(s.Complete(id), s.calls - {key});
    SameCarries(s.Complete(id), t, st);
    CarriesTwice(s, s.Complete(id), t, st);
    PopCarries(t, id, st);
    CarriesTwice(s, t, t.Pop(id), st);
  }

  lemma AdmitCarries(procedures: Procedures, h: Host, w: nat, call: Call, t: Terminator, bytes: Bytes, st: Stream)
    requires Inv(h) && w in h.wires && !h.wires[w].terminated && (Key(call, w) in h.store.calls || Room(h))
    ensures h.store.Valid() && CarriesOn(h.store, Admit(procedures, h, w, call, t, bytes).store, st)
  {
    hide MessagesInv, MapsInv, GathersAt, Feeds, Store.Valid, Consumed, Store.SendMany, EnsureBuffer, CarriesOn;
    InvValid(h);
    AdmitKeeps(procedures, h, w, call, bytes);
    var (key, h1) := (Key(call, w), EnsureBuffer(h, w, call));
    EnsureBufferCarries(h, w, call, st);
    InvValid(h1);
    SendManyCarries(h1.store, bytes, h1.store.calls[key], st);
    var h2 := Accumulate(h1, key, bytes);
    CarriesTwice(h.store, h1.store, h2.store, st);
    InvValid(h2);
    OneChunk(h2.store, key);
    if t.Complete? {
      ConsumedCarries(h2.store, key, false, st);
      ConsumedCarries(h2.store, key, true, st);
      CarriesTwice(h.store, h2.store, Consumed(h2.store, key, false), st);
      CarriesTwice(h.store, h2.store, Consumed(h2.store, key, true), st);
    }
  }

  lemma RespondCarries(h: Host, w: nat, call: Call, t: Terminator, bytes: Bytes, st: Stream)
    requires Inv(h) && w in h.wires
    ensures h.store.Valid() && (call in h.wires[w].responses ==> h.wires[w].responses[call] in h.store.messages)
    ensures CarriesOn(h.store, Respond(h, w, call, t, bytes).store, st)
  {
    hide MessagesInv, MapsInv, Feeds, Store.Valid, Store.SendMany, Store.TerminateChunk, Store.TerminateMessage;
    hide Respond, CarriesOn;
    InvValid(h);
    ReceiveResponseEffect(h, w, call, t, bytes);
    SameCarries(h.store, h.store, st);
    if call in h.wires[w].responses {
      AwaitsThere(h, w, call);
      var (id, s1) := (h.wires[w].responses[call], h.store.SendMany(bytes, h.wires[w].responses[call]));
      SendManyThere(h.store, bytes, id);
      SendManyCarries(h.store, bytes, id, st);
      TerminateChunkCarries(s1, id, st);
      TerminateMessageCarries(s1, id, st);
      CarriesTwice(h.store, s1, s1.TerminateChunk(id), st);
      CarriesTwice(h.store, s1, s1.TerminateMessage(id), st);
    }
  }

  lemma ReceivedCarries(procedures: Procedures, h: Host, w: nat, m: Message, order: seq<Call>, st: Stream)
    requires Inv(h) && w in h.wires && !h.wires[w].terminated && MayReceive(h, w, m, order)
    ensures h.store.Valid() && CarriesOn(h.store, Received(procedures, h, w, m, order).store, st)
  {
    hide MessagesInv, MapsInv, Store.Valid, Admit, Respond, Terminate, CarriesOn;
    InvValid(h);
    SameCarries(h.store, h.store, st);
    match m
    case Frame(CallFrame, call, t, bytes) =>
      if !OverLimit(h.wires[w], call) {
        AdmitCarries(procedures, h, w, call, t, bytes, st);
      }
    case Frame(ResponseFrame, call, t, bytes) => RespondCarries(h, w, call, t, bytes, st);
    case Termination => TerminateCarries(h, w, order, st);
    case _ =>
  }

  lemma CallingCarries(h: Host, a: Step, st: Stream)
    requires Inv(h) && Enabled(h, a) && Calling(a)
    ensures h.store.Valid() && CarriesOn(h.store, NextCalling(h, a).store, st)
  {
    hide MessagesInv, MapsInv, Store.Valid, Store.Push, Encode, Unclaimed, CarriesOn;
    InvValid(h);
    WireFacts(h, a.wire);
    SameCarries(h.store, h.store, st);
    if (a.Start? || a.Once?) && h.wires[a.wire].CanCall().Ok? && (a.Start? ==> a.args != []) {
      FreshId(h);
      PushCarries(h.store, st);
    }
  }

  lemma HandlingCarries(h: Host, a: Step, st: Stream)
    requires Inv(h) && Enabled(h, a) && Handling(a)
    ensures h.store.Valid() && CarriesOn(h.store, NextHandling(h, a).store, st)
  {
    hide MessagesInv, MapsInv, Store.Valid, Store.Pop, Store.OpenStream, Store.DropReceiver, Store.Receive, CarriesOn;
    InvValid(h);
    SameCarries(h.store, h.store, st);
    match a
    case Wait(id) =>
      HandleOwner(h, id);
      PopCarries(h.store, id, st);
    case Open(id) =>
      HandleOwner(h, id);
      OpenStreamCarries(h.store, id, st);
    case Close(ch) => DropReceiverCarries(h.store, ch, st);
    case Take(ch, lock, id) => ReceiveCarries(h.store, ch, lock, id, st);
    case StrikeOff(_, _) =>
  }

  lemma CarriesStep(procedures: Procedures, h: Host, a: Step, st: Stream)
    requires Inv(h) && Enabled(h, a)
    ensures h.store.Valid() && CarriesOn(h.store, Next(procedures, h, a).store, st)
  {
    hide MessagesInv, MapsInv, Store.Valid, Terminate, Received, NextCalling, NextHandling, MayReceive, CarriesOn;
    InvValid(h);
    SameCarries(h.store, h.store, st);
    if Calling(a) {
      CallingCarries(h, a, st);
    } else if Handling(a) {
      HandlingCarries(h, a, st);
    } else {
      match a
      case ConnectWire(_, _, _) => SameCarries(h.store, Next(procedures, h, a).store, st);
      case DropWire(w, order) =>
        TerminateCarries(h, w, order, st);
        var t := Terminate(h, w, order);
        SameCarries(t.store, t.store.(wireIds := t.store.wireIds.Returned(w)), st);
        CarriesTwice(h.store, t.store, Next(procedures, h, a).store, st);
      case Receive(w, m, order) => ReceivedCarries(procedures, h, w, m, order, st);
      case ReadEof(w, order) => TerminateCarries(h, w, order, st);
      case _ =>
    }
  }

  lemma {:induction false} CarriesRun(procedures: Procedures, h: Host, steps: seq<Step>, st: Stream)
    requires Inv(h) && LegalSteps(procedures, h, steps)
    ensures CarriesOn(h.store, RunSteps(procedures, h, steps).store, st)
    decreases |steps|
  {
    hide Inv, Enabled, Next, CarriesOn, Feeds;
    if steps == [] {
      SameCarries(h.store, h.store, st);
    } else {
      StepKeeps(procedures, h, steps[0]);
      CarriesStep(procedures, h, steps[0], st);
      var g := Next(procedures, h, steps[0]);
      CarriesRun(procedures, g, steps[1..], st);
      CarriesTwice(h.store, g.store, RunSteps(procedures, g, steps[1..]).store, st);
    }
  }

  /** What a receiver finds, by what has been sent down its channel, by what it has taken, and by its lock. */
  ghost predicate ReadsTo(s: Store, st: Stream, handed: seq<Bytes>) {
    && st.channel < |s.channels| && st.lock < |s.locks| && InOrder(s.channels[st.channel])
    && var (c, lock) := (s.channels[st.channel], s.locks[st.lock]);
    && handed == c.sent[..c.taken]
    && (s.CanReceive(st.channel, st.lock) <==> c.taken < |c.sent| || !lock.Incomplete?)
    && (s.CanReceive(st.channel, st.lock) ==>
          match s.Receive(st.channel, st.lock, st.id).1
          case Ok(Some(chunk)) => c.taken < |c.sent| && chunk == c.sent[c.taken]
          case Ok(Nothing) => handed == c.sent && lock.Completed?
          case Err(e) => handed == c.sent && lock.Poisoned? && e == LockPoisoned(st.id))
  }

  lemma OpensStream(procedures: Procedures, h: Host, id: nat)
    requires Inv(h) && Enabled(h, Open(id))
    ensures h.store.Valid() && id in h.store.messages
    ensures Feeds(Next(procedures, h, Open(id)).store, Stream(|h.store.channels|, h.store.messages[id].lock, id))
  {
    hide MessagesInv, MapsInv;
    InvValid(h);
    HandleOwner(h, id);
  }

  lemma ReadsWhatIsThere(s: Store, st: Stream, handed: seq<Bytes>)
    requires Feeds(s, st) && InOrder(s.channels[st.channel])
    requires handed == s.channels[st.channel].sent[..s.channels[st.channel].taken]
    ensures ReadsTo(s, st, handed)
  {
    if s.CanReceive(st.channel, st.lock) {
      ReceiverIsTold(s, st.channel, st.lock, st.id);
    }
  }

  /** From the moment a stream is opened, in every state: its receiver has been handed the first chunks of what has been
      sent down it, in order. It has to wait exactly if it has taken them all and the response is undecided; it is told
      of the end only if it has taken them all and the response is complete, and of an error only if it has taken them
      all and the response is poisoned. */
  lemma StreamsAreRead(procedures: Procedures, h: Host, id: nat, steps: seq<Step>)
    requires Inv(h) && Enabled(h, Open(id)) && Inv(Next(procedures, h, Open(id)))
    requires LegalSteps(procedures, Next(procedures, h, Open(id)), steps)
    ensures h.store.Valid() && id in h.store.messages
    ensures var (g0, st) := (Next(procedures, h, Open(id)), Stream(|h.store.channels|, h.store.messages[id].lock, id));
            ReadsTo(RunSteps(procedures, g0, steps).store, st, HandedIn(procedures, g0, steps, st.channel))
  {
    hide Inv, Enabled, Next, LegalSteps, RunSteps, HandedIn, ReadsTo, Feeds;
    OpensStream(procedures, h, id);
    var (g0, st) := (Next(procedures, h, Open(id)), Stream(|h.store.channels|, h.store.messages[id].lock, id));
    OpeningKeepsAll(procedures, h, id);
    ReceiverGetsWhatWasSent(procedures, g0, steps, st.channel);
    CarriesRun(procedures, g0, steps, st);
    ReadsWhatIsThere(RunSteps(procedures, g0, steps).store, st, HandedIn(procedures, g0, steps, st.channel));
  }

  lemma EndIsFinal(procedures: Procedures, h: Host, steps: seq<Step>, st: Stream)
    requires Inv(h) && LegalSteps(procedures, h, steps) && Feeds(h.store, st) && h.store.locks[st.lock].Completed?
    ensures var g := RunSteps(procedures, h, steps);
            Feeds(g.store, st) && g.store.channels[st.channel].sent == h.store.channels[st.channel].sent
  {
    hide Inv, Enabled, Next, LegalSteps, RunSteps;
    CarriesRun(procedures, h, steps, st);
  }

  /** The end is the end: once the response of a stream is complete, no later run sends anything more down it. */
  lemma StreamsStayEnded(procedures: Procedures, h: Host, id: nat, steps: seq<Step>, later: seq<Step>)
    requires Inv(h) && Enabled(h, Open(id)) && Inv(Next(procedures, h, Open(id)))
    requires LegalSteps(procedures, Next(procedures, h, Open(id)), steps)
    requires var g := RunSteps(procedures, Next(procedures, h, Open(id)), steps);
             Inv(g) && LegalSteps(procedures, g, later)
    ensures h.store.Valid() && id in h.store.messages
    ensures var (ch, lock) := (|h.store.channels|, h.store.messages[id].lock);
            var g := RunSteps(procedures, Next(procedures, h, Open(id)), steps);
            var k := RunSteps(procedures, g, later);
            && ch < |g.store.channels| && ch < |k.store.channels| && lock < |g.store.locks|
            && (g.store.locks[lock].Completed? ==> k.store.channels[ch].sent == g.store.channels[ch].sent)
  {
    hide Inv, Enabled, Next, LegalSteps, RunSteps;
    OpensStream(procedures, h, id);
    var (g0, st) := (Next(procedures, h, Open(id)), Stream(|h.store.channels|, h.store.messages[id].lock, id));
    CarriesRun(procedures, g0, steps, st);
    var g := RunSteps(procedures, g0, steps);
    CarriesRun(procedures, g, later, st);
    if g.store.locks[st.lock].Completed? {
      EndIsFinal(procedures, g, later, st);
    }
  }
}
