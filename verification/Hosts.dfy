/** One interface with any number of wires, and everything that can happen to it. The fields after `wires` are a
    history: who each live message belongs to, which call handles are waiting, which calls have a streaming closure
    that may still yield, and what each queue holds in terms of messages. */
module Hosts {
  import opened Types
  import opened RoiQueues
  import opened Stores
  import opened WireFormat
  import opened Wires

  /** Why a message is alive: it gathers the arguments of a call, or a response to one; or the response is complete
      and not fetched; or a call that failed left it behind; or its wire has been dropped. */
  datatype Owner =
    | Argument(key: Key)
    | Response(wire: nat, call: Call)
    | Finished(wire: nat, call: Call)
    | Orphan
    | Detached

  type Owners = map<nat, Owner>
  type Messages = map<nat, Buffer>
  type Wiring = map<nat, Wire>

  datatype Host = Host(store: Store, wires: Wiring, owner: Owners, handles: set<nat>, streamed: set<Key>,
                       outbox: map<nat, seq<Message>>)

  function EncodeEach(cfg: Config, ms: seq<Message>): seq<Bytes> {
    seq(|ms|, i requires 0 <= i < |ms| => Encode(cfg, ms[i]))
  }

  // --- The invariant ---

  ghost predicate WireIds(q: Roi, wires: Wiring) {
    q.Accounts(wires.Keys) && forall w :: w in wires ==> wires[w].id == w
  }

  /** The argument map and the owners agree, in both directions. */
  ghost predicate ArgumentsOwned(calls: map<Key, nat>, owner: Owners) {
    && (forall k :: k in calls ==> calls[k] in owner && owner[calls[k]] == Argument(k))
    && (forall id :: id in owner && owner[id].Argument? ==> owner[id].key in calls && calls[owner[id].key] == id)
  }

  predicate Awaits(wires: Wiring, w: nat, c: Call, id: nat) {
    w in wires && c in wires[w].responses && wires[w].responses[c] == id
  }

  /** The response maps and the owners agree, in both directions. */
  ghost predicate ResponsesOwned(wires: Wiring, owner: Owners) {
    && (forall w, c :: w in wires && c in wires[w].responses ==>
          wires[w].responses[c] in owner && owner[wires[w].responses[c]] == Response(w, c))
    && (forall id :: id in owner && owner[id].Response? ==> Awaits(wires, owner[id].wire, owner[id].call, id))
    && (forall id :: id in owner && owner[id].Finished? ==> owner[id].wire in wires)
  }

  predicate StateFits(b: Buffer, lock: LockState, o: Owner) {
    match o
    case Argument(_) => |b.chunks| == 1 && b.sender.NoSender? && lock.Incomplete?
    case Response(_, _) => !lock.Completed?
    case Finished(_, _) => lock.Completed?
    case _ => true
  }

  /** Owners are those of the live messages, and each message is in the state its owner keeps it in. */
  ghost predicate States(messages: Messages, locks: seq<LockState>, owner: Owners) {
    && owner.Keys == messages.Keys
    && forall id :: id in messages ==>
         messages[id].lock < |locks| && StateFits(messages[id], locks[messages[id].lock], owner[id])
  }

  ghost predicate StreamsKnown(wires: set<nat>, streamed: set<Key>) {
    forall k :: k in streamed ==> k.wire in wires
  }

  predicate BelongsTo(o: Owner, w: nat) {
    match o
    case Response(v, _) => v == w
    case Finished(v, _) => v == w
    case _ => false
  }

  /** Registered locks exist, and termination has decided them. */
  ghost predicate Decided(wires: Wiring, locks: seq<LockState>) {
    forall w, i :: w in wires && i in wires[w].idle ==>
      wires[w].idle[i] < |locks| && (wires[w].terminated ==> !locks[wires[w].idle[i]].Incomplete?)
  }

  /** A registered lock that is still the lock of a message is that of the registered response of the same wire. */
  ghost predicate Registered(wires: Wiring, messages: Messages, owner: Owners) {
    forall w, i, id :: w in wires && i in wires[w].idle && id in messages && id in owner ==>
      messages[id].lock != wires[w].idle[i] || (id == i && BelongsTo(owner[id], w))
  }

  predicate RegisteredAs(wires: Wiring, w: nat, id: nat, lock: nat) {
    w in wires && id in wires[w].idle && wires[w].idle[id] == lock
  }

  predicate WaiterFits(wires: Wiring, id: nat, b: Buffer, lock: LockState, o: Owner) {
    match o
    case Response(w, _) => RegisteredAs(wires, w, id, b.lock)
    case Finished(w, _) => true
    case Detached => !lock.Incomplete?
    case _ => false
  }

  /** A call handle waits for the message, or a stream has been made of one. */
  predicate WaitedOn(messages: Messages, handles: set<nat>, id: nat) {
    id in messages && (id in handles || messages[id].sender.Sender?)
  }

  /** Whoever waits is registered with the wire, unless what is waited for is decided already. */
  ghost predicate WaitersFit(wires: Wiring, messages: Messages, locks: seq<LockState>, owner: Owners,
                             handles: set<nat>) {
    && (forall id :: id in handles ==> id in messages && messages[id].sender.NoSender?)
    && (forall id :: WaitedOn(messages, handles, id) ==>
          && id in owner && messages[id].lock < |locks|
          && WaiterFits(wires, id, messages[id], locks[messages[id].lock], owner[id]))
  }

  ghost predicate Queued(wires: Wiring, outbox: map<nat, seq<Message>>) {
    && outbox.Keys == wires.Keys
    && forall w :: w in wires ==> wires[w].queue == EncodeEach(wires[w].cfg, outbox[w])
  }

  /** The part of the invariant that looks at messages. */
  ghost predicate MessagesInv(h: Host) {
    && h.store.Valid()
    && h.store.messageIds.Accounts(h.store.messages.Keys)
    && States(h.store.messages, h.store.locks, h.owner)
    && Decided(h.wires, h.store.locks)
    && Registered(h.wires, h.store.messages, h.owner)
    && WaitersFit(h.wires, h.store.messages, h.store.locks, h.owner, h.handles)
  }

  /** The part of the invariant that looks at the maps. */
  ghost predicate MapsInv(h: Host) {
    && WireIds(h.store.wireIds, h.wires)
    && ArgumentsOwned(h.store.calls, h.owner)
    && ResponsesOwned(h.wires, h.owner)
    && StreamsKnown(h.wires.Keys, h.streamed)
    && Queued(h.wires, h.outbox)
  }

  ghost predicate Inv(h: Host) {
    MessagesInv(h) && MapsInv(h)
  }

  lemma InvValid(h: Host)
    requires Inv(h)
    ensures h.store.Valid()
  {
  }

  lemma Owned(h: Host)
    requires Inv(h)
    ensures h.owner.Keys == h.store.messages.Keys && h.store.Valid()
  {
  }

  lemma OwnersLive(h: Host)
    requires MessagesInv(h)
    ensures h.owner.Keys == h.store.messages.Keys
  {
  }

  // --- Changes to one wire ---

  lemma WireResponses(wires: Wiring, owner: Owners, w: nat, x: Wire)
    requires ResponsesOwned(wires, owner) && w in wires && x.responses == wires[w].responses
    ensures ResponsesOwned(wires[w := x], owner)
  {
  }

  lemma WireQueued(wires: Wiring, outbox: map<nat, seq<Message>>, w: nat, x: Wire, more: seq<Message>)
    requires Queued(wires, outbox) && w in wires && x.cfg == wires[w].cfg
    requires x.queue == wires[w].queue + EncodeEach(x.cfg, more)
    ensures w in outbox && Queued(wires[w := x], outbox[w := outbox[w] + more])
  {
    assert x.queue == EncodeEach(x.cfg, outbox[w] + more);
    assert wires[w := x].Keys == wires.Keys;
  }

  /** `x` replaces wire `w`: its identity, locks and termination stay. */
  lemma WireKeepsMessages(h: Host, w: nat, x: Wire)
    requires MessagesInv(h) && w in h.wires
    requires x.idle == h.wires[w].idle && x.terminated == h.wires[w].terminated
    ensures MessagesInv(h.(wires := h.wires[w := x]))
  {
    hide Store.Valid, Roi.Accounts;
  }

  /** `x` replaces wire `w`: it may gain messages `more` to send. */
  lemma WireKeepsMaps(h: Host, w: nat, x: Wire, more: seq<Message>)
    requires MapsInv(h) && w in h.wires
    requires x.id == w && x.responses == h.wires[w].responses && x.cfg == h.wires[w].cfg
    requires x.queue == h.wires[w].queue + EncodeEach(x.cfg, more)
    ensures MapsInv(h.(wires := h.wires[w := x], outbox := h.outbox[w := h.outbox[w] + more]))
  {
    hide Roi.Accounts, ResponsesOwned, StreamsKnown, Queued, ArgumentsOwned;
    WireResponses(h.wires, h.owner, w, x);
    WireQueued(h.wires, h.outbox, w, x, more);
    assert h.wires[w := x].Keys == h.wires.Keys;
  }

  /** A change to a wire that concerns neither its responses nor its locks. */
  lemma WireSends(h: Host, w: nat, x: Wire, more: seq<Message>)
    requires Inv(h) && w in h.wires && w in h.outbox
    requires SameSetup(h.wires[w], x) && x.terminated == h.wires[w].terminated
    requires x.responses == h.wires[w].responses && x.idle == h.wires[w].idle
    requires x.queue == h.wires[w].queue + EncodeEach(x.cfg, more)
    ensures Inv(h.(wires := h.wires[w := x], outbox := h.outbox[w := h.outbox[w] + more]))
  {
    hide Store.Valid, Roi.Accounts, States, Decided, Registered, WaitersFit, ArgumentsOwned, ResponsesOwned;
    hide StreamsKnown;
    WireKeepsMessages(h, w, x);
    WireKeepsMaps(h, w, x, more);
  }

  lemma WireChanges(h: Host, w: nat, x: Wire)
    requires Inv(h) && w in h.wires
    requires SameSetup(h.wires[w], x) && x.terminated == h.wires[w].terminated
    requires x.responses == h.wires[w].responses && x.idle == h.wires[w].idle && x.queue == h.wires[w].queue
    ensures Inv(h.(wires := h.wires[w := x]))
  {
    hide MessagesInv, MapsInv;
    InvParts(h, w);
    assert x.queue == h.wires[w].queue + EncodeEach(x.cfg, []);
    WireSends(h, w, x, []);
    assert h.outbox[w] + [] == h.outbox[w];
    assert h.outbox[w := h.outbox[w]] == h.outbox;
  }

  lemma InvParts(h: Host, w: nat)
    requires MapsInv(h) && w in h.wires
    ensures h.wires[w].id == w && w in h.outbox
  {
  }

  // --- Making a message ---

  function Fresh(s: Store): Buffer {
    Buffer([[]], |s.locks|, NoSender)
  }

  /** A new message with its owner; the maps are to be brought in line. */
  function Add(h: Host, o: Owner): Host
    requires h.store.Valid()
  {
    h.(store := h.store.Push(), owner := h.owner[h.store.messageIds.Next() := o])
  }

  lemma PushEffect(s: Store)
    requires s.Valid() && s.messageIds.Next() !in s.messages
    ensures s.Push() == s.(messages := s.messages[s.messageIds.Next() := Fresh(s)],
                           messageIds := s.messageIds.Taken(), locks := s.locks + [Incomplete])
  {
  }

  lemma AddKeeps(h: Host, o: Owner)
    requires MessagesInv(h) && (o.Argument? || o.Response?) && |h.store.messages| < h.store.messageIds.limit
    ensures h.store.messageIds.Next() !in h.store.messages
    ensures MessagesInv(Add(h, o))
  {
    hide Store.Valid, Roi.Accounts, Store.Push, States, Decided, Registered, WaitersFit;
    var (s, h1, id) := (h.store, Add(h, o), h.store.messageIds.Next());
    TakeKeeps(s.messageIds, s.messages.Keys);
    PushEffect(s);
    PushKeeps(s);
    assert h1.store.messages.Keys == s.messages.Keys + {id};
    AddStates(s.messages, s.locks, h.owner, id, o);
    AddDecided(h.wires, s.locks);
    AddRegistered(h.wires, s.messages, s.locks, h.owner, id, o);
    AddWaiters(h.wires, s.messages, s.locks, h.owner, h.handles, id, o);
  }

  lemma AddStates(messages: Messages, locks: seq<LockState>, owner: Owners, id: nat, o: Owner)
    requires States(messages, locks, owner) && id !in messages && (o.Argument? || o.Response?)
    ensures States(messages[id := Buffer([[]], |locks|, NoSender)], locks + [Incomplete], owner[id := o])
  {
  }

  lemma AddDecided(wires: Wiring, locks: seq<LockState>)
    requires Decided(wires, locks)
    ensures Decided(wires, locks + [Incomplete])
  {
  }

  lemma AddRegistered(wires: Wiring, messages: Messages, locks: seq<LockState>, owner: Owners, id: nat, o: Owner)
    requires Registered(wires, messages, owner) && Decided(wires, locks)
    ensures Registered(wires, messages[id := Buffer([[]], |locks|, NoSender)], owner[id := o])
  {
  }

  lemma AddWaiters(wires: Wiring, messages: Messages, locks: seq<LockState>, owner: Owners, handles: set<nat>, id: nat,
                   o: Owner)
    requires WaitersFit(wires, messages, locks, owner, handles) && id !in messages
    ensures WaitersFit(wires, messages[id := Buffer([[]], |locks|, NoSender)], locks + [Incomplete], owner[id := o],
                       handles)
  {
  }

  // --- Letting a message go ---

  function Remove(h: Host, id: nat): Host
    requires h.store.Valid()
  {
    h.(store := h.store.Pop(id), owner := h.owner - {id})
  }

  lemma PopEffect(s: Store, id: nat)
    requires s.Valid() && id in s.messages
    ensures var t := s.Pop(id);
            && t.messages == s.messages - {id} && t.messageIds == s.messageIds.Returned(id)
            && t.calls == s.calls && t.wireIds == s.wireIds && t.locks == s.locks
  {
  }

  lemma RemoveKeeps(h: Host, id: nat)
    requires MessagesInv(h) && id in h.store.messages && id !in h.handles
    ensures MessagesInv(Remove(h, id))
  {
    hide Store.Valid, Roi.Accounts, Store.Pop, States, Decided, Registered, WaitersFit;
    var s := h.store;
    PopEffect(s, id);
    Stores.PopKeeps(s, id);
    ReturnKeeps(s.messageIds, s.messages.Keys, id);
    assert (s.messages - {id}).Keys == s.messages.Keys - {id};
    RemoveStates(s.messages, s.locks, h.owner, id);
    RemoveRegistered(h.wires, s.messages, h.owner, id);
    RemoveWaiters(h.wires, s.messages, s.locks, h.owner, h.handles, id);
  }

  lemma RemoveStates(messages: Messages, locks: seq<LockState>, owner: Owners, id: nat)
    requires States(messages, locks, owner)
    ensures States(messages - {id}, locks, owner - {id})
  {
  }

  lemma RemoveRegistered(wires: Wiring, messages: Messages, owner: Owners, id: nat)
    requires Registered(wires, messages, owner)
    ensures Registered(wires, messages - {id}, owner - {id})
  {
  }

  lemma RemoveWaiters(wires: Wiring, messages: Messages, locks: seq<LockState>, owner: Owners, handles: set<nat>,
                      id: nat)
    requires WaitersFit(wires, messages, locks, owner, handles) && id !in handles
    ensures WaitersFit(wires, messages - {id}, locks, owner - {id}, handles)
  {
  }

  // --- Writing to a message ---

  /** Only message `id` differs, and it is still the same message, as its owner and its handle need it. */
  ghost predicate Rewritten(messages: Messages, after: Messages, owner: Owners, handles: set<nat>, id: nat) {
    && id in messages && id in after && id in owner
    && after == messages[id := after[id]] && after[id].lock == messages[id].lock
    && (owner[id].Argument? ==> |after[id].chunks| == 1 && after[id].sender.NoSender?)
    && (id in handles ==> after[id].sender.NoSender?)
  }

  lemma RewrittenKeeps(h: Host, t: Store, id: nat)
    requires MessagesInv(h) && t.Valid() && Rewritten(h.store.messages, t.messages, h.owner, h.handles, id)
    requires t.messages[id].sender.Sender? ==> h.store.messages[id].sender.Sender?
    requires t.messageIds == h.store.messageIds && t.locks == h.store.locks
    ensures MessagesInv(h.(store := t))
  {
    hide Store.Valid, Roi.Accounts, States, Decided, Registered, WaitersFit;
    assert t.messages.Keys == h.store.messages.Keys;
    RewrittenStates(h.store.messages, t.messages, h.store.locks, h.owner, h.handles, id);
    RewrittenRegistered(h.wires, h.store.messages, t.messages, h.owner, h.handles, id);
    RewrittenWaiters(h.wires, h.store.messages, t.messages, h.store.locks, h.owner, h.handles, id);
  }

  lemma RewrittenStates(messages: Messages, after: Messages, locks: seq<LockState>, owner: Owners, handles: set<nat>,
                        id: nat)
    requires States(messages, locks, owner) && Rewritten(messages, after, owner, handles, id)
    ensures States(after, locks, owner)
  {
  }

  lemma RewrittenRegistered(wires: Wiring, messages: Messages, after: Messages, owner: Owners, handles: set<nat>,
                            id: nat)
    requires Registered(wires, messages, owner) && Rewritten(messages, after, owner, handles, id)
    ensures Registered(wires, after, owner)
  {
  }

  lemma RewrittenWaiters(wires: Wiring, messages: Messages, after: Messages, locks: seq<LockState>, owner: Owners,
                         handles: set<nat>, id: nat)
    requires WaitersFit(wires, messages, locks, owner, handles) && Rewritten(messages, after, owner, handles, id)
    requires after[id].sender.Sender? ==> messages[id].sender.Sender?
    ensures WaitersFit(wires, after, locks, owner, handles)
  {
    assert forall i :: WaitedOn(after, handles, i) ==> WaitedOn(messages, handles, i);
  }

  /** A handle becomes a stream: what was waited for by the one is waited for by the other. */
  lemma OpenedKeeps(h: Host, t: Store, id: nat)
    requires MessagesInv(h) && t.Valid() && id in h.handles
    requires Rewritten(h.store.messages, t.messages, h.owner, h.handles - {id}, id)
    requires t.messageIds == h.store.messageIds && t.locks == h.store.locks
    ensures MessagesInv(h.(store := t, handles := h.handles - {id}))
  {
    hide Store.Valid, Roi.Accounts, States, Decided, Registered, WaitersFit;
    assert t.messages.Keys == h.store.messages.Keys;
    RewrittenStates(h.store.messages, t.messages, h.store.locks, h.owner, h.handles - {id}, id);
    RewrittenRegistered(h.wires, h.store.messages, t.messages, h.owner, h.handles - {id}, id);
    OpenedWaiters(h.wires, h.store.messages, t.messages, h.store.locks, h.owner, h.handles, id);
  }

  lemma OpenedWaiters(wires: Wiring, messages: Messages, after: Messages, locks: seq<LockState>, owner: Owners,
                      handles: set<nat>, id: nat)
    requires WaitersFit(wires, messages, locks, owner, handles) && id in handles
    requires Rewritten(messages, after, owner, handles - {id}, id)
    ensures WaitersFit(wires, after, locks, owner, handles - {id})
  {
    assert forall i :: WaitedOn(after, handles - {id}, i) ==> WaitedOn(messages, handles, i);
  }

  // --- Completing a message ---

  /** What a message may become once it is complete. */
  predicate Settles(from: Owner, to: Owner) {
    match from
    case Argument(_) => to.Orphan?
    case Response(w, c) => to == Finished(w, c)
    case _ => false
  }

  function Settle(h: Host, id: nat, o: Owner): Host
    requires h.store.Valid() && id in h.store.messages
  {
    h.(store := h.store.Complete(id), owner := h.owner[id := o])
  }

  lemma SettleKeeps(h: Host, id: nat, o: Owner)
    requires MessagesInv(h) && id in h.store.messages && Settles(h.owner[id], o)
    ensures MessagesInv(Settle(h, id, o))
  {
    hide Roi.Accounts;
    var s := h.store;
    CompleteKeeps(s, id);
    var lock := s.messages[id].lock;
    var locks := s.locks[lock := Completed];
    SettleStates(s, h.owner, id, o);
    hide Store.Valid;
    SettleDecided(h.wires, s.locks, lock);
    SettleRegistered(h.wires, s.messages, h.owner, id, o);
    SettleWaiters(h.wires, s.messages, s.locks, h.owner, h.handles, id, o);
    hide States, Decided, Registered, WaitersFit;
  }

  lemma SettleStates(s: Store, owner: Owners, id: nat, o: Owner)
    requires s.Valid() && States(s.messages, s.locks, owner) && id in s.messages && Settles(owner[id], o)
    ensures States(s.messages, s.locks[s.messages[id].lock := Completed], owner[id := o])
  {
  }

  lemma SettleDecided(wires: Wiring, locks: seq<LockState>, lock: nat)
    requires Decided(wires, locks) && lock < |locks|
    ensures Decided(wires, locks[lock := Completed])
  {
  }

  lemma SettleRegistered(wires: Wiring, messages: Messages, owner: Owners, id: nat, o: Owner)
    requires Registered(wires, messages, owner) && id in messages && id in owner && Settles(owner[id], o)
    ensures Registered(wires, messages, owner[id := o])
  {
  }

  lemma SettleWaiters(wires: Wiring, messages: Messages, locks: seq<LockState>, owner: Owners, handles: set<nat>,
                      id: nat, o: Owner)
    requires WaitersFit(wires, messages, locks, owner, handles)
    requires id in messages && id in owner && Settles(owner[id], o) && messages[id].lock < |locks|
    ensures WaitersFit(wires, messages, locks[messages[id].lock := Completed], owner[id := o], handles)
  {
  }

  /** The stream of a complete message ends; with a listener the message goes with it. */
  function EndStream(h: Host, id: nat): Host
    requires h.store.Valid() && id in h.store.messages && h.store.messages[id].sender.Sender?
  {
    var t := h.store.FinishStream(id);
    h.(store := t, owner := if id in t.messages then h.owner else h.owner - {id})
  }

  lemma EndStreamKeeps(h: Host, id: nat)
    requires MessagesInv(h) && id in h.store.messages && h.store.messages[id].sender.Sender?
    requires h.store.LockOf(id).Completed? && id !in h.handles && h.owner[id].Finished?
    ensures MessagesInv(EndStream(h, id))
  {
    hide Store.Valid, Roi.Accounts, Store.FinishStream, Store.Streams, States, Decided, Registered, WaitersFit;
    var s := h.store;
    FinishStreamKeeps(s, id);
    FinishStreamEffect(s, id);
    OwnersLive(h);
    if id !in s.FinishStream(id).messages {
      ReturnKeeps(s.messageIds, s.messages.Keys, id);
      assert (s.messages - {id}).Keys == s.messages.Keys - {id};
      RemoveStates(s.messages, s.locks, h.owner, id);
      RemoveRegistered(h.wires, s.messages, h.owner, id);
      RemoveWaiters(h.wires, s.messages, s.locks, h.owner, h.handles, id);
    } else {
      RewrittenKeeps(h, s.FinishStream(id), id);
    }
  }

  lemma FinishStreamEffect(s: Store, id: nat)
    requires s.Valid() && id in s.messages && s.messages[id].sender.Sender?
    ensures var t := s.FinishStream(id);
            && t.calls == s.calls && t.wireIds == s.wireIds && t.locks == s.locks
            && if s.Streams(s.messages[id]) then
                 t.messages == s.messages - {id} && t.messageIds == s.messageIds.Returned(id)
               else
                 && t.messageIds == s.messageIds
                 && t.messages == s.messages[id := s.messages[id].(sender := s.messages[id].sender.(live := false))]
  {
  }

  // --- Handles ---

  /** A call handle for response `id` of wire `w`. */
  function Register(h: Host, w: nat, id: nat): Host
    requires w in h.wires && id in h.store.messages
  {
    h.(wires := h.wires[w := h.wires[w].WithHandle(id, h.store.messages[id].lock)], handles := h.handles + {id})
  }

  lemma RegisterKeeps(h: Host, w: nat, id: nat)
    requires MessagesInv(h) && w in h.wires && !h.wires[w].terminated
    requires id in h.store.messages && h.owner[id].Response? && h.owner[id].wire == w
    requires h.store.messages[id].sender.NoSender?
    ensures MessagesInv(Register(h, w, id))
  {
    hide Roi.Accounts, Decided, Registered, WaitersFit;
    var s := h.store;
    RegisterDecided(h.wires, s.locks, w, id, s.messages[id].lock);
    RegisterRegistered(s, h.wires, h.owner, w, id);
    RegisterWaiters(h.wires, s.messages, s.locks, h.owner, h.handles, w, id);
  }

  lemma RegisterDecided(wires: Wiring, locks: seq<LockState>, w: nat, id: nat, lock: nat)
    requires Decided(wires, locks) && w in wires && !wires[w].terminated && lock < |locks|
    ensures Decided(wires[w := wires[w].WithHandle(id, lock)], locks)
  {
  }

  lemma RegisterRegistered(s: Store, wires: Wiring, owner: Owners, w: nat, id: nat)
    requires s.Valid() && Registered(wires, s.messages, owner) && w in wires
    requires id in s.messages && id in owner && BelongsTo(owner[id], w)
    ensures Registered(wires[w := wires[w].WithHandle(id, s.messages[id].lock)], s.messages, owner)
  {
  }

  lemma RegisterWaiters(wires: Wiring, messages: Messages, locks: seq<LockState>, owner: Owners, handles: set<nat>,
                        w: nat, id: nat)
    requires WaitersFit(wires, messages, locks, owner, handles) && w in wires && id in messages && id in owner
    requires owner[id].Response? && owner[id].wire == w && messages[id].sender.NoSender? && messages[id].lock < |locks|
    ensures WaitersFit(wires[w := wires[w].WithHandle(id, messages[id].lock)], messages, locks, owner, handles + {id})
  {
  }

  /** A registration is struck off. Nobody may rely on it. */
  function Unregister(h: Host, w: nat, id: nat): Host
    requires w in h.wires
  {
    h.(wires := h.wires[w := h.wires[w].(idle := h.wires[w].idle - {id})])
  }

  lemma UnregisterKeeps(h: Host, w: nat, id: nat)
    requires MessagesInv(h) && w in h.wires
    requires WaitedOn(h.store.messages, h.handles, id) ==>
               id in h.owner && !(h.owner[id].Response? && h.owner[id].wire == w)
    ensures MessagesInv(Unregister(h, w, id))
  {
    hide Store.Valid, Roi.Accounts, States;
    UnregisterWaiters(h.wires, h.store.messages, h.store.locks, h.owner, h.handles, w, id);
    hide WaitersFit;
  }

  lemma UnregisterWaiters(wires: Wiring, messages: Messages, locks: seq<LockState>, owner: Owners, handles: set<nat>,
                          w: nat, id: nat)
    requires WaitersFit(wires, messages, locks, owner, handles) && w in wires
    requires WaitedOn(messages, handles, id) ==> id in owner && !(owner[id].Response? && owner[id].wire == w)
    ensures WaitersFit(wires[w := wires[w].(idle := wires[w].idle - {id})], messages, locks, owner, handles)
  {
  }

  // --- Termination ---

  /** The locks of a wire's idle handles are poisoned and the wire is marked. */
  function Poisoning(h: Host, w: nat): Host
    requires w in h.wires
  {
    h.(store := PoisonAll(h.store, h.wires[w].idle.Values), wires := h.wires[w := h.wires[w].(terminated := true)])
  }

  lemma PoisoningKeeps(h: Host, w: nat)
    requires MessagesInv(h) && w in h.wires
    ensures MessagesInv(Poisoning(h, w))
  {
    hide Roi.Accounts, States, Decided, Registered, WaitersFit;
    var (s, bad) := (h.store, h.wires[w].idle.Values);
    var t := PoisonAll(s, bad);
    PoisonAllKeeps(s, bad);
    PoisonStates(h.wires, s, h.owner, w);
    PoisonDecided(h.wires, s.locks, t.locks, w);
    PoisonRegistered(h.wires, s.messages, h.owner, w);
    PoisonWaiters(h.wires, s.messages, s.locks, t.locks, h.owner, h.handles, w);
  }

  lemma PoisonStates(wires: Wiring, s: Store, owner: Owners, w: nat)
    requires States(s.messages, s.locks, owner) && Registered(wires, s.messages, owner) && w in wires
    ensures States(s.messages, PoisonAll(s, wires[w].idle.Values).locks, owner)
  {
    forall id | id in s.messages && s.messages[id].lock in wires[w].idle.Values ensures BelongsTo(owner[id], w) {
      var i :| i in wires[w].idle && wires[w].idle[i] == s.messages[id].lock;
    }
  }

  lemma PoisonDecided(wires: Wiring, locks: seq<LockState>, after: seq<LockState>, w: nat)
    requires Decided(wires, locks) && w in wires && |after| == |locks|
    requires forall l :: 0 <= l < |locks| ==>
               after[l] == if l in wires[w].idle.Values && locks[l].Incomplete? then Poisoned else locks[l]
    ensures Decided(wires[w := wires[w].(terminated := true)], after)
  {
  }

  lemma PoisonRegistered(wires: Wiring, messages: Messages, owner: Owners, w: nat)
    requires Registered(wires, messages, owner) && w in wires
    ensures Registered(wires[w := wires[w].(terminated := true)], messages, owner)
  {
  }

  lemma PoisonWaiters(wires: Wiring, messages: Messages, locks: seq<LockState>, after: seq<LockState>, owner: Owners,
                      handles: set<nat>, w: nat)
    requires WaitersFit(wires, messages, locks, owner, handles) && w in wires && |after| == |locks|
    requires forall l :: 0 <= l < |locks| ==>
               after[l] == if l in wires[w].idle.Values && locks[l].Incomplete? then Poisoned else locks[l]
    ensures WaitersFit(wires[w := wires[w].(terminated := true)], messages, after, owner, handles)
  {
  }

  function WithoutWire(owner: Owners, w: nat): Owners {
    map id | id in owner :: if BelongsTo(owner[id], w) then Detached else owner[id]
  }

  /** A terminated wire is dropped: its responses, fetched or not, stay behind. */
  function Detach(h: Host, w: nat): Host {
    h.(wires := h.wires - {w}, owner := WithoutWire(h.owner, w),
       store := h.store.(wireIds := h.store.wireIds.Returned(w)),
       streamed := (set k | k in h.streamed && k.wire != w),
       outbox := h.outbox - {w})
  }

  lemma DetachKeepsMessages(h: Host, w: nat)
    requires MessagesInv(h) && w in h.wires && h.wires[w].terminated
    ensures MessagesInv(Detach(h, w))
  {
    var s := h.store;
    assert s.(wireIds := s.wireIds.Returned(w)).Valid();
    hide Roi.Accounts, Store.Valid, States, Decided, Registered, WaitersFit;
    DetachStates(s.messages, s.locks, h.owner, w);
    DetachDecided(h.wires, s.locks, w);
    DetachRegistered(h.wires, s.messages, h.owner, w);
    DetachWaiters(h.wires, s.messages, s.locks, h.owner, h.handles, w);
  }

  lemma DetachStates(messages: Messages, locks: seq<LockState>, owner: Owners, w: nat)
    requires States(messages, locks, owner)
    ensures States(messages, locks, WithoutWire(owner, w))
  {
  }

  lemma DetachDecided(wires: Wiring, locks: seq<LockState>, w: nat)
    requires Decided(wires, locks)
    ensures Decided(wires - {w}, locks)
  {
  }

  lemma DetachRegistered(wires: Wiring, messages: Messages, owner: Owners, w: nat)
    requires Registered(wires, messages, owner)
    ensures Registered(wires - {w}, messages, WithoutWire(owner, w))
  {
  }

  lemma DetachWaiters(wires: Wiring, messages: Messages, locks: seq<LockState>, owner: Owners, handles: set<nat>,
                      w: nat)
    requires WaitersFit(wires, messages, locks, owner, handles) && States(messages, locks, owner)
    requires Decided(wires, locks) && w in wires && wires[w].terminated
    ensures WaitersFit(wires - {w}, messages, locks, WithoutWire(owner, w), handles)
  {
  }

  // --- The maps ---

  lemma ArgumentAdded(calls: map<Key, nat>, owner: Owners, key: Key, id: nat)
    requires ArgumentsOwned(calls, owner) && key !in calls && id !in owner
    ensures ArgumentsOwned(calls[key := id], owner[id := Argument(key)])
  {
  }

  lemma ArgumentTaken(calls: map<Key, nat>, owner: Owners, key: Key)
    requires ArgumentsOwned(calls, owner) && key in calls
    ensures ArgumentsOwned(calls - {key}, owner[calls[key] := Orphan])
    ensures ArgumentsOwned(calls - {key}, owner - {calls[key]})
  {
  }

  /** Messages that hold no arguments come, change and go without touching the argument map. */
  lemma NoArgument(calls: map<Key, nat>, owner: Owners, id: nat, o: Owner)
    requires ArgumentsOwned(calls, owner) && (id in owner ==> !owner[id].Argument?) && !o.Argument?
    ensures ArgumentsOwned(calls, owner[id := o]) && ArgumentsOwned(calls, owner - {id})
  {
  }

  lemma ResponseAdded(wires: Wiring, owner: Owners, w: nat, c: Call, id: nat, x: Wire)
    requires ResponsesOwned(wires, owner) && w in wires && c !in wires[w].responses && id !in owner
    requires x.responses == wires[w].responses[c := id]
    ensures ResponsesOwned(wires[w := x], owner[id := Response(w, c)])
  {
  }

  lemma ResponseDone(wires: Wiring, owner: Owners, w: nat, c: Call, x: Wire)
    requires ResponsesOwned(wires, owner) && w in wires && c in wires[w].responses
    requires x.responses == wires[w].responses - {c}
    ensures ResponsesOwned(wires[w := x], owner[wires[w].responses[c] := Finished(w, c)])
  {
  }

  /** Messages that await no response come, change and go without touching the response maps. */
  lemma NoResponse(wires: Wiring, owner: Owners, id: nat, o: Owner)
    requires ResponsesOwned(wires, owner) && (id in owner ==> !owner[id].Response?)
    requires !o.Response? && (o.Finished? ==> o.wire in wires)
    ensures ResponsesOwned(wires, owner[id := o]) && ResponsesOwned(wires, owner - {id})
  {
  }

  lemma DetachMaps(wires: Wiring, owner: Owners, calls: map<Key, nat>, w: nat)
    requires ResponsesOwned(wires, owner) && ArgumentsOwned(calls, owner) && w in wires
    ensures ResponsesOwned(wires - {w}, WithoutWire(owner, w)) && ArgumentsOwned(calls, WithoutWire(owner, w))
  {
  }
}
