/** A call made in pieces, received without anything in between, leaves the callee exactly as one made at once. */
module Piecemeal {
  import opened Types
  import opened Stores
  import opened Wires
  import opened HostCalls

  function JoinAll(parts: seq<Bytes>): Bytes {
    if parts == [] then [] else parts[0] + JoinAll(parts[1..])
  }

  /** The frames of a call whose arguments were split into `parts`: the last one completes it. */
  function ReceiveParts(procedures: Procedures, s: Store, w: Wire, call: Call, parts: seq<Bytes>): Outcome<Option<bool>>
    requires s.Valid() && parts != []
    decreases |parts|
  {
    if |parts| == 1 then ReceiveCall(procedures, s, w, call, Complete, parts[0])
    else
      ReceiveCallKeeps(procedures, s, w, call, None, parts[0]);
      var o := ReceiveCall(procedures, s, w, call, None, parts[0]);
      ReceiveParts(procedures, o.store, o.wire, call, parts[1..])
  }

  /** The call has gathered nothing, or some arguments, and is under the limit. */
  predicate MayContinue(s: Store, w: Wire, call: Call)
    requires s.Valid()
  {
    && !OverLimit(w, call)
    && if Key(call, w.id) in s.calls then GathersAt(s, Key(call, w.id)) else s.messageIds.Next() !in s.messages
  }

  lemma BufferGathers(s: Store, w: Wire, call: Call)
    requires s.Valid() && MayContinue(s, w, call)
    ensures var t := s.GetCallBuffer(Key(call, w.id)); t.Valid() && GathersAt(t, Key(call, w.id))
  {
    GetCallBufferKeeps(s, Key(call, w.id));
  }

  /** Bytes that come in two goes are bytes that come in one. */
  lemma SendTwice(s: Store, id: nat, a: Bytes, b: Bytes)
    requires s.Valid() && s.Accepts(id).Ok?
    ensures s.SendMany(a, id).Valid() && s.SendMany(a, id).SendMany(b, id) == s.SendMany(a + b, id)
  {
    SendManyKeeps(s, a, id);
    var (m, t) := (s.messages[id], s.SendMany(a, id));
    assert Extend(Extend(m.chunks, a), b) == Extend(m.chunks, a + b) by {
      assert Last(m.chunks) + a + b == Last(m.chunks) + (a + b);
    }
    var (x, y) := (m.(chunks := Extend(m.chunks, a)), m.(chunks := Extend(m.chunks, a + b)));
    assert s.messages[id := x][id := y] == s.messages[id := y];
  }

  /** The first part and then the second are the two at once, whatever the second one does. */
  lemma TwoParts(procedures: Procedures, s: Store, w: Wire, call: Call, a: Bytes, t: Terminator, b: Bytes)
    requires s.Valid() && MayContinue(s, w, call)
    ensures var o := ReceiveCall(procedures, s, w, call, None, a);
            && o.result == Ok(Some(false)) && o.store.Valid() && MayContinue(o.store, o.wire, call)
            && ReceiveCall(procedures, o.store, o.wire, call, t, b) == ReceiveCall(procedures, s, w, call, t, a + b)
  {
    hide Store.Valid, Store.SendMany, Store.Push, AcceptCall, Execute, Consumed, Answered, GathersAt;
    var key := Key(call, w.id);
    var (s1, x) := (s.GetCallBuffer(key), w.(ongoing := w.ongoing + {call}));
    GetCallBufferKeeps(s, key);
    BufferGathers(s, w, call);
    AcceptCallEffect(procedures, s1, x, call, None, a);
    AcceptCallEffect(procedures, s1, x, call, t, a + b);
    var s2 := s1.SendMany(a, s1.calls[key]);
    AcceptCallEffect(procedures, s2, x, call, t, b);
    GathersAccept(s1, key);
    SendTwice(s1, s1.calls[key], a, b);
    assert x.ongoing + {call} == x.ongoing;
    assert s1.messages[s1.calls[key]].chunks[0] + a + b == s1.messages[s1.calls[key]].chunks[0] + (a + b);
  }

  lemma GathersAccept(s: Store, key: Key)
    requires s.Valid() && GathersAt(s, key)
    ensures key in s.calls && s.calls[key] in s.messages && s.Accepts(s.calls[key]).Ok?
    ensures s.messages[s.calls[key]].chunks != []
  {
  }

  /** For any split of the arguments, the interface, the identifier queue, the ongoing calls, the outgoing queue and
      the result are those of one frame with all the arguments. */
  lemma {:induction false} PiecemealIsOneShot(procedures: Procedures, s: Store, w: Wire, call: Call, parts: seq<Bytes>)
    requires s.Valid() && parts != [] && MayContinue(s, w, call)
    ensures ReceiveParts(procedures, s, w, call, parts)
            == ReceiveCall(procedures, s, w, call, Complete, JoinAll(parts))
    decreases |parts|
  {
    hide Store.Valid, ReceiveCall, MayContinue;
    if |parts| == 1 {
      assert parts[1..] == [];
      assert JoinAll(parts) == parts[0] + JoinAll([]) == parts[0];
    } else {
      var o := ReceiveCall(procedures, s, w, call, None, parts[0]);
      TwoParts(procedures, s, w, call, parts[0], Complete, JoinAll(parts[1..]));
      PiecemealIsOneShot(procedures, o.store, o.wire, call, parts[1..]);
    }
  }
}
