/** The limit on ongoing calls, when the check of the reader and its insertion are two actions between which yielders
    complete other calls (`src/wire_common.rs:592-602` and `src/wire_common.rs:618-639`). */
module Limits {
  import opened Types
  import opened RoiQueues
  import opened Stores
  import opened WireFormat
  import opened Wires

  /** The reader is between calls, or has let a frame of a call through and not yet registered the call. */
  datatype Reader = Idle | Passed(call: Call)

  datatype Registry = Registry(ongoing: set<Call>, max: nat, reader: Reader)

  datatype Action =
    | Check(call: Call)
    | Insert
    | Complete(call: Call)

  predicate Enabled(r: Registry, a: Action) {
    match a
    case Check(_) => r.reader.Idle?
    case Insert => r.reader.Passed?
    case Complete(_) => true
  }

  function After(r: Registry, a: Action): Registry {
    match a
    case Check(call) => if call !in r.ongoing && |r.ongoing| >= r.max then r else r.(reader := Passed(call))
    case Insert => if r.reader.Passed? then r.(ongoing := r.ongoing + {r.reader.call}, reader := Idle) else r
    case Complete(call) => r.(ongoing := r.ongoing - {call})
  }

  predicate Runs(r: Registry, actions: seq<Action>)
    decreases |actions|
  {
    actions == [] || (Enabled(r, actions[0]) && Runs(After(r, actions[0]), actions[1..]))
  }

  function End(r: Registry, actions: seq<Action>): Registry
    decreases |actions|
  {
    if actions == [] then r else End(After(r, actions[0]), actions[1..])
  }

  /** There is room for the call that has been let through, even if it has been completed since. */
  predicate Within(r: Registry) {
    |r.ongoing| <= r.max && (r.reader.Passed? ==> |r.ongoing + {r.reader.call}| <= r.max)
  }

  lemma WithinStep(r: Registry, a: Action)
    requires Within(r) && Enabled(r, a)
    ensures Within(After(r, a)) && After(r, a).max == r.max
  {
    match a
    case Check(call) =>
      if call in r.ongoing {
        assert r.ongoing + {call} == r.ongoing;
      } else {
        assert |r.ongoing + {call}| == |r.ongoing| + 1;
      }
    case Insert =>
    case Complete(call) =>
      SubsetSize(r.ongoing - {call}, r.ongoing);
      if r.reader.Passed? {
        SubsetSize(r.ongoing - {call} + {r.reader.call}, r.ongoing + {r.reader.call});
      }
  }

  /** One reader and any number of yielders, interleaved in any way, stay within the limit. */
  lemma {:induction false} RacesStayWithin(r: Registry, actions: seq<Action>)
    requires Within(r) && Runs(r, actions)
    ensures |End(r, actions).ongoing| <= r.max
    decreases |actions|
  {
    if actions != [] {
      WithinStep(r, actions[0]);
      RacesStayWithin(After(r, actions[0]), actions[1..]);
    }
  }

  // --- Which calls are let through ---

  function Completions(calls: seq<Call>): seq<Action> {
    seq(|calls|, i requires 0 <= i < |calls| => Action.Complete(calls[i]))
  }

  lemma {:induction false} EndAppend(r: Registry, actions: seq<Action>, more: seq<Action>)
    ensures End(r, actions + more) == End(End(r, actions), more)
    ensures Runs(r, actions + more) <==> Runs(r, actions) && Runs(End(r, actions), more)
    decreases |actions|
  {
    if actions == [] {
      assert actions + more == more;
    } else {
      assert (actions + more)[1..] == actions[1..] + more;
      EndAppend(After(r, actions[0]), actions[1..], more);
    }
  }

  lemma {:induction false} CompletionsEnd(r: Registry, calls: seq<Call>)
    ensures Runs(r, Completions(calls))
    ensures End(r, Completions(calls)) == r.(ongoing := r.ongoing - (set c | c in calls))
    decreases |calls|
  {
    if calls == [] {
      assert r.ongoing - (set c | c in calls) == r.ongoing;
    } else {
      CompletionsEnd(After(r, Action.Complete(calls[0])), calls[1..]);
      assert Completions(calls)[1..] == Completions(calls[1..]);
      assert r.ongoing - {calls[0]} - (set c | c in calls[1..]) == r.ongoing - (set c | c in calls);
    }
  }

  /** A frame is let through if and only if its call is ongoing or there is room when the reader checks. Its call is
      ongoing from then on, whatever the yielders complete in between, even if that is this very call. */
  lemma LetThroughIff(r: Registry, call: Call, completed: seq<Call>)
    requires r.reader.Idle?
    ensures var actions := [Check(call)] + (Completions(completed) + [Insert]);
            && (Runs(r, actions) <==> call in r.ongoing || |r.ongoing| < r.max)
            && (Runs(r, actions) ==>
                  End(r, actions) == Registry(r.ongoing - (set c | c in completed) + {call}, r.max, Idle))
  {
    var r1 := After(r, Check(call));
    var actions := [Check(call)] + (Completions(completed) + [Insert]);
    assert actions[0] == Check(call) && actions[1..] == Completions(completed) + [Insert];
    EndAppend(r1, Completions(completed), [Insert]);
    CompletionsEnd(r1, completed);
    var r2 := End(r1, Completions(completed));
    assert Runs(r2, [Insert]) <==> Enabled(r2, Insert) && Runs(After(r2, Insert), []);
    assert End(r2, [Insert]) == End(After(r2, Insert), []) == After(r2, Insert);
  }

  /** Undisturbed, the reader's two actions on a wire are what receiving a frame does to the ongoing calls, and a
      yielder's is what the last piece that it yields does to them. */
  lemma ActionsAreCode(procedures: Procedures, s: Store, w: Wire, call: Call, t: Terminator, bytes: Bytes)
    requires s.Valid() && !t.Complete?
    ensures var r := Registry(w.ongoing, w.max, Idle);
            && ReceiveCall(procedures, s, w, call, t, bytes).wire.ongoing == End(r, [Check(call), Insert]).ongoing
            && (!w.terminated ==>
                  w.Yielded(call, Yield(bytes, Terminator.Complete)).ongoing == After(r, Action.Complete(call)).ongoing)
  {
    var r := Registry(w.ongoing, w.max, Idle);
    var r1 := After(r, Check(call));
    assert End(r, [Check(call), Insert]) == End(r1, [Insert]) == End(After(r1, Insert), []) == After(r1, Insert);
  }
}
