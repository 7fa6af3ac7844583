/** The completion lock of the blocking interface (`src/blocking/complete_lock.rs`): a mutex around the state, a
    condition variable, and any number of threads inside `mark_complete`, `poison` and `wait_for_completion`. */
module CompleteLocks {
  import opened Types

  /** Where a thread is. `mark_complete` lets go of the mutex before it notifies; `poison` notifies while holding it.
      A parked thread holds nothing; once notified (or woken for no reason) it must take the mutex again. */
  datatype Pc =
    | MarkStart | MarkHolds | MarkAssigned | MarkNotify
    | PoisonStart | PoisonHolds | PoisonNotify
    | WaitStart | WaitHolds | Parked | Woken
    | MarkReturned
    | PoisonReturned
    | WaitReturned(seen: LockState)

  /** Threads are numbered by their position. */
  datatype Monitor = Monitor(state: LockState, holder: Option<nat>, threads: seq<Pc>)

  predicate Holds(pc: Pc) {
    pc in {MarkHolds, MarkAssigned, PoisonHolds, PoisonNotify, WaitHolds}
  }

  predicate Finished(pc: Pc) {
    pc.MarkReturned? || pc.PoisonReturned? || pc.WaitReturned?
  }

  /** The thread is about to notify everybody. */
  predicate WillNotify(pc: Pc) {
    pc in {MarkAssigned, MarkNotify, PoisonNotify}
  }

  datatype Action = Enter(operation: Pc) | Advance(thread: nat) | WakeSpuriously(thread: nat)

  predicate Enabled(m: Monitor, a: Action) {
    match a
    case Enter(op) => op in {MarkStart, PoisonStart, WaitStart}
    case WakeSpuriously(t) => t < |m.threads| && m.threads[t].Parked?
    case Advance(t) =>
      && t < |m.threads|
      && (match m.threads[t]
          case MarkStart | PoisonStart | WaitStart | Woken => m.holder.Nothing?
          case Parked | MarkReturned | PoisonReturned | WaitReturned(_) => false
          case _ => true)
  }

  function Unparked(threads: seq<Pc>): (r: seq<Pc>)
    ensures |r| == |threads|
    ensures forall t :: 0 <= t < |threads| ==> r[t] == if threads[t].Parked? then Woken else threads[t]
  {
    seq(|threads|, t requires 0 <= t < |threads| => if threads[t].Parked? then Woken else threads[t])
  }

  function After(m: Monitor, a: Action): Monitor
    requires Enabled(m, a)
  {
    match a
    case Enter(op) => m.(threads := m.threads + [op])
    case WakeSpuriously(t) => m.(threads := m.threads[t := Woken])
    case Advance(t) => Advanced(m, t)
  }

  function Advanced(m: Monitor, t: nat): Monitor
    requires Enabled(m, Advance(t))
  {
    match m.threads[t]
    case MarkStart => Monitor(m.state, Some(t), m.threads[t := MarkHolds])
    case MarkHolds => Monitor(Completed, Some(t), m.threads[t := MarkAssigned])
    case MarkAssigned => Monitor(m.state, Nothing, m.threads[t := MarkNotify])
    case MarkNotify => Monitor(m.state, m.holder, Unparked(m.threads)[t := MarkReturned])
    case PoisonStart => Monitor(m.state, Some(t), m.threads[t := PoisonHolds])
    case PoisonHolds =>
      if m.state.Incomplete? then Monitor(Poisoned, Some(t), m.threads[t := PoisonNotify])
      else Monitor(m.state, Nothing, m.threads[t := PoisonReturned])
    case PoisonNotify => Monitor(m.state, Nothing, Unparked(m.threads)[t := PoisonReturned])
    case WaitStart | Woken => Monitor(m.state, Some(t), m.threads[t := WaitHolds])
    case WaitHolds =>
      if m.state.Incomplete? then Monitor(m.state, Nothing, m.threads[t := Parked])
      else Monitor(m.state, Nothing, m.threads[t := WaitReturned(m.state)])
    case _ => m
  }

  const NEW: Monitor := Monitor(Incomplete, Nothing, [])

  predicate Legal(m: Monitor, actions: seq<Action>)
    decreases |actions|
  {
    actions == [] || (Enabled(m, actions[0]) && Legal(After(m, actions[0]), actions[1..]))
  }

  function Run(m: Monitor, actions: seq<Action>): Monitor
    requires Legal(m, actions)
    decreases |actions|
  {
    if actions == [] then m else Run(After(m, actions[0]), actions[1..])
  }

  // --- Safety ---

  ghost predicate Exclusive(m: Monitor) {
    && (m.holder.Some? ==> m.holder.value < |m.threads| && Holds(m.threads[m.holder.value]))
    && forall t :: 0 <= t < |m.threads| && Holds(m.threads[t]) ==> m.holder == Some(t)
  }

  /** Somebody parked on a lock that is no longer incomplete is about to be notified. */
  ghost predicate NoLostWakeup(m: Monitor) {
    (!m.state.Incomplete? && exists t :: 0 <= t < |m.threads| && m.threads[t].Parked?) ==>
      (exists u :: 0 <= u < |m.threads| && WillNotify(m.threads[u]))
  }

  /** What a thread has done or been told agrees with the lock. */
  predicate Agrees(pc: Pc, state: LockState) {
    match pc
    case MarkAssigned | MarkNotify | MarkReturned => state.Completed?
    case PoisonNotify | PoisonReturned => !state.Incomplete?
    case WaitReturned(seen) => !seen.Incomplete? && !state.Incomplete? && (seen.Completed? ==> state.Completed?)
    case _ => true
  }

  ghost predicate Informed(m: Monitor) {
    forall t :: 0 <= t < |m.threads| ==> Agrees(m.threads[t], m.state)
  }

  ghost predicate Safe(m: Monitor) {
    Exclusive(m) && NoLostWakeup(m) && Informed(m)
  }

  /** Completion is final, poison gives way to completion only, and nothing goes back to incomplete. */
  predicate Progresses(before: LockState, after: LockState) {
    before == after || before.Incomplete? || (before.Poisoned? && after.Completed?)
  }

  lemma AdvanceKeepsWakeup(m: Monitor, t: nat)
    requires Safe(m) && Enabled(m, Advance(t))
    ensures NoLostWakeup(Advanced(m, t))
  {
    var n := Advanced(m, t);
    if !n.state.Incomplete? && exists p :: 0 <= p < |n.threads| && n.threads[p].Parked? {
      var p :| 0 <= p < |n.threads| && n.threads[p].Parked?;
      if m.threads[t].MarkHolds? || (m.threads[t].PoisonHolds? && m.state.Incomplete?) || m.threads[t].MarkAssigned? {
        assert WillNotify(n.threads[t]);
      } else {
        assert m.threads[p].Parked?;
        var u :| 0 <= u < |m.threads| && WillNotify(m.threads[u]);
        assert n.threads[u] == m.threads[u];
      }
    }
  }

  lemma StepKeepsExclusive(m: Monitor, a: Action)
    requires Exclusive(m) && Enabled(m, a)
    ensures Exclusive(After(m, a))
  {
  }

  lemma StepKeepsInformed(m: Monitor, a: Action)
    requires Informed(m) && Enabled(m, a)
    ensures Informed(After(m, a)) && Progresses(m.state, After(m, a).state)
  {
  }

  lemma StepKeeps(m: Monitor, a: Action)
    requires Safe(m) && Enabled(m, a)
    ensures Safe(After(m, a)) && Progresses(m.state, After(m, a).state)
  {
    StepKeepsExclusive(m, a);
    StepKeepsInformed(m, a);
    hide Exclusive, Informed, Progresses, Advanced;
    var n := After(m, a);
    match a
    case Advance(t) => AdvanceKeepsWakeup(m, t);
    case Enter(op) =>
      if !n.state.Incomplete? && exists p :: 0 <= p < |n.threads| && n.threads[p].Parked? {
        var p :| 0 <= p < |n.threads| && n.threads[p].Parked?;
        assert m.threads[p].Parked?;
        var u :| 0 <= u < |m.threads| && WillNotify(m.threads[u]);
        assert WillNotify(n.threads[u]);
      }
    case WakeSpuriously(t) =>
      if !n.state.Incomplete? && exists p :: 0 <= p < |n.threads| && n.threads[p].Parked? {
        var u :| 0 <= u < |m.threads| && WillNotify(m.threads[u]);
        assert WillNotify(n.threads[u]);
      }
  }

  lemma {:induction false} RunKeeps(m: Monitor, actions: seq<Action>)
    requires Safe(m) && Legal(m, actions)
    ensures Safe(Run(m, actions)) && Progresses(m.state, Run(m, actions).state)
    decreases |actions|
  {
    if actions != [] {
      StepKeeps(m, actions[0]);
      RunKeeps(After(m, actions[0]), actions[1..]);
    }
  }

  /** In every reachable state, one thread at most is inside the mutex, no waiter is parked on a decided lock unless a
      notification is on its way, every wait that returned saw a decided lock, and what threads have done and seen
      agrees with the lock: it is completed once a thread has completed it or seen it completed, and decided once one
      has poisoned it. */
  lemma MonitorIsSafe(actions: seq<Action>)
    requires Legal(NEW, actions)
    ensures Safe(Run(NEW, actions))
  {
    RunKeeps(NEW, actions);
  }

  /** The notification in question can be outstanding: `mark_complete` notifies after it has let go of the mutex. */
  lemma ParkedWhileComplete()
    ensures var actions := [Enter(WaitStart), Advance(0), Advance(0),
                            Enter(MarkStart), Advance(1), Advance(1), Advance(1)];
            Legal(NEW, actions) && Run(NEW, actions) == Monitor(Completed, Nothing, [Parked, MarkNotify])
  {
    hide Legal, Run;
    var parked := Monitor(Incomplete, Nothing, [Parked]);
    assert [] + [WaitStart] == [WaitStart] && [Parked] + [MarkStart] == [Parked, MarkStart];
    assert [WaitStart][0 := WaitHolds] == [WaitHolds] && [WaitHolds][0 := Parked] == [Parked];
    assert [Parked, MarkStart][1 := MarkHolds] == [Parked, MarkHolds];
    assert [Parked, MarkHolds][1 := MarkAssigned] == [Parked, MarkAssigned];
    assert [Parked, MarkAssigned][1 := MarkNotify] == [Parked, MarkNotify];
    var s0 := [Advance(1)];
    var s1 := [Advance(1)] + s0;
    var s2 := [Advance(1)] + s1;
    Unfold(Monitor(Completed, Nothing, [Parked, MarkNotify]), Advance(0), []);
    assert s0 == [Advance(1)] + [];
    Unfold(Monitor(Completed, Some(1), [Parked, MarkAssigned]), Advance(1), []);
    Unfold(Monitor(Incomplete, Some(1), [Parked, MarkHolds]), Advance(1), s0);
    Unfold(Monitor(Incomplete, Nothing, [Parked, MarkStart]), Advance(1), s1);
    Unfold(parked, Enter(MarkStart), s2);
    var s3 := [Enter(MarkStart)] + s2;
    Unfold(Monitor(Incomplete, Some(0), [WaitHolds]), Advance(0), s3);
    var s4 := [Advance(0)] + s3;
    Unfold(Monitor(Incomplete, Nothing, [WaitStart]), Advance(0), s4);
    var s5 := [Advance(0)] + s4;
    Unfold(NEW, Enter(WaitStart), s5);
    assert [Enter(WaitStart)] + s5
        == [Enter(WaitStart), Advance(0), Advance(0), Enter(MarkStart), Advance(1), Advance(1), Advance(1)];
  }

  lemma Unfold(m: Monitor, a: Action, more: seq<Action>)
    ensures Legal(m, []) && Run(m, []) == m
    ensures Enabled(m, a) ==>
              && Legal(m, [a] + more) == Legal(After(m, a), more)
              && (Legal(m, [a] + more) ==> Run(m, [a] + more) == Run(After(m, a), more))
  {
    assert ([a] + more)[1..] == more;
  }

  // --- What the lock and its waiters say about the past ---

  /** The monitor after the first `k` actions. */
  function At(m: Monitor, actions: seq<Action>, k: nat): Monitor
    requires Legal(m, actions) && k <= |actions|
    decreases k
  {
    if k == 0 then m else At(After(m, actions[0]), actions[1..], k - 1)
  }

  predicate Completes(m: Monitor, a: Action) {
    a.Advance? && a.thread < |m.threads| && m.threads[a.thread].MarkHolds?
  }

  /** A poisoning thread finds the lock undecided. */
  predicate PoisonsIt(m: Monitor, a: Action) {
    a.Advance? && a.thread < |m.threads| && m.threads[a.thread].PoisonHolds? && m.state.Incomplete?
  }

  ghost predicate EverCompleted(m: Monitor, actions: seq<Action>)
    requires Legal(m, actions)
  {
    exists k :: 0 <= k < |actions| && Completes(At(m, actions, k), actions[k])
  }

  ghost predicate EverPoisoned(m: Monitor, actions: seq<Action>)
    requires Legal(m, actions)
  {
    exists k :: 0 <= k < |actions| && PoisonsIt(At(m, actions, k), actions[k])
  }

  /** An event of the run is its first action, or one of the rest. */
  lemma EverUnfolds(m: Monitor, actions: seq<Action>)
    requires Legal(m, actions) && actions != []
    ensures var (n, rest) := (After(m, actions[0]), actions[1..]);
            && (EverCompleted(m, actions) <==> Completes(m, actions[0]) || EverCompleted(n, rest))
            && (EverPoisoned(m, actions) <==> PoisonsIt(m, actions[0]) || EverPoisoned(n, rest))
  {
    var (n, rest) := (After(m, actions[0]), actions[1..]);
    AtUnfolds(m, actions);
    hide Legal, Completes, PoisonsIt, After;
    assert At(m, actions, 0) == m;
    forall k | 0 <= k < |rest| ensures At(m, actions, k + 1) == At(n, rest, k) && actions[k + 1] == rest[k] {
    }
    if EverCompleted(n, rest) {
      var k :| 0 <= k < |rest| && Completes(At(n, rest, k), rest[k]);
      assert Completes(At(m, actions, k + 1), actions[k + 1]);
    }
    if EverCompleted(m, actions) && !Completes(m, actions[0]) {
      var k :| 0 <= k < |actions| && Completes(At(m, actions, k), actions[k]);
      assert Completes(At(n, rest, k - 1), rest[k - 1]);
    }
    if EverPoisoned(n, rest) {
      var k :| 0 <= k < |rest| && PoisonsIt(At(n, rest, k), rest[k]);
      assert PoisonsIt(At(m, actions, k + 1), actions[k + 1]);
    }
    if EverPoisoned(m, actions) && !PoisonsIt(m, actions[0]) {
      var k :| 0 <= k < |actions| && PoisonsIt(At(m, actions, k), actions[k]);
      assert PoisonsIt(At(n, rest, k - 1), rest[k - 1]);
    }
  }

  lemma AtUnfolds(m: Monitor, actions: seq<Action>)
    requires Legal(m, actions) && actions != []
    ensures Legal(After(m, actions[0]), actions[1..])
    ensures forall k :: 0 < k <= |actions| ==> At(m, actions, k) == At(After(m, actions[0]), actions[1..], k - 1)
  {
  }

  /** The state of the lock is its history: completed if a thread has ever completed it, else poisoned if one has ever
      poisoned it. */
  lemma {:induction false} StateIsHistory(m: Monitor, actions: seq<Action>)
    requires Legal(m, actions)
    ensures Run(m, actions).state
            == if m.state.Completed? || EverCompleted(m, actions) then Completed
               else if m.state.Poisoned? || EverPoisoned(m, actions) then Poisoned else Incomplete
    decreases |actions|
  {
    hide EverCompleted, EverPoisoned;
    if actions == [] {
      NothingEver(m);
    } else {
      EverUnfolds(m, actions);
      StateIsHistory(After(m, actions[0]), actions[1..]);
    }
  }

  lemma NothingEver(m: Monitor)
    ensures !EverCompleted(m, []) && !EverPoisoned(m, [])
  {
  }

  predicate Entered(actions: seq<Action>, operation: Pc) {
    exists k :: 0 <= k < |actions| && actions[k] == Enter(operation)
  }

  ghost predicate NobodyMarks(m: Monitor) {
    forall t :: 0 <= t < |m.threads| ==> !m.threads[t].MarkStart? && !m.threads[t].MarkHolds?
  }

  ghost predicate NobodyPoisons(m: Monitor) {
    forall t :: 0 <= t < |m.threads| ==> !m.threads[t].PoisonStart? && !m.threads[t].PoisonHolds?
  }

  lemma {:induction false} NobodyCompletes(m: Monitor, actions: seq<Action>)
    requires Legal(m, actions) && NobodyMarks(m) && !Entered(actions, MarkStart)
    ensures !EverCompleted(m, actions)
    decreases |actions|
  {
    hide EverCompleted, EverPoisoned;
    if actions == [] {
      NothingEver(m);
    } else {
      EverUnfolds(m, actions);
      assert actions[0] != Enter(MarkStart);
      NobodyCompletes(After(m, actions[0]), actions[1..]);
    }
  }

  lemma {:induction false} NobodyPoisonsIt(m: Monitor, actions: seq<Action>)
    requires Legal(m, actions) && NobodyPoisons(m) && !Entered(actions, PoisonStart)
    ensures !EverPoisoned(m, actions)
    decreases |actions|
  {
    hide EverCompleted, EverPoisoned;
    if actions == [] {
      NothingEver(m);
    } else {
      EverUnfolds(m, actions);
      assert actions[0] != Enter(PoisonStart);
      NobodyPoisonsIt(After(m, actions[0]), actions[1..]);
    }
  }

  /** Nobody has been told that the lock is poisoned. */
  ghost predicate NoneSawPoison(m: Monitor) {
    !m.state.Poisoned? && forall t :: 0 <= t < |m.threads| ==> m.threads[t] != WaitReturned(Poisoned)
  }

  lemma {:induction false} PoisonIsSeenAfterwards(m: Monitor, actions: seq<Action>)
    requires Legal(m, actions) && NoneSawPoison(m) && !EverPoisoned(m, actions)
    ensures NoneSawPoison(Run(m, actions))
    decreases |actions|
  {
    hide EverCompleted, EverPoisoned;
    if actions != [] {
      EverUnfolds(m, actions);
      PoisonIsSeenAfterwards(After(m, actions[0]), actions[1..]);
    }
  }

  /** Waits tell the truth. One that saw the lock completed: a thread of the run completed it, and it is completed now
      and for ever. One that saw it poisoned: a thread of the run poisoned it while it was undecided. */
  lemma WaitsTellTheTruth(actions: seq<Action>, later: seq<Action>, t: nat)
    requires Legal(NEW, actions) && Legal(Run(NEW, actions), later)
    requires t < |Run(NEW, actions).threads| && Run(NEW, actions).threads[t].WaitReturned?
    ensures var (m, seen) := (Run(NEW, actions), Run(NEW, actions).threads[t].seen);
            && !seen.Incomplete?
            && (seen.Completed? ==>
                  && EverCompleted(NEW, actions) && Entered(actions, MarkStart)
                  && m.state.Completed? && Run(m, later).state.Completed?)
            && (seen.Poisoned? ==> EverPoisoned(NEW, actions) && Entered(actions, PoisonStart))
  {
    hide EverCompleted, EverPoisoned;
    var m := Run(NEW, actions);
    RunKeeps(NEW, actions);
    RunKeeps(m, later);
    StateIsHistory(NEW, actions);
    assert Agrees(m.threads[t], m.state);
    if !Entered(actions, MarkStart) {
      NobodyCompletes(NEW, actions);
    }
    if !Entered(actions, PoisonStart) {
      NobodyPoisonsIt(NEW, actions);
    }
    if !EverPoisoned(NEW, actions) {
      PoisonIsSeenAfterwards(NEW, actions);
    }
  }

  /** A `mark_complete` that has returned leaves the lock completed for ever; a `poison` that has returned leaves it
      decided for ever. */
  lemma OperationsTakeEffect(actions: seq<Action>, later: seq<Action>, t: nat)
    requires Legal(NEW, actions) && Legal(Run(NEW, actions), later) && t < |Run(NEW, actions).threads|
    ensures var (m, end) := (Run(NEW, actions), Run(Run(NEW, actions), later));
            && (m.threads[t].MarkReturned? ==> m.state.Completed? && end.state.Completed?)
            && (m.threads[t].PoisonReturned? ==> !m.state.Incomplete? && !end.state.Incomplete?)
  {
    var m := Run(NEW, actions);
    RunKeeps(NEW, actions);
    RunKeeps(m, later);
    assert Agrees(m.threads[t], m.state);
  }

  // --- Progress ---

  /** How many more actions of its own a thread can take once the lock is decided. */
  function Left(pc: Pc): nat {
    match pc
    case MarkStart => 4
    case MarkHolds => 3
    case MarkAssigned => 2
    case MarkNotify => 1
    case PoisonStart => 2
    case PoisonHolds => 1
    case PoisonNotify => 1
    case Parked => 3
    case Woken => 2
    case WaitStart => 2
    case WaitHolds => 1
    case MarkReturned => 0
    case PoisonReturned => 0
    case WaitReturned(_) => 0
  }

  function AllLeft(threads: seq<Pc>): nat {
    if threads == [] then 0 else Left(threads[0]) + AllLeft(threads[1..])
  }

  lemma {:induction false} LessLeft(before: seq<Pc>, after: seq<Pc>, t: nat)
    requires |before| == |after| && t < |before| && Left(after[t]) < Left(before[t])
    requires forall i :: 0 <= i < |before| ==> Left(after[i]) <= Left(before[i])
    ensures AllLeft(after) < AllLeft(before)
  {
    if t > 0 {
      LessLeft(before[1..], after[1..], t - 1);
    } else {
      NoMoreLeft(before[1..], after[1..]);
    }
  }

  lemma {:induction false} NoMoreLeft(before: seq<Pc>, after: seq<Pc>)
    requires |before| == |after|
    requires forall i :: 0 <= i < |before| ==> Left(after[i]) <= Left(before[i])
    ensures AllLeft(after) <= AllLeft(before)
  {
    if before != [] {
      NoMoreLeft(before[1..], after[1..]);
    }
  }

  /** Once the lock is decided, every action of a thread already inside brings all of them nearer to returning. */
  lemma DecidedLockDrains(m: Monitor, a: Action)
    requires !m.state.Incomplete? && Enabled(m, a) && !a.Enter?
    ensures AllLeft(After(m, a).threads) < AllLeft(m.threads)
  {
    LessLeft(m.threads, After(m, a).threads, a.thread);
  }

  /** A decided lock never gets stuck: as long as a thread is inside, some thread can move. */
  lemma DecidedLockMoves(m: Monitor, t: nat)
    returns (next: nat)
    requires Safe(m) && !m.state.Incomplete? && t < |m.threads| && !Finished(m.threads[t])
    ensures Enabled(m, Advance(next))
  {
    if m.holder.Some? {
      next := m.holder.value;
    } else if m.threads[t].Parked? {
      next :| 0 <= next < |m.threads| && WillNotify(m.threads[next]);
    } else {
      next := t;
    }
  }

  /** Together: after the lock is decided, the threads inside can take at most `AllLeft` more actions, and when they
      can take no more all of them have returned. */
  lemma {:induction false} EverybodyReturns(m: Monitor, actions: seq<Action>)
    requires Safe(m) && !m.state.Incomplete? && Legal(m, actions)
    requires forall i :: 0 <= i < |actions| ==> !actions[i].Enter?
    ensures |actions| <= AllLeft(m.threads)
    ensures var end := Run(m, actions);
            (forall t: nat :: !Enabled(end, Advance(t))) ==>
              (forall t :: 0 <= t < |end.threads| ==> Finished(end.threads[t]))
    decreases |actions|
  {
    if actions != [] {
      DecidedLockDrains(m, actions[0]);
      StepKeeps(m, actions[0]);
      EverybodyReturns(After(m, actions[0]), actions[1..]);
      assert Run(m, actions) == Run(After(m, actions[0]), actions[1..]);
    } else if forall t: nat :: !Enabled(m, Advance(t)) {
      forall t | 0 <= t < |m.threads| ensures Finished(m.threads[t]) {
        if !Finished(m.threads[t]) {
          var next := DecidedLockMoves(m, t);
          assert false;
        }
      }
    }
  }
}
