/** The identifier queue shared by any number of threads. `get` (`src/roi_queue.rs`) is two atomic actions: a pop of
    the relinquished identifiers and, when that found nothing, a later `fetch_add`. Other threads run in between. */
module RoiQueueThreads {
  import opened RoiQueues

  /** `pending` holds the threads whose pop found nothing and whose `fetch_add` is still to come. `issued` counts the
      additions without wrapping, and `peak` is the most identifiers held and additions pending at any one time. */
  datatype Shared = Shared(limit: nat, counter: nat, relinquished: seq<nat>, live: set<nat>, pending: set<nat>,
                           issued: nat, peak: nat)

  datatype Action = Pop(thread: nat) | FetchAdd(thread: nat) | Relinquish(id: nat)

  predicate Enabled(s: Shared, a: Action) {
    match a
    case Pop(t) => t !in s.pending
    case FetchAdd(t) => t in s.pending
    case Relinquish(id) => id in s.live
  }

  function Max(a: nat, b: nat): nat {
    if a > b then a else b
  }

  function WithPeak(s: Shared): Shared {
    s.(peak := Max(s.peak, |s.live| + |s.pending|))
  }

  function After(s: Shared, a: Action): Shared {
    match a
    case Pop(t) =>
      if s.relinquished != [] then
        WithPeak(s.(relinquished := s.relinquished[1..], live := s.live + {s.relinquished[0]}))
      else
        WithPeak(s.(pending := s.pending + {t}))
    case FetchAdd(t) =>
      WithPeak(s.(counter := Increment(s.counter, s.limit), live := s.live + {s.counter},
                  pending := s.pending - {t}, issued := s.issued + 1))
    case Relinquish(id) =>
      s.(relinquished := s.relinquished + [id], live := s.live - {id})
  }

  function Start(limit: nat): Shared {
    Shared(limit, 0, [], {}, {}, 0, 0)
  }

  predicate Legal(s: Shared, actions: seq<Action>)
    decreases |actions|
  {
    actions == [] || (Enabled(s, actions[0]) && Legal(After(s, actions[0]), actions[1..]))
  }

  function Run(s: Shared, actions: seq<Action>): Shared
    decreases |actions|
  {
    if actions == [] then s else Run(After(s, actions[0]), actions[1..])
  }

  /** The identifier an action hands to its thread, if it hands one. */
  function Issues(s: Shared, a: Action): set<nat> {
    match a
    case Pop(t) => if s.relinquished != [] then {s.relinquished[0]} else {}
    case FetchAdd(t) => {s.counter}
    case Relinquish(_) => {}
  }

  ghost predicate Safe(s: Shared) {
    && s.limit > 0
    && Roi(s.limit, s.counter, s.relinquished).Accounts(s.live)
    && s.issued == |s.live| + |s.relinquished|
    && |s.live| + |s.pending| <= s.peak
    && s.issued + |s.pending| <= s.peak
  }

  lemma PopKeeps(s: Shared, t: nat)
    requires Safe(s) && Enabled(s, Pop(t)) && After(s, Pop(t)).peak <= s.limit
    ensures Safe(After(s, Pop(t))) && s.live !! Issues(s, Pop(t))
  {
    var q := Roi(s.limit, s.counter, s.relinquished);
    if s.relinquished != [] {
      assert |s.live| < s.limit;
      TakeKeeps(q, s.live);
    } else {
      assert |s.pending + {t}| == |s.pending| + 1;
    }
  }

  lemma FetchAddKeeps(s: Shared, t: nat)
    requires Safe(s) && Enabled(s, FetchAdd(t)) && s.peak <= s.limit
    ensures Safe(After(s, FetchAdd(t))) && s.live !! Issues(s, FetchAdd(t))
  {
    assert |s.pending| == |s.pending - {t}| + 1;
    assert s.issued < s.limit && s.counter == s.issued;
    assert s.counter !in s.live;
    assert |s.live + {s.counter}| == |s.live| + 1;
    var q := Roi(s.limit, Increment(s.counter, s.limit), s.relinquished);
    assert q.Issued(s.live + {s.counter}) == s.issued + 1;
    assert q.Accounts(s.live + {s.counter});
  }

  lemma StepKeeps(s: Shared, a: Action)
    requires Safe(s) && Enabled(s, a) && After(s, a).peak <= s.limit
    ensures Safe(After(s, a)) && s.live !! Issues(s, a)
  {
    match a
    case Pop(t) => PopKeeps(s, t);
    case FetchAdd(t) => FetchAddKeeps(s, t);
    case Relinquish(id) => ReturnKeeps(Roi(s.limit, s.counter, s.relinquished), s.live, id);
  }

  lemma {:induction false} PeakGrows(s: Shared, actions: seq<Action>)
    ensures Run(s, actions).peak >= s.peak
    ensures Run(s, actions).limit == s.limit
    decreases |actions|
  {
    if actions != [] {
      PeakGrows(After(s, actions[0]), actions[1..]);
    }
  }

  lemma {:induction false} RunKeeps(s: Shared, actions: seq<Action>)
    requires Safe(s) && Legal(s, actions) && Run(s, actions).peak <= s.limit
    ensures Safe(Run(s, actions))
    decreases |actions|
  {
    if actions != [] {
      PeakGrows(After(s, actions[0]), actions[1..]);
      StepKeeps(s, actions[0]);
      RunKeeps(After(s, actions[0]), actions[1..]);
    }
  }

  /** However the actions of any number of threads interleave: as long as the peak of identifiers held plus additions
      pending stays within the counter's range, an identifier is never handed out while held, none is lost, and the
      counter with the additions still pending never passes that peak. */
  lemma ConcurrentGetIsSafe(limit: nat, actions: seq<Action>, next: Action)
    requires limit > 0 && Legal(Start(limit), actions)
    requires Enabled(Run(Start(limit), actions), next) && Run(Start(limit), actions + [next]).peak <= limit
    ensures var s := Run(Start(limit), actions);
            && s.live !! Issues(s, next)
            && s.live + Elements(s.relinquished) == Below(s.issued) && s.live !! Elements(s.relinquished)
            && s.issued + |s.pending| <= s.peak
            && (s.issued < limit ==> s.counter == s.issued)
  {
    var s := Run(Start(limit), actions);
    RunAppend(Start(limit), actions, next);
    PeakGrows(Start(limit), actions);
    PeakGrows(s, [next]);
    assert Run(s, [next]) == Run(After(s, next), []) == After(s, next);
    hide Run, Legal;
    RunKeeps(Start(limit), actions);
    StepKeeps(s, next);
    NothingLost(Roi(s.limit, s.counter, s.relinquished), s.live);
  }

  lemma {:induction false} RunAppend(s: Shared, actions: seq<Action>, next: Action)
    ensures Run(s, actions + [next]) == After(Run(s, actions), next)
    decreases |actions|
  {
    if actions == [] {
      assert actions + [next] == [next];
      assert Run(s, [next]) == Run(After(s, next), []);
    } else {
      assert (actions + [next])[1..] == actions[1..] + [next];
      RunAppend(After(s, actions[0]), actions[1..], next);
    }
  }

  /** The most identifiers ever held at once. */
  function PeakLive(s: Shared, actions: seq<Action>): nat
    decreases |actions|
  {
    if actions == [] then |s.live| else Max(|s.live|, PeakLive(After(s, actions[0]), actions[1..]))
  }

  lemma {:induction false} PeakLiveAppend(s: Shared, actions: seq<Action>, next: Action)
    ensures PeakLive(s, actions + [next]) == Max(PeakLive(s, actions), |After(Run(s, actions), next).live|)
    ensures PeakLive(s, actions) >= |Run(s, actions).live|
    decreases |actions|
  {
    if actions == [] {
      assert actions + [next] == [next] && [next][1..] == [];
      assert PeakLive(After(s, next), []) == |After(s, next).live|;
    } else {
      assert (actions + [next])[1..] == actions[1..] + [next];
      PeakLiveAppend(After(s, actions[0]), actions[1..], next);
    }
  }

  /** An addition that comes when an identifier has been given back meanwhile. */
  predicate Overshoots(s: Shared, a: Action) {
    a.FetchAdd? && s.relinquished != []
  }

  /** As long as no more identifiers have been issued than were held at once, the next action changes that exactly if
      it is an addition that comes when there is an identifier to reuse. */
  lemma OvershootsIff(s: Shared, a: Action, peak: nat)
    requires Safe(s) && Enabled(s, a) && After(s, a).peak <= s.limit && s.issued == peak >= |s.live|
    ensures var t := After(s, a); t.issued == Max(peak, |t.live|) <==> !Overshoots(s, a)
  {
    StepKeeps(s, a);
  }

  lemma {:induction false} LegalParts(s: Shared, actions: seq<Action>, k: nat)
    requires k <= |actions| && Legal(s, actions)
    ensures Legal(s, actions[..k]) && Run(s, actions[..k]).peak <= Run(s, actions).peak
    ensures k < |actions| ==> Enabled(Run(s, actions[..k]), actions[k])
    decreases k
  {
    if k == 0 {
      assert actions[..0] == [];
      PeakGrows(s, actions);
    } else {
      assert actions[..k][1..] == actions[1..][..k - 1] && actions[..k][0] == actions[0];
      LegalParts(After(s, actions[0]), actions[1..], k - 1);
    }
  }

  /** No more identifiers have been issued than were held at once. */
  predicate Tight(limit: nat, actions: seq<Action>) {
    Run(Start(limit), actions).issued == PeakLive(Start(limit), actions)
  }

  lemma TightStep(limit: nat, actions: seq<Action>, k: nat)
    requires limit > 0 && Legal(Start(limit), actions) && Run(Start(limit), actions).peak <= limit && k < |actions|
    requires Tight(limit, actions[..k])
    ensures Tight(limit, actions[..k + 1]) <==> !Overshoots(Run(Start(limit), actions[..k]), actions[k])
  {
    var s0 := Start(limit);
    var (s, a) := (Run(s0, actions[..k]), actions[k]);
    LegalParts(s0, actions, k);
    LegalParts(s0, actions, k + 1);
    assert actions[..k + 1] == actions[..k] + [a];
    RunAppend(s0, actions[..k], a);
    PeakLiveAppend(s0, actions[..k], a);
    PeakGrows(s0, actions[..k]);
    PeakGrows(s, [a]);
    assert Run(s, [a]) == Run(After(s, a), []) == After(s, a);
    hide Run, Legal, PeakLive, Safe, After;
    RunKeeps(s0, actions[..k]) by { StartIsSafe(limit); }
    OvershootsIff(s, a, PeakLive(s0, actions[..k]));
  }

  lemma StartIsSafe(limit: nat)
    requires limit > 0
    ensures Safe(Start(limit))
  {
  }

  lemma {:induction false} TightWithout(limit: nat, actions: seq<Action>, k: nat)
    requires limit > 0 && Legal(Start(limit), actions) && Run(Start(limit), actions).peak <= limit && k <= |actions|
    requires forall i :: 0 <= i < k ==> !Overshoots(Run(Start(limit), actions[..i]), actions[i])
    ensures Tight(limit, actions[..k])
    decreases k
  {
    if k == 0 {
      assert actions[..0] == [];
      assert Run(Start(limit), []) == Start(limit);
    } else {
      TightWithout(limit, actions, k - 1);
      TightStep(limit, actions, k - 1);
    }
  }

  /** For threads, the identifiers issued are at all times the most that were held at once if and only if no addition
      of the run comes when there is an identifier to reuse. */
  lemma TightIff(limit: nat, actions: seq<Action>)
    requires limit > 0 && Legal(Start(limit), actions) && Run(Start(limit), actions).peak <= limit
    ensures (forall k :: 0 <= k <= |actions| ==> Tight(limit, actions[..k]))
            <==> (forall k :: 0 <= k < |actions| ==> !Overshoots(Run(Start(limit), actions[..k]), actions[k]))
  {
    hide Legal, Run, Tight, Overshoots;
    if forall k :: 0 <= k <= |actions| ==> Tight(limit, actions[..k]) {
      forall k | 0 <= k < |actions| ensures !Overshoots(Run(Start(limit), actions[..k]), actions[k]) {
        assert Tight(limit, actions[..k]) && Tight(limit, actions[..k + 1]);
        TightStep(limit, actions, k);
      }
    }
    if forall k :: 0 <= k < |actions| ==> !Overshoots(Run(Start(limit), actions[..k]), actions[k]) {
      forall k | 0 <= k <= |actions| ensures Tight(limit, actions[..k]) {
        TightWithout(limit, actions, k);
      }
    }
  }

  /** The sequential bound is too tight here: a thread that missed may issue a second identifier although no more
      than one was ever held. */
  lemma ConcurrentGetCanOvershoot()
    ensures var actions := [Pop(1), FetchAdd(1), Pop(2), Relinquish(0), FetchAdd(2)];
            && Legal(Start(256), actions)
            && Run(Start(256), actions).issued == 2
            && PeakLive(Start(256), actions) == 1
  {
    var s1 := After(Start(256), Pop(1));
    var s2 := After(s1, FetchAdd(1));
    var s3 := After(s2, Pop(2));
    var s4 := After(s3, Relinquish(0));
    var s5 := After(s4, FetchAdd(2));
    assert s1 == Shared(256, 0, [], {}, {1}, 0, 1);
    assert s2 == Shared(256, 1, [], {0}, {}, 1, 1);
    assert s3 == Shared(256, 1, [], {0}, {2}, 1, 2);
    assert s4 == Shared(256, 1, [0], {}, {2}, 1, 2);
    assert s5 == Shared(256, 2, [0], {1}, {}, 2, 2);
    hide Legal, Run, PeakLive;
    Unfold(s5, []);
    Unfold(s4, [FetchAdd(2)]);
    Unfold(s3, [Relinquish(0), FetchAdd(2)]);
    Unfold(s2, [Pop(2), Relinquish(0), FetchAdd(2)]);
    Unfold(s1, [FetchAdd(1), Pop(2), Relinquish(0), FetchAdd(2)]);
    Unfold(Start(256), [Pop(1), FetchAdd(1), Pop(2), Relinquish(0), FetchAdd(2)]);
  }

  lemma Unfold(s: Shared, actions: seq<Action>)
    ensures actions == [] ==> Legal(s, actions) && Run(s, actions) == s && PeakLive(s, actions) == |s.live|
    ensures actions != [] ==>
              var (s1, more) := (After(s, actions[0]), actions[1..]);
              && Legal(s, actions) == (Enabled(s, actions[0]) && Legal(s1, more))
              && Run(s, actions) == Run(s1, more)
              && PeakLive(s, actions) == Max(|s.live|, PeakLive(s1, more))
  {
  }

  /** The queue inside, as one thread alone sees it. */
  function Queue(s: Shared): Roi {
    Roi(s.limit, s.counter, s.relinquished)
  }

  /** A thread that is not disturbed gets what the queue of one thread hands out, and leaves the queue as that does. */
  lemma AloneIsSequential(s: Shared, t: nat)
    requires t !in s.pending
    ensures var actions := if s.relinquished != [] then [Pop(t)] else [Pop(t), FetchAdd(t)];
            var (before, last) := (Run(s, actions[..|actions| - 1]), actions[|actions| - 1]);
            && Legal(s, actions)
            && Issues(before, last) == {Queue(s).Next()}
            && Queue(Run(s, actions)) == Queue(s).Taken()
            && Run(s, actions).live == s.live + {Queue(s).Next()}
            && Run(s, actions).pending == s.pending
            && forall id: nat :: Queue(After(s, Relinquish(id))) == Queue(s).Returned(id)
  {
    var s1 := After(s, Pop(t));
    if s.relinquished != [] {
      assert [Pop(t)][..0] == [];
      Unfold(s, []);
      Unfold(s, [Pop(t)]);
      Unfold(s1, []);
    } else {
      var s2 := After(s1, FetchAdd(t));
      assert [Pop(t), FetchAdd(t)][..1] == [Pop(t)] && [Pop(t)][1..] == [];
      assert [Pop(t), FetchAdd(t)][1..] == [FetchAdd(t)] && [FetchAdd(t)][1..] == [];
      Unfold(s, [Pop(t)]);
      Unfold(s, [Pop(t), FetchAdd(t)]);
      Unfold(s1, []);
      Unfold(s1, [FetchAdd(t)]);
      Unfold(s2, []);
      assert s.pending + {t} - {t} == s.pending;
    }
  }
}
