/** The reuse-or-increment identifier queue (`src/roi_queue.rs`), used by one thread at a time. */
module RoiQueues {
  import opened Types

  /** An unsigned addition of one that wraps around at `limit`. */
  function Increment(n: nat, limit: nat): nat {
    if n + 1 == limit then 0 else n + 1
  }

  /** A number up to `limit` as the counter shows it. */
  function Wrapped(n: nat, limit: nat): nat {
    if n == limit then 0 else n
  }

  /** The state of a queue: an atomic counter modulo `limit`, and the identifiers waiting for reuse. */
  datatype Roi = Roi(limit: nat, counter: nat, relinquished: seq<nat>) {
    /** What `get` would return now. */
    function Next(): nat {
      if relinquished != [] then relinquished[0] else counter
    }

    function Taken(): Roi {
      if relinquished != [] then this.(relinquished := relinquished[1..])
      else this.(counter := Increment(counter, limit))
    }

    function Returned(id: nat): Roi {
      this.(relinquished := relinquished + [id])
    }

    /** How many distinct identifiers have ever been issued, given those in circulation. */
    function Issued(live: set<nat>): nat {
      |live| + |relinquished|
    }

    /** The identifiers in circulation and those waiting for reuse are, without overlap, the first ones issued. */
    ghost predicate Accounts(live: set<nat>) {
      && limit > 0
      && Issued(live) <= limit
      && counter == Wrapped(Issued(live), limit)
      && (forall i, j :: 0 <= i < j < |relinquished| ==> relinquished[i] != relinquished[j])
      && (forall i :: 0 <= i < |relinquished| ==> relinquished[i] < Issued(live) && relinquished[i] !in live)
      && (forall id: nat :: id in live ==> id < Issued(live))
    }
  }

  function FreshQueue(limit: nat): Roi {
    Roi(limit, 0, [])
  }

  /** The first `n` natural numbers. */
  function Below(n: nat): (s: set<nat>)
    ensures |s| == n && forall i: nat :: i in s <==> i < n
  {
    if n == 0 then {} else Below(n - 1) + {n - 1}
  }

  lemma SubsetSize<T>(a: set<T>, b: set<T>)
    requires a <= b
    ensures |a| <= |b| && (|a| == |b| ==> a == b)
  {
    assert b == a + (b - a);
    assert |b| == |a| + |b - a|;
  }

  function Elements(s: seq<nat>): set<nat> {
    set x | x in s
  }

  lemma {:induction false} DistinctSize(s: seq<nat>)
    requires forall i, j :: 0 <= i < j < |s| ==> s[i] != s[j]
    ensures |Elements(s)| == |s|
  {
    if s != [] {
      DistinctSize(s[1..]);
      assert Elements(s) == {s[0]} + Elements(s[1..]);
    }
  }

  /** The accounting leaves no gap: nothing below the number of issued identifiers is lost. */
  lemma NothingLost(q: Roi, live: set<nat>)
    requires q.Accounts(live)
    ensures live + Elements(q.relinquished) == Below(q.Issued(live))
    ensures live !! Elements(q.relinquished)
  {
    DistinctSize(q.relinquished);
    var all := live + Elements(q.relinquished);
    assert live !! Elements(q.relinquished);
    assert |all| == q.Issued(live);
    SubsetSize(all, Below(q.Issued(live)));
  }

  /** `get` returns an identifier that is not in circulation exactly when fewer than `limit` are. */
  lemma FreshUntilFull(q: Roi, live: set<nat>)
    requires q.Accounts(live)
    ensures q.Next() !in live <==> |live| < q.limit
  {
    NothingLost(q, live);
    if q.relinquished == [] && |live| == q.limit {
      assert q.Next() == 0;
    }
  }

  lemma TakeKeeps(q: Roi, live: set<nat>)
    requires q.Accounts(live) && |live| < q.limit
    ensures q.Next() !in live && q.Next() < q.limit && q.Taken().Accounts(live + {q.Next()})
    ensures q.Taken().limit == q.limit
  {
    FreshUntilFull(q, live);
    var id := q.Next();
    assert |live + {id}| == |live| + 1;
    assert q.Taken().Issued(live + {id}) == if q.relinquished != [] then q.Issued(live) else q.Issued(live) + 1;
  }

  lemma ReturnKeeps(q: Roi, live: set<nat>, id: nat)
    requires q.Accounts(live) && id in live
    ensures q.Returned(id).Accounts(live - {id}) && q.Returned(id).limit == q.limit
  {
    assert |live - {id}| == |live| - 1;
  }

  // --- Whole runs ---

  datatype Use = Take | Return(id: nat)

  /** A queue with what its users hold, and the largest number they ever held at once. */
  datatype Ledger = Ledger(queue: Roi, live: set<nat>, peak: nat) {
    function After(u: Use): Ledger {
      match u
      case Take =>
        var live' := live + {queue.Next()};
        Ledger(queue.Taken(), live', if |live'| > peak then |live'| else peak)
      case Return(id) => Ledger(queue.Returned(id), live - {id}, peak)
    }

    /** Users return what they hold, and never hold more than there are values. */
    predicate Allows(u: Use) {
      match u
      case Take => |live| < queue.limit
      case Return(id) => id in live
    }
  }

  predicate Legal(start: Ledger, uses: seq<Use>)
    decreases |uses|
  {
    uses == [] || (start.Allows(uses[0]) && Legal(start.After(uses[0]), uses[1..]))
  }

  function Run(start: Ledger, uses: seq<Use>): Ledger
    decreases |uses|
  {
    if uses == [] then start else Run(start.After(uses[0]), uses[1..])
  }

  lemma {:induction false} RunKeeps(start: Ledger, uses: seq<Use>)
    requires Legal(start, uses)
    requires start.queue.Accounts(start.live) && start.queue.Issued(start.live) == start.peak
    ensures var end := Run(start, uses);
            && end.queue.limit == start.queue.limit
            && end.queue.Accounts(end.live) && end.queue.Issued(end.live) == end.peak
    decreases |uses|
  {
    if uses != [] {
      var next := start.After(uses[0]);
      match uses[0] {
        case Take => TakeKeeps(start.queue, start.live);
        case Return(id) => ReturnKeeps(start.queue, start.live, id);
      }
      RunKeeps(next, uses[1..]);
    }
  }

  /** In every sequential run the number of identifiers ever issued is the peak number in circulation, the wrapping
      counter is that number, and the next identifier is unused exactly when there is an unused one. */
  lemma TightWrapBound(limit: nat, uses: seq<Use>)
    requires limit > 0 && Legal(Ledger(FreshQueue(limit), {}, 0), uses)
    ensures var end := Run(Ledger(FreshQueue(limit), {}, 0), uses);
            && end.queue.Issued(end.live) == end.peak <= limit
            && end.queue.counter == Wrapped(end.peak, limit)
            && end.live + Elements(end.queue.relinquished) == Below(end.peak)
            && end.live !! Elements(end.queue.relinquished)
            && (end.queue.Next() !in end.live <==> |end.live| < limit)
  {
    var start := Ledger(FreshQueue(limit), {}, 0);
    RunKeeps(start, uses);
    var end := Run(start, uses);
    NothingLost(end.queue, end.live);
    FreshUntilFull(end.queue, end.live);
  }

  // --- The order of reuse ---

  /** The identifiers that a run of uses hands out. */
  function Got(q: Roi, uses: seq<Use>): seq<nat>
    decreases |uses|
  {
    if uses == [] then []
    else
      match uses[0]
      case Take => [q.Next()] + Got(q.Taken(), uses[1..])
      case Return(id) => Got(q.Returned(id), uses[1..])
  }

  /** Those that it gives back. */
  function Given(uses: seq<Use>): seq<nat>
    decreases |uses|
  {
    if uses == [] then []
    else (if uses[0].Return? then [uses[0].id] else []) + Given(uses[1..])
  }

  function AfterAll(q: Roi, uses: seq<Use>): Roi
    decreases |uses|
  {
    if uses == [] then q
    else AfterAll(if uses[0].Return? then q.Returned(uses[0].id) else q.Taken(), uses[1..])
  }

  /** Identifiers are reused in the order in which they were given back, however many more are given back meanwhile: the
      one that joins `n` waiting ones is handed out by the `n + 1`-st `get` from then on. */
  lemma {:induction false} FirstBackFirstReused(q: Roi, uses: seq<Use>)
    requires |Got(q, uses)| <= |q.relinquished|
    ensures var n := |Got(q, uses)|;
            && Got(q, uses) == q.relinquished[..n]
            && AfterAll(q, uses).relinquished == q.relinquished[n..] + Given(uses)
            && AfterAll(q, uses).counter == q.counter
    decreases |uses|
  {
    if uses != [] {
      var (w, n) := (q.relinquished, |Got(q, uses)|);
      match uses[0] {
        case Take =>
          FirstBackFirstReused(q.Taken(), uses[1..]);
          assert w[..n] == [w[0]] + w[1..][..n - 1] && w[n..] == w[1..][n - 1..];
        case Return(id) =>
          FirstBackFirstReused(q.Returned(id), uses[1..]);
          assert (w + [id])[..n] == w[..n] && (w + [id])[n..] == w[n..] + [id];
      }
    }
  }

  /** The queue as the program holds it. */
  class RoiQueue {
    const limit: nat
    var counter: nat
    var relinquished: seq<nat>

    ghost predicate Valid()
      reads this
    {
      limit > 0 && counter < limit
    }

    ghost function State(): Roi
      reads this
    {
      Roi(limit, counter, relinquished)
    }

    constructor (w: Width)
      ensures Valid() && State() == FreshQueue(w.Limit())
    {
      limit := w.Limit();
      counter := 0;
      relinquished := [];
    }

    method Get() returns (id: nat)
      requires Valid()
      modifies this
      ensures Valid() && id == old(State()).Next() && State() == old(State()).Taken()
    {
      if relinquished != [] {
        id := relinquished[0];
        relinquished := relinquished[1..];
      } else {
        id := counter;
        counter := Increment(counter, limit);
      }
    }

    method Relinquish(id: nat)
      requires Valid()
      modifies this
      ensures Valid() && State() == old(State()).Returned(id)
    {
      relinquished := relinquished + [id];
    }
  }
}
