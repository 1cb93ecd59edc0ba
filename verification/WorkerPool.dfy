/**
 `forEachConcurrently`: workers share the counter `next`. A step is what one
 worker does between two awaits, so every interleaving of the workers is a
 sequence of steps.
 */
module WorkerPool {
  import opened Prelude

  /**
   Busy: awaiting the task for `index`. Between: that task has resolved and the
   worker has yet to resume. Returned: it found the list used up. Rejected: its
   task failed.
   */
  datatype Worker = Busy(index: nat) | Between | Returned | Rejected(index: nat)

  /** `done` lists the indices whose task resolved, in the order they did. */
  datatype Pool = Pool(count: nat, next: nat, workers: seq<Worker>, done: seq<nat>) {
    predicate AllReturned() {
      forall k :: 0 <= k < |workers| ==> workers[k].Returned?
    }

    predicate AnyRejected() {
      exists k :: 0 <= k < |workers| && workers[k].Rejected?
    }
  }

  /** Each worker claims its first index before anything is awaited. */
  function Start(count: nat, limit: nat): Pool {
    var size := Min(limit, count);
    Pool(count, size, FirstClaims(size), [])
  }

  function FirstClaims(size: nat): (workers: seq<Worker>)
    ensures |workers| == size && forall k :: 0 <= k < size ==> workers[k] == Busy(k)
  {
    if size == 0 then [] else FirstClaims(size - 1) + [Busy(size - 1)]
  }

  datatype Event = TaskDone(worker: nat) | TaskFailed(worker: nat) | TakeNext(worker: nat)

  predicate Enabled(p: Pool, e: Event) {
    && e.worker < |p.workers|
    && (if e.TakeNext? then p.workers[e.worker].Between? else p.workers[e.worker].Busy?)
  }

  function Step(p: Pool, e: Event): Pool
    requires Enabled(p, e)
  {
    var worker := p.workers[e.worker];
    match e
    case TaskDone(k) => p.(workers := p.workers[k := Between], done := p.done + [worker.index])
    case TaskFailed(k) => p.(workers := p.workers[k := Rejected(worker.index)])
    case TakeNext(k) =>
      p.(next := p.next + 1, workers := p.workers[k := if p.next >= p.count then Returned else Busy(p.next)])
  }

  /** The state after a sequence of events, when each was possible in turn. */
  function Run(count: nat, limit: nat, events: seq<Event>): Option<Pool> {
    if events == [] then Some(Start(count, limit))
    else
      var last := events[|events| - 1];
      match Run(count, limit, events[..|events| - 1])
      case None => None
      case Some(p) => if Enabled(p, last) then Some(Step(p, last)) else None
  }

  // ----- What every step keeps -----

  ghost predicate Holds(w: Worker, i: nat) {
    (w.Busy? || w.Rejected?) && w.index == i
  }

  /** How many workers hold index `i`, running or failed. */
  ghost function Holders(workers: seq<Worker>, i: nat): nat {
    if workers == [] then 0
    else Holders(workers[..|workers| - 1], i) + if Holds(workers[|workers| - 1], i) then 1 else 0
  }

  /** How many workers hold some index. */
  ghost function Engaged(workers: seq<Worker>): nat {
    if workers == [] then 0
    else Engaged(workers[..|workers| - 1]) + Has(workers[|workers| - 1])
  }

  ghost function Has(w: Worker): nat {
    if w.Busy? || w.Rejected? then 1 else 0
  }

  ghost function Retired(workers: seq<Worker>): nat {
    if workers == [] then 0
    else Retired(workers[..|workers| - 1]) + if workers[|workers| - 1].Returned? then 1 else 0
  }

  /** Steps the workers can still take on their own: two per running task. */
  ghost function Load(workers: seq<Worker>): nat {
    if workers == [] then 0
    else Load(workers[..|workers| - 1]) + Weight(workers[|workers| - 1])
  }

  ghost function Weight(w: Worker): nat {
    match w
    case Busy(_) => 2
    case Between => 1
    case _ => 0
  }

  /** How often index `i` was started: it is finished or held, and never both. */
  ghost function Started(p: Pool, i: nat): nat {
    multiset(p.done)[i] + Holders(p.workers, i)
  }

  /**
   Conservation: the indices below min(next, count) were started once and the
   others not at all, and the counter's overrun past the list is the number of
   workers that returned.
   */
  ghost predicate Invariant(p: Pool, limit: nat) {
    && |p.workers| == Min(limit, p.count) <= p.next
    && (forall i: nat :: Started(p, i) == if i < Min(p.next, p.count) then 1 else 0)
    && |p.done| + Engaged(p.workers) == Min(p.next, p.count)
    && p.next == Min(p.next, p.count) + Retired(p.workers)
  }

  lemma {:induction false} UpdateHolders(workers: seq<Worker>, k: nat, w: Worker, i: nat)
    requires k < |workers|
    ensures Holders(workers[k := w], i) + (if Holds(workers[k], i) then 1 else 0) ==
            Holders(workers, i) + if Holds(w, i) then 1 else 0
  {
    var n := |workers| - 1;
    if k == n {
      assert workers[k := w][..n] == workers[..n];
    } else {
      UpdateHolders(workers[..n], k, w, i);
      assert workers[k := w][..n] == workers[..n][k := w];
    }
  }

  lemma {:induction false} UpdateCounts(workers: seq<Worker>, k: nat, w: Worker)
    requires k < |workers|
    ensures Engaged(workers[k := w]) + Has(workers[k]) == Engaged(workers) + Has(w)
    ensures Retired(workers[k := w]) + (if workers[k].Returned? then 1 else 0) ==
            Retired(workers) + if w.Returned? then 1 else 0
    ensures Load(workers[k := w]) + Weight(workers[k]) == Load(workers) + Weight(w)
  {
    var n := |workers| - 1;
    if k == n {
      assert workers[k := w][..n] == workers[..n];
    } else {
      UpdateCounts(workers[..n], k, w);
      assert workers[k := w][..n] == workers[..n][k := w];
    }
  }

  lemma {:induction false} ClaimedInOrder(workers: seq<Worker>, i: nat)
    requires forall k :: 0 <= k < |workers| ==> workers[k] == Busy(k)
    ensures Holders(workers, i) == if i < |workers| then 1 else 0
    ensures Engaged(workers) == |workers| && Retired(workers) == 0
  {
    if workers != [] {
      ClaimedInOrder(workers[..|workers| - 1], i);
    }
  }

  lemma StartInvariant(count: nat, limit: nat)
    ensures Invariant(Start(count, limit), limit)
  {
    var p := Start(count, limit);
    forall i: nat ensures Started(p, i) == if i < Min(p.next, count) then 1 else 0 {
      ClaimedInOrder(p.workers, i);
    }
    ClaimedInOrder(p.workers, 0);
  }

  lemma StepStarts(p: Pool, limit: nat, e: Event, i: nat)
    requires Invariant(p, limit) && Enabled(p, e)
    ensures Started(Step(p, e), i) ==
            Started(p, i) + if e.TakeNext? && p.next < p.count && i == p.next then 1 else 0
  {
    var q := Step(p, e);
    UpdateHolders(p.workers, e.worker, q.workers[e.worker], i);
    if e.TaskDone? {
      assert multiset(q.done) == multiset(p.done) + multiset{p.workers[e.worker].index};
    }
  }

  lemma StepInvariant(p: Pool, limit: nat, e: Event)
    requires Invariant(p, limit) && Enabled(p, e)
    ensures Invariant(Step(p, e), limit)
  {
    var q := Step(p, e);
    UpdateCounts(p.workers, e.worker, q.workers[e.worker]);
    forall i: nat ensures Started(q, i) == if i < Min(q.next, q.count) then 1 else 0 {
      StepStarts(p, limit, e, i);
    }
  }

  lemma {:induction false} RunInvariant(count: nat, limit: nat, events: seq<Event>)
    requires Run(count, limit, events).Some?
    ensures Invariant(Run(count, limit, events).value, limit)
    ensures Run(count, limit, events).value.count == count
  {
    if events == [] {
      StartInvariant(count, limit);
    } else {
      RunInvariant(count, limit, events[..|events| - 1]);
      StepInvariant(Run(count, limit, events[..|events| - 1]).value, limit, events[|events| - 1]);
    }
  }

  // ----- What that means for the list -----

  lemma {:induction false} HoldersCount(workers: seq<Worker>, k: nat, i: nat)
    requires k < |workers| && Holds(workers[k], i)
    ensures Holders(workers, i) >= 1
    ensures forall j :: 0 <= j < k && Holds(workers[j], i) ==> Holders(workers, i) >= 2
  {
    var n := |workers| - 1;
    if k < n {
      HoldersCount(workers[..n], k, i);
    }
    forall j | 0 <= j < k && Holds(workers[j], i)
      ensures Holders(workers, i) >= 2
    {
      if k == n {
        HoldersCount(workers[..n], j, i);
      }
    }
  }

  lemma {:induction false} SomeHolder(workers: seq<Worker>, i: nat) returns (k: nat)
    requires Holders(workers, i) > 0
    ensures k < |workers| && Holds(workers[k], i)
  {
    k := |workers| - 1;
    if !Holds(workers[k], i) {
      k := SomeHolder(workers[..k], i);
    }
  }

  lemma {:induction false} AllRetired(workers: seq<Worker>, i: nat)
    requires forall k :: 0 <= k < |workers| ==> workers[k].Returned?
    ensures Retired(workers) == |workers| && Engaged(workers) == 0 && Holders(workers, i) == 0
  {
    if workers != [] {
      AllRetired(workers[..|workers| - 1], i);
    }
  }

  /**
   In every state of every run: the indices started are exactly those below
   min(next, count), none is finished twice or both finished and held, no two
   workers hold the same one, and at most min(limit, count) are in flight.
   */
  lemma NothingRunsTwice(count: nat, limit: nat, events: seq<Event>, i: nat)
    requires Run(count, limit, events).Some?
    ensures var p := Run(count, limit, events).value;
            && |p.workers| == Min(limit, count)
            && (i < Min(p.next, count) <==>
                i in p.done || exists k :: 0 <= k < |p.workers| && Holds(p.workers[k], i))
            && multiset(p.done)[i] <= 1
            && (i in p.done ==> forall k :: 0 <= k < |p.workers| ==> !Holds(p.workers[k], i))
            && (forall j, k :: 0 <= j < k < |p.workers| ==> !(Holds(p.workers[j], i) && Holds(p.workers[k], i)))
  {
    var p := Run(count, limit, events).value;
    RunInvariant(count, limit, events);
    assert Started(p, i) == if i < Min(p.next, count) then 1 else 0;
    assert i in p.done <==> multiset(p.done)[i] > 0;
    forall k | 0 <= k < |p.workers| && Holds(p.workers[k], i)
      ensures Holders(p.workers, i) >= 1
      ensures forall j :: 0 <= j < k && Holds(p.workers[j], i) ==> Holders(p.workers, i) >= 2
    {
      HoldersCount(p.workers, k, i);
    }
    if Holders(p.workers, i) > 0 {
      var k := SomeHolder(p.workers, i);
    }
  }

  /** When all workers return, every item ran exactly once and the counter overran by one per worker. */
  lemma AllReturnedMeansAllDone(p: Pool, limit: nat)
    requires Invariant(p, limit) && p.AllReturned() && limit >= 1
    ensures p.next == p.count + Min(limit, p.count)
    ensures |p.done| == p.count
    ensures forall i: nat :: multiset(p.done)[i] == if i < p.count then 1 else 0
    ensures forall i :: 0 <= i < p.count ==> i in p.done
  {
    AllRetired(p.workers, 0);
    forall i: nat
      ensures multiset(p.done)[i] == if i < p.count then 1 else 0
    {
      AllRetired(p.workers, i);
      assert Started(p, i) == if i < Min(p.next, p.count) then 1 else 0;
    }
    forall i | 0 <= i < p.count ensures i in p.done {
      assert multiset(p.done)[i] == 1;
    }
  }

  /** Unless every worker has returned or one has failed, some worker is running or about to go on. */
  lemma SomeoneCanMove(p: Pool) returns (k: nat)
    requires !p.AllReturned() && !p.AnyRejected()
    ensures k < |p.workers| && (p.workers[k].Busy? || p.workers[k].Between?)
  {
    k :| k < |p.workers| && !p.workers[k].Returned?;
    assert !p.workers[k].Rejected?;
  }

  ghost function Potential(p: Pool): nat {
    Load(p.workers) + 2 * (p.count - Min(p.next, p.count))
  }

  lemma StepUsesPotential(p: Pool, e: Event)
    requires Enabled(p, e)
    ensures Potential(Step(p, e)) < Potential(p)
  {
    UpdateCounts(p.workers, e.worker, Step(p, e).workers[e.worker]);
  }
}
