/** Worker pools that share one index: `mapConcurrent` and the file reader of the guardrail script. */
module WorkerPool {
  import opened Wrappers

  /** What the work on one item comes to. A skipped item leaves its slot empty. */
  datatype Job<+R> = Result(value: R) | Skip | Throw

  /** A worker at its loop head, waiting for an item's work, finished, or ended by an exception. */
  datatype Worker = Ready | Busy(index: nat) | Done | Failed

  /** The reader takes its index before testing it, so its counter runs past the end. */
  datatype Kind = MapPool | ReadPool

  datatype Pool<R> = Pool(nextIndex: nat, results: seq<Option<R>>, workers: seq<Worker>, claims: seq<nat>)

  /** `Math.max(1, Math.min(limit, n))` */
  function Width(limit: int, n: nat): (w: nat)
    ensures 1 <= w && (1 <= limit ==> w <= limit) && (1 <= n ==> w <= n)
    ensures w == 1 || w == limit || w == n
    ensures 1 <= limit && 1 <= n ==> w == limit || w == n
  {
    if limit < 1 || n < 1 then 1 else if limit < n then limit else n
  }

  function Start<R>(limit: int, n: nat): Pool<R> {
    Pool(0, seq(n, _ => None), seq(Width(limit, n), _ => Ready), [])
  }

  predicate Enabled<R>(p: Pool<R>, w: nat) {
    w < |p.workers| && (p.workers[w].Ready? || (p.workers[w].Busy? && p.workers[w].index < |p.results|))
  }

  /** What worker `w` does up to its next suspension: take an item or finish, or store a result. */
  function Next<R>(kind: Kind, jobs: seq<Job<R>>, p: Pool<R>, w: nat): Pool<R>
    requires Enabled(p, w) && |jobs| == |p.results|
  {
    match p.workers[w]
    case Ready =>
      if p.nextIndex < |jobs| then
        p.(workers := p.workers[w := Busy(p.nextIndex)], nextIndex := p.nextIndex + 1,
           claims := p.claims + [p.nextIndex])
      else
        p.(workers := p.workers[w := Done], nextIndex := if kind.ReadPool? then p.nextIndex + 1 else p.nextIndex)
    case Busy(i) =>
      match jobs[i]
      case Result(v) => p.(workers := p.workers[w := Ready], results := p.results[i := Some(v)])
      case Skip => p.(workers := p.workers[w := Ready])
      case Throw => p.(workers := p.workers[w := Failed])
  }

  /** The shared variables of a pool. */
  class SharedPool<R> {
    const kind: Kind
    var nextIndex: nat
    var results: seq<Option<R>>
    var workers: seq<Worker>
    ghost var claims: seq<nat>

    ghost function State(): Pool<R>
      reads this
    {
      Pool(nextIndex, results, workers, claims)
    }

    constructor (k: Kind, limit: int, n: nat)
      ensures State() == Start<R>(limit, n) && kind == k
    {
      kind, nextIndex, claims := k, 0, [];
      results := seq(n, _ => None);
      workers := seq(Width(limit, n), _ => Ready);
    }

    method Advance(jobs: seq<Job<R>>, w: nat)
      requires Enabled(State(), w) && |jobs| == |results|
      modifies this
      ensures State() == Next(kind, jobs, old(State()), w)
    {
      if workers[w].Ready? {
        var index := nextIndex;
        if kind.ReadPool? {
          nextIndex := nextIndex + 1;
        }
        if index >= |jobs| {
          workers := workers[w := Done];
          return;
        }
        nextIndex := index + 1;
        claims := claims + [index];
        workers := workers[w := Busy(index)];
      } else {
        var index := workers[w].index;
        match jobs[index]
        case Result(v) =>
          results := results[index := Some(v)];
          workers := workers[w := Ready];
        case Skip => workers := workers[w := Ready];
        case Throw => workers := workers[w := Failed];
      }
    }
  }

  // ---------- every interleaving ----------

  /** The pool after a schedule; the schedule names the worker of each step. */
  ghost predicate Reaches<R(!new)>(kind: Kind, jobs: seq<Job<R>>, limit: int, schedule: seq<nat>, p: Pool<R>)
    decreases |schedule|
  {
    if schedule == [] then p == Start<R>(limit, |jobs|)
    else
      var init, w := schedule[..|schedule| - 1], schedule[|schedule| - 1];
      exists q: Pool<R> :: Reaches(kind, jobs, limit, init, q) && |q.results| == |jobs| && Enabled(q, w)
        && p == Next(kind, jobs, q, w)
  }

  function Slot<R>(j: Job<R>): Option<R> {
    if j.Result? then Some(j.value) else None
  }

  ghost predicate InHand(workers: seq<Worker>, i: nat) {
    exists w :: 0 <= w < |workers| && workers[w] == Busy(i)
  }

  ghost predicate Inv<R>(kind: Kind, jobs: seq<Job<R>>, limit: int, p: Pool<R>) {
    var n := |jobs|;
    && |p.results| == n && |p.workers| == Width(limit, n)
    && |p.claims| == (if p.nextIndex < n then p.nextIndex else n)
    && (forall i :: 0 <= i < |p.claims| ==> p.claims[i] == i)
    && (forall w :: 0 <= w < |p.workers| && p.workers[w].Busy? ==> p.workers[w].index < |p.claims|)
    && (forall v, w :: 0 <= v < w < |p.workers| && p.workers[v].Busy? && p.workers[w].Busy? ==>
          p.workers[v].index != p.workers[w].index)
    && (forall w :: 0 <= w < |p.workers| && p.workers[w].Done? ==> n <= p.nextIndex)
    && (forall w :: 0 <= w < |p.workers| && p.workers[w].Failed? ==> Throw in jobs)
    && (forall i :: 0 <= i < n ==>
          p.results[i] == if i < |p.claims| && !InHand(p.workers, i) then Slot(jobs[i]) else None)
    && (forall i :: 0 <= i < |p.claims| && jobs[i].Throw? ==> InHand(p.workers, i) || AnyFailed(p.workers))
  }

  ghost predicate AnyFailed(workers: seq<Worker>) {
    exists w :: 0 <= w < |workers| && workers[w].Failed?
  }

  lemma FailedStays(workers: seq<Worker>, w: nat, to: Worker)
    requires w < |workers| && AnyFailed(workers) && !workers[w].Failed?
    ensures AnyFailed(workers[w := to])
  {
    var v :| 0 <= v < |workers| && workers[v].Failed?;
    assert workers[w := to][v].Failed?;
  }

  lemma StartInv<R>(kind: Kind, jobs: seq<Job<R>>, limit: int)
    ensures Inv(kind, jobs, limit, Start<R>(limit, |jobs|))
  {
  }

  /** A worker that changes hands affects only the item it held or takes. */
  lemma HandChange(workers: seq<Worker>, w: nat, to: Worker, i: nat)
    requires w < |workers|
    requires forall u, v :: 0 <= u < v < |workers| && workers[u].Busy? && workers[v].Busy? ==>
             workers[u].index != workers[v].index
    requires to.Busy? ==> !InHand(workers, to.index)
    ensures InHand(workers[w := to], i) <==> (InHand(workers, i) && workers[w] != Busy(i)) || to == Busy(i)
  {
    var after := workers[w := to];
    if InHand(workers, i) && workers[w] != Busy(i) {
      var v :| 0 <= v < |workers| && workers[v] == Busy(i);
      assert after[v] == Busy(i);
    }
    if to == Busy(i) {
      assert after[w] == Busy(i);
    }
    if InHand(after, i) && to != Busy(i) {
      var v :| 0 <= v < |after| && after[v] == Busy(i);
      assert workers[v] == Busy(i);
    }
  }

  lemma ClaimKeeps<R>(kind: Kind, jobs: seq<Job<R>>, limit: int, p: Pool<R>, w: nat)
    requires Inv(kind, jobs, limit, p) && Enabled(p, w) && p.workers[w].Ready? && p.nextIndex < |jobs|
    ensures Inv(kind, jobs, limit, Next(kind, jobs, p, w))
  {
    var q := Next(kind, jobs, p, w);
    forall i | 0 <= i < |jobs|
      ensures q.results[i] == if i < |q.claims| && !InHand(q.workers, i) then Slot(jobs[i]) else None
    {
      HandChange(p.workers, w, Busy(p.nextIndex), i);
    }
    forall i | 0 <= i < |q.claims| && jobs[i].Throw? ensures InHand(q.workers, i) || AnyFailed(q.workers) {
      HandChange(p.workers, w, Busy(p.nextIndex), i);
      if AnyFailed(p.workers) { FailedStays(p.workers, w, Busy(p.nextIndex)); }
    }
  }

  lemma FinishKeeps<R>(kind: Kind, jobs: seq<Job<R>>, limit: int, p: Pool<R>, w: nat)
    requires Inv(kind, jobs, limit, p) && Enabled(p, w) && p.workers[w].Ready? && p.nextIndex >= |jobs|
    ensures Inv(kind, jobs, limit, Next(kind, jobs, p, w))
  {
    var q := Next(kind, jobs, p, w);
    forall i | 0 <= i < |jobs|
      ensures q.results[i] == if i < |q.claims| && !InHand(q.workers, i) then Slot(jobs[i]) else None
    {
      HandChange(p.workers, w, Done, i);
    }
    forall i | 0 <= i < |q.claims| && jobs[i].Throw? ensures InHand(q.workers, i) || AnyFailed(q.workers) {
      HandChange(p.workers, w, Done, i);
      if AnyFailed(p.workers) { FailedStays(p.workers, w, Done); }
    }
  }

  lemma StoreKeeps<R>(kind: Kind, jobs: seq<Job<R>>, limit: int, p: Pool<R>, w: nat)
    requires Inv(kind, jobs, limit, p) && Enabled(p, w) && p.workers[w].Busy?
    ensures Inv(kind, jobs, limit, Next(kind, jobs, p, w))
  {
    var q := Next(kind, jobs, p, w);
    var own := p.workers[w].index;
    assert InHand(p.workers, own);
    assert jobs[own].Throw? ==> Throw in jobs;
    forall i | 0 <= i < |jobs|
      ensures q.results[i] == if i < |q.claims| && !InHand(q.workers, i) then Slot(jobs[i]) else None
    {
      HandChange(p.workers, w, q.workers[w], i);
    }
    forall i | 0 <= i < |q.claims| && jobs[i].Throw? ensures InHand(q.workers, i) || AnyFailed(q.workers) {
      HandChange(p.workers, w, q.workers[w], i);
      if AnyFailed(p.workers) { FailedStays(p.workers, w, q.workers[w]); }
      if i == own { assert q.workers[w].Failed?; }
    }
  }

  lemma {:induction false} RunKeeps<R(!new)>(kind: Kind, jobs: seq<Job<R>>, limit: int, schedule: seq<nat>, p: Pool<R>)
    requires Reaches(kind, jobs, limit, schedule, p)
    ensures Inv(kind, jobs, limit, p)
    decreases |schedule|
  {
    if schedule == [] {
      StartInv(kind, jobs, limit);
    } else {
      var init, w := schedule[..|schedule| - 1], schedule[|schedule| - 1];
      var q: Pool<R> :|
        Reaches(kind, jobs, limit, init, q) && |q.results| == |jobs| && Enabled(q, w) && p == Next(kind, jobs, q, w);
      RunKeeps(kind, jobs, limit, init, q);
      if q.workers[w].Busy? {
        StoreKeeps(kind, jobs, limit, q, w);
      } else if q.nextIndex < |jobs| {
        ClaimKeeps(kind, jobs, limit, q, w);
      } else {
        FinishKeeps(kind, jobs, limit, q, w);
      }
    }
  }

  // ---------- termination ----------

  function Weight(workers: seq<Worker>): nat {
    if workers == [] then 0
    else Weight(workers[..|workers| - 1]) + match workers[|workers| - 1] case Ready => 1 case Busy(_) => 2 case _ => 0
  }

  /** Two steps for every item not yet taken, two for one in hand, one for a worker at its loop head. */
  function StepsLeft<R>(n: nat, p: Pool<R>): nat {
    Weight(p.workers) + 2 * if p.nextIndex < n then n - p.nextIndex else 0
  }

  lemma {:induction false} WeightUpdate(workers: seq<Worker>, w: nat, to: Worker)
    requires w < |workers|
    ensures Weight(workers[w := to]) + Weight([workers[w]]) == Weight(workers) + Weight([to])
  {
    var n := |workers| - 1;
    if w < n {
      assert workers[w := to][..n] == workers[..n][w := to];
      WeightUpdate(workers[..n], w, to);
    } else {
      assert workers[w := to][..n] == workers[..n];
    }
    assert [to][..0] == [] && [workers[w]][..0] == [];
  }

  lemma {:induction false} WeightStart(k: nat)
    ensures Weight(seq(k, _ => Ready)) == k
  {
    if k > 0 {
      assert seq(k, _ => Ready)[..k - 1] == seq(k - 1, _ => Ready);
      WeightStart(k - 1);
    }
  }

  lemma {:induction false} WeightDone(workers: seq<Worker>)
    ensures Weight(workers) == 0 <==> forall w :: 0 <= w < |workers| ==> workers[w].Done? || workers[w].Failed?
  {
    if workers != [] {
      var n := |workers| - 1;
      WeightDone(workers[..n]);
      assert forall w :: 0 <= w < n ==> workers[..n][w] == workers[w];
    }
  }

  lemma StepCounts<R>(kind: Kind, jobs: seq<Job<R>>, limit: int, p: Pool<R>, w: nat)
    requires Inv(kind, jobs, limit, p) && Enabled(p, w)
    ensures StepsLeft(|jobs|, Next(kind, jobs, p, w)) < StepsLeft(|jobs|, p)
    ensures Throw !in jobs ==> StepsLeft(|jobs|, Next(kind, jobs, p, w)) == StepsLeft(|jobs|, p) - 1
  {
    var q := Next(kind, jobs, p, w);
    WeightUpdate(p.workers, w, q.workers[w]);
    assert [p.workers[w]][..0] == [] && [q.workers[w]][..0] == [];
    assert p.workers[w].Busy? ==> jobs[p.workers[w].index] in jobs;
  }

  lemma {:induction false} RunCounts<R(!new)>(kind: Kind, jobs: seq<Job<R>>, limit: int, schedule: seq<nat>, p: Pool<R>)
    requires Reaches(kind, jobs, limit, schedule, p)
    ensures |schedule| + StepsLeft(|jobs|, p) <= 2 * |jobs| + Width(limit, |jobs|)
    ensures Throw !in jobs ==> |schedule| + StepsLeft(|jobs|, p) == 2 * |jobs| + Width(limit, |jobs|)
    decreases |schedule|
  {
    if schedule == [] {
      WeightStart(Width(limit, |jobs|));
    } else {
      var init, w := schedule[..|schedule| - 1], schedule[|schedule| - 1];
      var q: Pool<R> :|
        Reaches(kind, jobs, limit, init, q) && |q.results| == |jobs| && Enabled(q, w) && p == Next(kind, jobs, q, w);
      RunCounts(kind, jobs, limit, init, q);
      RunKeeps(kind, jobs, limit, init, q);
      StepCounts(kind, jobs, limit, q, w);
    }
  }

  // ---------- main results ----------

  ghost predicate Finished<R>(p: Pool<R>) {
    forall w :: 0 <= w < |p.workers| ==> p.workers[w].Done? || p.workers[w].Failed?
  }

  /** No interleaving runs for more than 2n + workers steps, and none gets stuck before every worker is through. */
  lemma PoolTerminates<R(!new)>(kind: Kind, jobs: seq<Job<R>>, limit: int, schedule: seq<nat>, p: Pool<R>)
    requires Reaches(kind, jobs, limit, schedule, p)
    ensures |schedule| <= 2 * |jobs| + Width(limit, |jobs|)
    ensures Finished(p) <==> !exists w: nat :: Enabled(p, w)
    ensures Finished(p) && Throw !in jobs ==> |schedule| == 2 * |jobs| + Width(limit, |jobs|)
  {
    RunCounts(kind, jobs, limit, schedule, p);
    RunKeeps(kind, jobs, limit, schedule, p);
    WeightDone(p.workers);
    if !Finished(p) {
      var w :| 0 <= w < |p.workers| && !(p.workers[w].Done? || p.workers[w].Failed?);
      assert Enabled(p, w);
    } else if Throw !in jobs {
      assert p.workers[0].Done?;
    }
  }

  /** The workers that hold an item. */
  function InFlight(workers: seq<Worker>): set<nat> {
    set w | 0 <= w < |workers| && workers[w].Busy?
  }

  lemma {:induction false} InFlightBound(workers: seq<Worker>)
    ensures |InFlight(workers)| <= |workers|
  {
    if workers != [] {
      var n := |workers| - 1;
      InFlightBound(workers[..n]);
      assert InFlight(workers) == InFlight(workers[..n]) + if workers[n].Busy? then {n} else {};
    }
  }

  /** At every moment each index up to the counter has been taken exactly once, in order, and at most the
      limit are in hand, each by one worker. */
  lemma ClaimedOnce<R(!new)>(kind: Kind, jobs: seq<Job<R>>, limit: int, schedule: seq<nat>, p: Pool<R>)
    requires Reaches(kind, jobs, limit, schedule, p)
    ensures forall i :: 0 <= i < |p.claims| ==> p.claims[i] == i
    ensures |p.claims| == if p.nextIndex < |jobs| then p.nextIndex else |jobs|
    ensures |InFlight(p.workers)| <= Width(limit, |jobs|)
    ensures forall v, w :: 0 <= v < w < |p.workers| && p.workers[v].Busy? && p.workers[w].Busy? ==>
              p.workers[v].index != p.workers[w].index
  {
    RunKeeps(kind, jobs, limit, schedule, p);
    InFlightBound(p.workers);
  }

  /** The sequential reference: each item's result in its place. */
  function Sequential<R>(jobs: seq<Job<R>>): seq<Option<R>> {
    seq(|jobs|, i requires 0 <= i < |jobs| => Slot(jobs[i]))
  }

  /** If no item throws, every complete interleaving leaves exactly the sequential results; the pool fails iff
      some item throws. */
  lemma PoolRefinesMap<R(!new)>(kind: Kind, jobs: seq<Job<R>>, limit: int, schedule: seq<nat>, p: Pool<R>)
    requires Reaches(kind, jobs, limit, schedule, p) && Finished(p)
    ensures Throw !in jobs ==> p.results == Sequential(jobs) && |p.claims| == |jobs|
    ensures AnyFailed(p.workers) <==> Throw in jobs
  {
    RunKeeps(kind, jobs, limit, schedule, p);
    if !AnyFailed(p.workers) {
      assert p.workers[0].Done?;
      assert forall i :: 0 <= i < |jobs| ==> !InHand(p.workers, i) && !jobs[i].Throw?;
    }
    if Throw !in jobs {
      assert p.workers[0].Done?;
      forall i | 0 <= i < |jobs| ensures p.results[i] == Slot(jobs[i]) {
        assert !InHand(p.workers, i);
      }
    }
  }

  /** `output.filter(entry => entry !== undefined)` */
  function Collect<R>(slots: seq<Option<R>>): seq<R> {
    if slots == [] then []
    else Collect(slots[..|slots| - 1]) + if slots[|slots| - 1].Some? then [slots[|slots| - 1].value] else []
  }

  /** What a plain loop over the files would return. */
  function ReadInOrder<R>(jobs: seq<Job<R>>): seq<R> {
    if jobs == [] then []
    else ReadInOrder(jobs[..|jobs| - 1]) + if jobs[|jobs| - 1].Result? then [jobs[|jobs| - 1].value] else []
  }

  lemma {:induction false} CollectSequential<R>(jobs: seq<Job<R>>)
    ensures Collect(Sequential(jobs)) == ReadInOrder(jobs)
  {
    if jobs != [] {
      var n := |jobs| - 1;
      CollectSequential(jobs[..n]);
      assert Sequential(jobs)[..n] == Sequential(jobs[..n]);
    }
  }

  /** The concurrent reader returns the readable files in input order, as a plain loop would. */
  lemma ReaderRefinesLoop<R(!new)>(jobs: seq<Job<R>>, schedule: seq<nat>, p: Pool<R>)
    requires Reaches(ReadPool, jobs, 24, schedule, p) && Finished(p) && Throw !in jobs
    ensures Collect(p.results) == ReadInOrder(jobs)
  {
    PoolRefinesMap(ReadPool, jobs, 24, schedule, p);
    CollectSequential(jobs);
  }
}
