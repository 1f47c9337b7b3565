/**
 The bounded pool of asynchronous workers. Workers share one counter; each claims the next item,
 awaits the call for it, stores the result at the item's index, and repeats. A step is what a
 worker does between two awaits, and steps of different workers interleave freely.
 */
module WorkerPool {
  import opened Wrappers

  /** A worker that has not run yet, awaits its call for an item, has left its loop, or was thrown out of
      it because its call rejected. */
  datatype Worker = NotStarted | Awaiting(index: nat) | Done | Failed(index: nat)

  /** `rejection` is the first one among the workers, with which the pool as a whole rejects. */
  datatype Pool<R, E> = Pool(
    nextIndex: nat,
    results: seq<Option<R>>,
    workers: seq<Worker>,
    calls: seq<nat>,
    rejection: Option<E>)

  /** The number of workers: negative lengths count as zero. */
  function Width(concurrency: int, n: nat): nat {
    var k := if concurrency <= n then concurrency else n;
    if k < 0 then 0 else k
  }

  function Initial<R, E>(n: nat, concurrency: int): Pool<R, E> {
    Pool(0, seq(n, _ => None), seq(Width(concurrency, n), _ => NotStarted), [], None)
  }

  /** The head of a worker's loop: claim the next item and call the function on it, or leave. */
  function Claim<R, E>(p: Pool<R, E>, w: nat): Pool<R, E>
    requires w < |p.workers|
  {
    if p.nextIndex < |p.results| then
      p.(workers := p.workers[w := Awaiting(p.nextIndex)],
         nextIndex := p.nextIndex + 1,
         calls := p.calls + [p.nextIndex])
    else p.(workers := p.workers[w := Done])
  }

  predicate HasEnded(w: Worker) {
    w.Done? || w.Failed?
  }

  predicate Enabled<R, E>(p: Pool<R, E>, w: nat) {
    w < |p.workers| && !HasEnded(p.workers[w])
  }

  predicate IndicesFit<R, E>(p: Pool<R, E>) {
    forall w :: 0 <= w < |p.workers| && p.workers[w].Awaiting? ==> p.workers[w].index < |p.results|
  }

  /** Every worker has left its loop. */
  predicate Finished<R, E>(p: Pool<R, E>) {
    forall w :: 0 <= w < |p.workers| ==> HasEnded(p.workers[w])
  }

  /** Starts worker `w`, or resumes it with the outcome of its call. */
  function Step<T, R, E>(p: Pool<R, E>, items: seq<T>, fn: T -> Result<R, E>, w: nat): Pool<R, E>
    requires |items| == |p.results| && IndicesFit(p) && Enabled(p, w)
  {
    match p.workers[w]
    case NotStarted => Claim(p, w)
    case Awaiting(index) =>
      (match fn(items[index])
       case Ok(value) => Claim(p.(results := p.results[index := Some(value)]), w)
       case Err(error) =>
         p.(workers := p.workers[w := Failed(index)],
            rejection := if p.rejection.Some? then p.rejection else Some(error)))
    case _ => p
  }

  ghost predicate InFlight<R, E>(p: Pool<R, E>, i: nat) {
    exists w :: 0 <= w < |p.workers| && p.workers[w] == Awaiting(i)
  }

  ghost predicate HasFailed<R, E>(p: Pool<R, E>, i: nat) {
    exists w :: 0 <= w < |p.workers| && p.workers[w] == Failed(i)
  }

  /** The function has been called once for each index below the counter, in order, and each of these
      indices is awaited by exactly one worker, has its result stored, or has failed. */
  ghost predicate ClaimsInv<T, R, E>(p: Pool<R, E>, items: seq<T>, fn: T -> Result<R, E>) {
    && |p.results| == |items| && p.nextIndex <= |items| && IndicesFit(p)
    && |p.calls| == p.nextIndex && (forall i :: 0 <= i < p.nextIndex ==> p.calls[i] == i)
    && (forall i: nat :: InFlight(p, i) ==> i < p.nextIndex && p.results[i] == None)
    && (forall u, w :: 0 <= u < w < |p.workers| && p.workers[u].Awaiting? ==> p.workers[u] != p.workers[w])
    && (forall i :: 0 <= i < p.nextIndex && !InFlight(p, i) ==>
          match fn(items[i])
          case Ok(value) => p.results[i] == Some(value)
          case Err(_) => p.results[i] == None && HasFailed(p, i))
    && (forall i :: p.nextIndex <= i < |items| ==> p.results[i] == None)
  }

  /** A worker leaves its loop only when every index is claimed or its call rejects; the pool has the
      error of some failed call exactly if there is one. */
  ghost predicate EndsInv<T, R, E>(p: Pool<R, E>, items: seq<T>, fn: T -> Result<R, E>)
    requires p.nextIndex <= |items|
  {
    && (forall w :: 0 <= w < |p.workers| && p.workers[w] == Done ==> p.nextIndex == |items|)
    && (forall i: nat :: HasFailed(p, i) ==> i < p.nextIndex && fn(items[i]).Err?)
    && (p.rejection.Some? <==> exists i: nat :: HasFailed(p, i))
    && (p.rejection.Some? ==>
          exists i: nat :: HasFailed(p, i) && i < p.nextIndex && fn(items[i]) == Err(p.rejection.value))
  }

  ghost predicate Inv<T, R, E>(p: Pool<R, E>, items: seq<T>, fn: T -> Result<R, E>) {
    ClaimsInv(p, items, fn) && EndsInv(p, items, fn)
  }

  lemma InitiallyInv<T, R, E>(items: seq<T>, concurrency: int, fn: T -> Result<R, E>)
    ensures Inv(Initial(|items|, concurrency), items, fn)
  {
  }

  /** Worker `w` gives up its own index and takes the next one, unless its call rejects. */
  ghost predicate Claims<T, R, E>(p: Pool<R, E>, items: seq<T>, fn: T -> Result<R, E>, w: nat)
    requires |items| == |p.results| && IndicesFit(p) && Enabled(p, w)
  {
    p.workers[w].NotStarted? || fn(items[p.workers[w].index]).Ok?
  }

  lemma StepMovesCalls<T, R, E>(p: Pool<R, E>, items: seq<T>, fn: T -> Result<R, E>, w: nat)
    requires ClaimsInv(p, items, fn) && Enabled(p, w)
    ensures var q := Step(p, items, fn, w);
            forall i: nat :: InFlight(q, i) <==>
              || (InFlight(p, i) && p.workers[w] != Awaiting(i))
              || (i == p.nextIndex && i < |items| && Claims(p, items, fn, w))
    ensures var q := Step(p, items, fn, w);
            forall i: nat :: HasFailed(q, i) <==>
              HasFailed(p, i) || (p.workers[w] == Awaiting(i) && !Claims(p, items, fn, w))
  {
    var q := Step(p, items, fn, w);
    assert forall u :: 0 <= u < |p.workers| && u != w ==> q.workers[u] == p.workers[u];
    forall i: nat
      ensures InFlight(q, i) <==>
                || (InFlight(p, i) && p.workers[w] != Awaiting(i))
                || (i == p.nextIndex && i < |items| && Claims(p, items, fn, w))
    {
      if InFlight(p, i) && p.workers[w] != Awaiting(i) {
        var u :| 0 <= u < |p.workers| && p.workers[u] == Awaiting(i);
        assert q.workers[u] == Awaiting(i);
      }
      if InFlight(q, i) {
        var u :| 0 <= u < |q.workers| && q.workers[u] == Awaiting(i);
        assert u != w ==> p.workers[u] == Awaiting(i);
      }
      if i == p.nextIndex && i < |items| && Claims(p, items, fn, w) {
        assert q.workers[w] == Awaiting(i);
      }
    }
    forall i: nat
      ensures HasFailed(q, i) <==> HasFailed(p, i) || (p.workers[w] == Awaiting(i) && !Claims(p, items, fn, w))
    {
      if HasFailed(p, i) {
        var u :| 0 <= u < |p.workers| && p.workers[u] == Failed(i);
        assert q.workers[u] == Failed(i);
      }
      if HasFailed(q, i) {
        var u :| 0 <= u < |q.workers| && q.workers[u] == Failed(i);
        assert u != w ==> p.workers[u] == Failed(i);
      }
      if p.workers[w] == Awaiting(i) && !Claims(p, items, fn, w) {
        assert q.workers[w] == Failed(i);
      }
    }
  }

  lemma StepKeepsClaims<T, R, E>(p: Pool<R, E>, items: seq<T>, fn: T -> Result<R, E>, w: nat)
    requires ClaimsInv(p, items, fn) && Enabled(p, w)
    ensures ClaimsInv(Step(p, items, fn, w), items, fn)
  {
    StepMovesCalls(p, items, fn, w);
    var q := Step(p, items, fn, w);
    assert p.workers[w].Awaiting? ==> InFlight(p, p.workers[w].index);
    forall u, v | 0 <= u < v < |q.workers| && q.workers[u].Awaiting?
      ensures q.workers[u] != q.workers[v]
    {
      if u != w {
        assert InFlight(p, q.workers[u].index);
      }
      if v != w && q.workers[v].Awaiting? {
        assert InFlight(p, q.workers[v].index);
      }
    }
  }

  lemma StepKeepsEnds<T, R, E>(p: Pool<R, E>, items: seq<T>, fn: T -> Result<R, E>, w: nat)
    requires Inv(p, items, fn) && Enabled(p, w)
    ensures Step(p, items, fn, w).nextIndex <= |items| && EndsInv(Step(p, items, fn, w), items, fn)
  {
    hide InFlight, HasFailed;
    StepMovesCalls(p, items, fn, w);
    var q := Step(p, items, fn, w);
    if p.workers[w].Awaiting? {
      var i := p.workers[w].index;
      assert InFlight(p, i) by {
        AwaitingIsInFlight(p, w);
      }
      if fn(items[i]).Err? {
        assert HasFailed(q, i);
      }
    }
  }

  lemma AwaitingIsInFlight<R, E>(p: Pool<R, E>, w: nat)
    requires w < |p.workers| && p.workers[w].Awaiting?
    ensures InFlight(p, p.workers[w].index)
  {
  }

  /** Whatever the interleaving, a step keeps the invariant. */
  lemma StepKeepsInv<T, R, E>(p: Pool<R, E>, items: seq<T>, fn: T -> Result<R, E>, w: nat)
    requires Inv(p, items, fn) && Enabled(p, w)
    ensures Inv(Step(p, items, fn, w), items, fn)
  {
    StepKeepsClaims(p, items, fn, w);
    StepKeepsEnds(p, items, fn, w);
  }

  // ---------- At most `Width` calls in flight ----------

  ghost function Flying<R, E>(p: Pool<R, E>): set<nat> {
    set i: nat | i < p.nextIndex && InFlight(p, i)
  }

  /** The calls in flight are awaited by different workers, so they are no more than the workers. */
  lemma FewInFlight<T, R, E>(p: Pool<R, E>, items: seq<T>, fn: T -> Result<R, E>)
    requires Inv(p, items, fn)
    ensures |Flying(p)| <= |p.workers|
    ensures forall i: nat :: InFlight(p, i) ==> i in Flying(p)
  {
    var awaited := Awaited(p.workers);
    AwaitedCount(p.workers);
    forall i | i in Flying(p) ensures i in awaited {
      AwaitedHas(p.workers, i);
    }
    SubsetSize(Flying(p), awaited);
  }

  function Awaited(ws: seq<Worker>): set<nat> {
    if ws == [] then {}
    else Awaited(ws[1..]) + if ws[0].Awaiting? then {ws[0].index} else {}
  }

  lemma {:induction false} AwaitedCount(ws: seq<Worker>)
    ensures |Awaited(ws)| <= |ws|
  {
    if ws != [] {
      AwaitedCount(ws[1..]);
    }
  }

  lemma {:induction false} AwaitedHas(ws: seq<Worker>, i: nat)
    requires exists w :: 0 <= w < |ws| && ws[w] == Awaiting(i)
    ensures i in Awaited(ws)
  {
    var w :| 0 <= w < |ws| && ws[w] == Awaiting(i);
    if w > 0 {
      assert ws[1..][w - 1] == Awaiting(i);
      AwaitedHas(ws[1..], i);
    }
  }

  lemma {:induction false} SubsetSize(a: set<nat>, b: set<nat>)
    requires a <= b
    ensures |a| <= |b|
  {
    if a != {} {
      var x :| x in a;
      SubsetSize(a - {x}, b - {x});
    }
  }

  // ---------- Every run ends ----------

  function Busy(ws: seq<Worker>): nat {
    if ws == [] then 0 else Busy(ws[..|ws| - 1]) + if HasEnded(ws[|ws| - 1]) then 0 else 1
  }

  lemma {:induction false} BusyUpdate(ws: seq<Worker>, w: nat, s: Worker)
    requires w < |ws|
    ensures Busy(ws[w := s]) + (if HasEnded(ws[w]) then 0 else 1) == Busy(ws) + if HasEnded(s) then 0 else 1
  {
    if w < |ws| - 1 {
      BusyUpdate(ws[..|ws| - 1], w, s);
      assert ws[w := s][..|ws| - 1] == ws[..|ws| - 1][w := s];
    } else {
      assert ws[w := s][..|ws| - 1] == ws[..|ws| - 1];
    }
  }

  /** What remains to be done: unclaimed items, and workers still in their loops. */
  function Remaining<R, E>(p: Pool<R, E>): int {
    |p.results| - p.nextIndex + Busy(p.workers)
  }

  lemma StepMakesProgress<T, R, E>(p: Pool<R, E>, items: seq<T>, fn: T -> Result<R, E>, w: nat)
    requires Inv(p, items, fn) && Enabled(p, w)
    ensures 0 <= Remaining(Step(p, items, fn, w)) < Remaining(p)
  {
    StepKeepsInv(p, items, fn, w);
    BusyUpdate(p.workers, w, Step(p, items, fn, w).workers[w]);
    assert Step(p, items, fn, w).workers == p.workers[w := Step(p, items, fn, w).workers[w]];
  }

  /** A schedule names the worker of each step. */
  ghost predicate IsSchedule<T, R, E>(p: Pool<R, E>, items: seq<T>, fn: T -> Result<R, E>, schedule: seq<nat>)
    requires Inv(p, items, fn)
    decreases |schedule|
  {
    schedule != [] ==>
      && Enabled(p, schedule[0])
      && (StepKeepsInv(p, items, fn, schedule[0]);
          IsSchedule(Step(p, items, fn, schedule[0]), items, fn, schedule[1..]))
  }

  function After<T, R, E>(p: Pool<R, E>, items: seq<T>, fn: T -> Result<R, E>, schedule: seq<nat>): Pool<R, E>
    requires Inv(p, items, fn) && IsSchedule(p, items, fn, schedule)
    decreases |schedule|
  {
    if schedule == [] then p
    else
      StepKeepsInv(p, items, fn, schedule[0]);
      After(Step(p, items, fn, schedule[0]), items, fn, schedule[1..])
  }

  lemma {:induction false} AfterKeeps<T, R, E>(p: Pool<R, E>, items: seq<T>, fn: T -> Result<R, E>, schedule: seq<nat>)
    requires Inv(p, items, fn) && IsSchedule(p, items, fn, schedule)
    ensures var q := After(p, items, fn, schedule);
            && Inv(q, items, fn) && |q.workers| == |p.workers|
            && |schedule| + Remaining(q) <= Remaining(p)
            && (p.workers == [] ==> q == p)
    decreases |schedule|
  {
    if schedule != [] {
      StepKeepsInv(p, items, fn, schedule[0]);
      StepMakesProgress(p, items, fn, schedule[0]);
      AfterKeeps(Step(p, items, fn, schedule[0]), items, fn, schedule[1..]);
    }
  }

  lemma {:induction false} BusyBound(ws: seq<Worker>)
    ensures Busy(ws) <= |ws|
    ensures Busy(ws) == 0 ==> forall w :: 0 <= w < |ws| ==> HasEnded(ws[w])
  {
    if ws != [] {
      BusyBound(ws[..|ws| - 1]);
    }
  }

  /** For every schedule: the function is called once for each claimed index, the calls in flight are never more
      than the concurrency or the items, and no schedule is longer than the items and workers together. One that
      cannot go on has all results exactly if no call rejects and there was a worker or nothing to do; and the
      pool rejects exactly if there was a worker and some item has a call that rejects. */
  lemma EverySchedule<T, R, E>(items: seq<T>, concurrency: int, fn: T -> Result<R, E>, schedule: seq<nat>)
    requires Inv(Initial(|items|, concurrency), items, fn)
    requires IsSchedule(Initial(|items|, concurrency), items, fn, schedule)
    ensures var q := After(Initial(|items|, concurrency), items, fn, schedule);
            && |Flying(q)| <= |items|
            && (concurrency >= 1 ==> |Flying(q)| <= concurrency && |schedule| <= |items| + concurrency)
            && (concurrency < 1 ==> schedule == [])
            && |q.results| == |items|
            && |q.calls| == q.nextIndex && (forall i :: 0 <= i < q.nextIndex ==> q.calls[i] == i)
            && (Finished(q) ==>
                  && (AllStored(q, items, fn) <==> items == [] || (concurrency >= 1 && !SomeRejects(items, fn)))
                  && (q.rejection.Some? <==> concurrency >= 1 && SomeRejects(items, fn)))
  {
    var p: Pool<R, E> := Initial(|items|, concurrency);
    AfterKeeps(p, items, fn, schedule);
    var q := After(p, items, fn, schedule);
    FewInFlight(q, items, fn);
    BusyBound(p.workers);
    BusyBound(q.workers);
    if Finished(q) {
      FinishedPool(q, items, concurrency, fn);
    }
  }

  lemma {:induction false} ScheduleGoesOn<T, R, E>(
    p: Pool<R, E>, items: seq<T>, fn: T -> Result<R, E>, schedule: seq<nat>, w: nat)
    requires Inv(p, items, fn) && IsSchedule(p, items, fn, schedule)
    requires Inv(After(p, items, fn, schedule), items, fn) && Enabled(After(p, items, fn, schedule), w)
    ensures IsSchedule(p, items, fn, schedule + [w])
    ensures After(p, items, fn, schedule + [w]) == Step(After(p, items, fn, schedule), items, fn, w)
    decreases |schedule|
  {
    hide Step;
    var longer := schedule + [w];
    if schedule == [] {
      assert longer[0] == w && longer[1..] == [];
      StepKeepsInv(p, items, fn, w);
      AfterNothing(Step(p, items, fn, w), items, fn);
    } else {
      assert longer[0] == schedule[0] && longer[1..] == schedule[1..] + [w];
      StepKeepsInv(p, items, fn, schedule[0]);
      ScheduleGoesOn(Step(p, items, fn, schedule[0]), items, fn, schedule[1..], w);
    }
  }

  /** The error of a pool is the first one: later rejections do not replace it. */
  lemma {:induction false} FirstRejectionStays<T, R, E>(
    p: Pool<R, E>, items: seq<T>, fn: T -> Result<R, E>, schedule: seq<nat>)
    requires Inv(p, items, fn) && IsSchedule(p, items, fn, schedule)
    ensures p.rejection.Some? ==> After(p, items, fn, schedule).rejection == p.rejection
    decreases |schedule|
  {
    if schedule != [] {
      StepKeepsInv(p, items, fn, schedule[0]);
      FirstRejectionStays(Step(p, items, fn, schedule[0]), items, fn, schedule[1..]);
    }
  }

  lemma AfterNothing<T, R, E>(p: Pool<R, E>, items: seq<T>, fn: T -> Result<R, E>)
    requires Inv(p, items, fn)
    ensures IsSchedule(p, items, fn, []) && After(p, items, fn, []) == p
  {
  }

  /** The first `k` workers have been started, each once. */
  function Starts(k: nat): seq<nat> {
    seq(k, i => i)
  }

  ghost predicate Started<R, E>(p: Pool<R, E>, k: nat) {
    && p.nextIndex == k <= |p.workers|
    && (forall w :: 0 <= w < k ==> p.workers[w] == Awaiting(w))
    && (forall w :: k <= w < |p.workers| ==> p.workers[w] == NotStarted)
  }

  lemma {:induction false} StartingWorkers<T, R, E>(items: seq<T>, concurrency: int, fn: T -> Result<R, E>, k: nat)
    requires 0 <= k <= concurrency && k <= |items|
    ensures var p: Pool<R, E> := Initial(|items|, concurrency);
            && Inv(p, items, fn) && IsSchedule(p, items, fn, Starts(k))
            && Started(After(p, items, fn, Starts(k)), k)
            && |After(p, items, fn, Starts(k)).workers| == |p.workers|
  {
    var p: Pool<R, E> := Initial(|items|, concurrency);
    InitiallyInv(items, concurrency, fn);
    if k == 0 {
      AfterNothing(p, items, fn);
    } else {
      StartingWorkers(items, concurrency, fn, k - 1);
      var q := After(p, items, fn, Starts(k - 1));
      AfterKeeps(p, items, fn, Starts(k - 1));
      assert |q.workers| >= k;
      assert q.workers[k - 1] == NotStarted;
      assert Starts(k) == Starts(k - 1) + [k - 1];
      ScheduleGoesOn(p, items, fn, Starts(k - 1), k - 1);
    }
  }

  lemma StartedWorkersFly<R, E>(p: Pool<R, E>, k: nat)
    requires Started(p, k)
    ensures |Flying(p)| == k
  {
    forall i: nat | i < k ensures InFlight(p, i) {
      assert p.workers[i] == Awaiting(i);
    }
    UpToHas(k);
    assert Flying(p) == UpTo(k);
  }

  /** The pool does make use of its concurrency: some schedule has as many calls in flight as the concurrency and
      the items allow. */
  lemma ConcurrencyIsReached<T, R, E>(items: seq<T>, concurrency: nat, fn: T -> Result<R, E>)
    ensures var p: Pool<R, E> := Initial(|items|, concurrency);
            && Inv(p, items, fn)
            && exists schedule :: IsSchedule(p, items, fn, schedule)
                 && |Flying(After(p, items, fn, schedule))| == if concurrency <= |items| then concurrency else |items|
  {
    var p: Pool<R, E> := Initial(|items|, concurrency);
    var k := if concurrency <= |items| then concurrency else |items|;
    StartingWorkers(items, concurrency, fn, k);
    hide Initial, Inv, IsSchedule, After, Flying, Started;
    StartedWorkersFly(After(p, items, fn, Starts(k)), k);
  }

  function UpTo(k: nat): set<nat> {
    if k == 0 then {} else UpTo(k - 1) + {k - 1}
  }

  lemma {:induction false} UpToHas(k: nat)
    ensures |UpTo(k)| == k && forall i: nat :: i in UpTo(k) <==> i < k
  {
    if k > 0 {
      UpToHas(k - 1);
    }
  }

  ghost predicate SomeRejects<T, R, E>(items: seq<T>, fn: T -> Result<R, E>) {
    exists i :: 0 <= i < |items| && fn(items[i]).Err?
  }

  ghost predicate AllStored<T, R, E>(p: Pool<R, E>, items: seq<T>, fn: T -> Result<R, E>)
    requires |p.results| == |items|
  {
    forall i :: 0 <= i < |items| ==> fn(items[i]).Ok? && p.results[i] == Some(fn(items[i]).value)
  }

  lemma FinishedPool<T, R, E>(q: Pool<R, E>, items: seq<T>, concurrency: int, fn: T -> Result<R, E>)
    requires Inv(q, items, fn) && |q.workers| == Width(concurrency, |items|)
    requires Finished(q)
    requires |q.workers| == 0 ==> q.nextIndex == 0
    ensures AllStored(q, items, fn) <==> items == [] || (concurrency >= 1 && !SomeRejects(items, fn))
    ensures q.rejection.Some? <==> concurrency >= 1 && SomeRejects(items, fn)
    ensures q.rejection.Some? ==> exists i :: 0 <= i < |items| && fn(items[i]) == Err(q.rejection.value)
    ensures concurrency < 1 ==> forall i :: 0 <= i < |items| ==> q.results[i] == None
  {
    assert forall i: nat :: !InFlight(q, i);
    if concurrency >= 1 && items != [] {
      assert q.workers[0].Failed? ==> HasFailed(q, q.workers[0].index);
      if q.rejection.None? {
        assert q.workers[0] == Done && q.nextIndex == |items|;
      }
    } else if items != [] {
      assert q.results[0] == None;
    }
  }

  // ---------- The helper itself ----------

  /** Runs the workers under a scheduler that picks any worker able to go on. The other workers go on
      after one has failed, which no caller can see. */
  method RunWithConcurrency<T, R, E>(items: seq<T>, concurrency: int, fn: T -> Result<R, E>)
    returns (r: Result<seq<Option<R>>, E>)
    ensures r.Err? <==> concurrency >= 1 && SomeRejects(items, fn)
    ensures r.Err? ==> exists i :: 0 <= i < |items| && fn(items[i]) == Err(r.error)
    ensures r.Ok? ==> |r.value| == |items|
    ensures r.Ok? && concurrency >= 1 ==>
              forall i :: 0 <= i < |items| ==> fn(items[i]).Ok? && r.value[i] == Some(fn(items[i]).value)
    ensures r.Ok? && concurrency < 1 ==> forall i :: 0 <= i < |items| ==> r.value[i] == None
  {
    var results: seq<Option<R>> := seq(|items|, _ => None);
    var nextIndex := 0;
    var workers: seq<Worker> := seq(Width(concurrency, |items|), _ => NotStarted);
    var rejection: Option<E> := None;
    ghost var calls: seq<nat> := [];
    InitiallyInv(items, concurrency, fn);
    while exists w :: 0 <= w < |workers| && !HasEnded(workers[w])
      invariant Inv(Pool(nextIndex, results, workers, calls, rejection), items, fn)
      invariant |workers| == Width(concurrency, |items|)
      invariant |workers| == 0 ==> nextIndex == 0
      decreases Remaining(Pool(nextIndex, results, workers, calls, rejection))
    {
      var w :| 0 <= w < |workers| && !HasEnded(workers[w]);
      ghost var before := Pool(nextIndex, results, workers, calls, rejection);
      StepKeepsInv(before, items, fn, w);
      StepMakesProgress(before, items, fn, w);
      var failed := false;
      if workers[w].Awaiting? {
        var index := workers[w].index;
        match fn(items[index]) {
          case Ok(value) => results := results[index := Some(value)];
          case Err(error) =>
            failed := true;
            workers := workers[w := Failed(index)];
            if rejection.None? {
              rejection := Some(error);
            }
        }
      }
      if !failed {
        if nextIndex < |items| {
          workers := workers[w := Awaiting(nextIndex)];
          calls := calls + [nextIndex];
          nextIndex := nextIndex + 1;
        } else {
          workers := workers[w := Done];
        }
      }
      assert Pool(nextIndex, results, workers, calls, rejection) == Step(before, items, fn, w);
    }
    FinishedPool(Pool(nextIndex, results, workers, calls, rejection), items, concurrency, fn);
    if rejection.Some? {
      return Err(rejection.value);
    }
    return Ok(results);
  }
}
