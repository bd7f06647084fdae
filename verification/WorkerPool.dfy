/** The bounded worker pool of the performance measurement: a few workers take the next index
    in turn until none is left. A worker's step runs from one suspension to the next, and
    the schedule may pick any worker that has not returned. */
module WorkerPool {
  import opened Sql

  datatype Worker = Ready | Running(index: nat) | Returned

  /** `started` is the history of the indices on which `execute` was called. */
  datatype Pool<R> = Pool(nextIndex: nat, workers: seq<Worker>, results: seq<Option<R>>, started: seq<nat>)

  function Min(a: nat, b: nat): nat {
    if a < b then a else b
  }

  function Start<T, R>(items: seq<T>, concurrency: nat, execute: T -> R): (p: Pool<R>)
    ensures Sound(items, execute, p)
    ensures |p.workers| == Min(concurrency, |items|) && p.nextIndex == 0
  {
    Pool(0, seq(Min(concurrency, |items|), _ => Ready), seq(|items|, _ => None), [])
  }

  predicate CanStep<R>(p: Pool<R>, w: nat) {
    w < |p.workers| && !p.workers[w].Returned?
  }

  /** A ready worker takes the next index or returns; a running one stores its result. */
  function Step<T, R>(items: seq<T>, execute: T -> R, p: Pool<R>, w: nat): Pool<R>
    requires CanStep(p, w) && |p.results| == |items|
    requires forall v :: 0 <= v < |p.workers| && p.workers[v].Running? ==> p.workers[v].index < |items|
  {
    match p.workers[w]
    case Ready =>
      if p.nextIndex < |items|
      then p.(nextIndex := p.nextIndex + 1, workers := p.workers[w := Running(p.nextIndex)], started := p.started + [p.nextIndex])
      else p.(workers := p.workers[w := Returned])
    case Running(i) =>
      p.(results := p.results[i := Some(execute(items[i]))], workers := p.workers[w := Ready])
    case Returned => p
  }

  // ----- Invariant -----

  predicate IsRunning<R>(p: Pool<R>, i: nat) {
    exists w :: 0 <= w < |p.workers| && p.workers[w] == Running(i)
  }

  /** The indices below `nextIndex` were started, in order and once each; each is running on
      one worker or has its result; the others are untouched. */
  ghost predicate Sound<T, R>(items: seq<T>, execute: T -> R, p: Pool<R>) {
    && |p.results| == |items|
    && p.nextIndex <= |items|
    && |p.started| == p.nextIndex && (forall i :: 0 <= i < |p.started| ==> p.started[i] == i)
    && (forall w :: 0 <= w < |p.workers| && p.workers[w].Running? ==>
          p.workers[w].index < p.nextIndex && p.results[p.workers[w].index].None?)
    && (forall v, w :: 0 <= v < w < |p.workers| && p.workers[v].Running? ==> p.workers[v] != p.workers[w])
    && (forall i :: 0 <= i < p.nextIndex ==> p.results[i] == Some(execute(items[i])) || IsRunning(p, i))
    && (forall i :: p.nextIndex <= i < |items| ==> p.results[i].None?)
    && (forall w :: 0 <= w < |p.workers| && p.workers[w].Returned? ==> p.nextIndex == |items|)
  }

  lemma {:induction false} TakeKeepsSound<T, R>(items: seq<T>, execute: T -> R, p: Pool<R>, w: nat)
    requires Sound(items, execute, p) && w < |p.workers| && p.workers[w].Ready? && p.nextIndex < |items|
    ensures Sound(items, execute, Step(items, execute, p, w))
  {
    var after := Step(items, execute, p, w);
    forall i | 0 <= i < after.nextIndex ensures after.results[i] == Some(execute(items[i])) || IsRunning(after, i) {
      if i == p.nextIndex {
        assert after.workers[w] == Running(i);
      } else if p.results[i].None? {
        var v :| 0 <= v < |p.workers| && p.workers[v] == Running(i);
        assert after.workers[v] == Running(i);
      }
    }
  }

  lemma {:induction false} ReturnKeepsSound<T, R>(items: seq<T>, execute: T -> R, p: Pool<R>, w: nat)
    requires Sound(items, execute, p) && w < |p.workers| && p.workers[w].Ready? && p.nextIndex == |items|
    ensures Sound(items, execute, Step(items, execute, p, w))
  {
    var after := Step(items, execute, p, w);
    forall i | 0 <= i < after.nextIndex && p.results[i].None? ensures IsRunning(after, i) {
      var v :| 0 <= v < |p.workers| && p.workers[v] == Running(i);
      assert after.workers[v] == Running(i);
    }
  }

  lemma {:induction false} FinishKeepsSound<T, R>(items: seq<T>, execute: T -> R, p: Pool<R>, w: nat)
    requires Sound(items, execute, p) && w < |p.workers| && p.workers[w].Running?
    ensures Sound(items, execute, Step(items, execute, p, w))
  {
    var after := Step(items, execute, p, w);
    forall i | 0 <= i < after.nextIndex && i != p.workers[w].index && p.results[i].None? ensures IsRunning(after, i) {
      var v :| 0 <= v < |p.workers| && p.workers[v] == Running(i);
      assert after.workers[v] == Running(i);
    }
  }

  lemma {:induction false} StepKeepsSound<T, R>(items: seq<T>, execute: T -> R, p: Pool<R>, w: nat)
    requires Sound(items, execute, p) && CanStep(p, w)
    ensures Sound(items, execute, Step(items, execute, p, w))
  {
    if p.workers[w].Running? {
      FinishKeepsSound(items, execute, p, w);
    } else if p.nextIndex < |items| {
      TakeKeepsSound(items, execute, p, w);
    } else {
      ReturnKeepsSound(items, execute, p, w);
    }
  }

  // ----- Termination -----

  function Weight(w: Worker): nat {
    match w case Ready => 1 case Running(_) => 2 case Returned => 0
  }

  function Weights(workers: seq<Worker>): nat {
    if |workers| == 0 then 0 else Weight(workers[0]) + Weights(workers[1..])
  }

  /** Steps that are left at most. */
  function StepsLeft<R>(p: Pool<R>, size: nat): int {
    3 * (size - p.nextIndex) + Weights(p.workers)
  }

  lemma {:induction false} WeightsUpdate(workers: seq<Worker>, w: nat, x: Worker)
    requires w < |workers|
    ensures Weights(workers[w := x]) == Weights(workers) - Weight(workers[w]) + Weight(x)
    decreases w
  {
    if w == 0 {
      assert workers[0 := x][1..] == workers[1..];
    } else {
      WeightsUpdate(workers[1..], w - 1, x);
      assert workers[w := x][1..] == workers[1..][w - 1 := x];
    }
  }

  lemma {:induction false} StepDecreases<T, R>(items: seq<T>, execute: T -> R, p: Pool<R>, w: nat)
    requires Sound(items, execute, p) && CanStep(p, w)
    ensures 0 <= StepsLeft(Step(items, execute, p, w), |items|) < StepsLeft(p, |items|)
  {
    StepKeepsSound(items, execute, p, w);
    WeightsUpdate(p.workers, w, Step(items, execute, p, w).workers[w]);
    assert Step(items, execute, p, w).workers == p.workers[w := Step(items, execute, p, w).workers[w]];
  }

  // ----- Schedules -----

  /** Every pick of the schedule is a worker that has not returned. */
  ghost predicate Legal<T, R>(items: seq<T>, execute: T -> R, p: Pool<R>, schedule: seq<nat>)
    requires Sound(items, execute, p)
    decreases |schedule|
  {
    |schedule| == 0 ||
    (CanStep(p, schedule[0])
     && (StepKeepsSound(items, execute, p, schedule[0]); Legal(items, execute, Step(items, execute, p, schedule[0]), schedule[1..])))
  }

  ghost function RunSchedule<T, R>(items: seq<T>, execute: T -> R, p: Pool<R>, schedule: seq<nat>): (q: Pool<R>)
    requires Sound(items, execute, p) && Legal(items, execute, p, schedule)
    ensures Sound(items, execute, q)
    decreases |schedule|
  {
    if |schedule| == 0 then p
    else
      StepKeepsSound(items, execute, p, schedule[0]);
      RunSchedule(items, execute, Step(items, execute, p, schedule[0]), schedule[1..])
  }

  predicate AllReturned<R>(p: Pool<R>) {
    forall w :: 0 <= w < |p.workers| ==> p.workers[w].Returned?
  }

  function InFlight(workers: seq<Worker>): nat {
    if |workers| == 0 then 0 else (if workers[0].Running? then 1 else 0) + InFlight(workers[1..])
  }

  lemma {:induction false} InFlightIsBounded(workers: seq<Worker>)
    ensures InFlight(workers) <= |workers|
    decreases |workers|
  {
    if |workers| != 0 {
      InFlightIsBounded(workers[1..]);
    }
  }

  lemma {:induction false} InitialWeights(workers: seq<Worker>)
    requires forall w :: 0 <= w < |workers| ==> workers[w] == Ready
    ensures Weights(workers) == |workers|
    decreases |workers|
  {
    if |workers| != 0 {
      InitialWeights(workers[1..]);
    }
  }

  lemma {:induction false} StepsFromStart<T, R>(items: seq<T>, execute: T -> R, concurrency: nat)
    ensures StepsLeft(Start(items, concurrency, execute), |items|) == 3 * |items| + Min(concurrency, |items|)
  {
    InitialWeights(Start(items, concurrency, execute).workers);
  }

  /** No schedule is longer than the bound, and the number of workers never changes. */
  lemma {:induction false} SchedulesAreBounded<T, R>(items: seq<T>, execute: T -> R, p: Pool<R>, schedule: seq<nat>)
    requires Sound(items, execute, p) && Legal(items, execute, p, schedule)
    ensures |schedule| <= StepsLeft(p, |items|)
    ensures |RunSchedule(items, execute, p, schedule).workers| == |p.workers|
    decreases |schedule|
  {
    if |schedule| != 0 {
      StepKeepsSound(items, execute, p, schedule[0]);
      StepDecreases(items, execute, p, schedule[0]);
      SchedulesAreBounded(items, execute, Step(items, execute, p, schedule[0]), schedule[1..]);
    }
  }

  /** Once every worker has returned, every result is there if and only if there was a worker
      or nothing to do. */
  lemma {:induction false} ReturnedPoolIsComplete<T, R>(items: seq<T>, execute: T -> R, p: Pool<R>)
    requires Sound(items, execute, p) && AllReturned(p)
    requires |p.workers| == 0 ==> p.nextIndex == 0
    ensures (forall i :: 0 <= i < |items| ==> p.results[i] == Some(execute(items[i]))) <==> |p.workers| > 0 || |items| == 0
    ensures |p.workers| > 0 ==> |p.started| == |items|
  {
    if |p.workers| > 0 {
      assert p.workers[0].Returned?;
      forall i | 0 <= i < |items| ensures p.results[i] == Some(execute(items[i])) {
        assert !IsRunning(p, i);
      }
    } else if |items| > 0 {
      assert p.results[0].None?;
    }
  }

  lemma {:induction false} NoWorkersNoSteps<T, R>(items: seq<T>, execute: T -> R, p: Pool<R>, schedule: seq<nat>)
    requires Sound(items, execute, p) && Legal(items, execute, p, schedule) && |p.workers| == 0
    ensures RunSchedule(items, execute, p, schedule) == p
  {
  }

  /** Whatever the interleaving: never more than `concurrency` calls are in flight, every
      index is started at most once and in order, the run takes at most
      3 * items + workers steps, and a run in which all workers have returned holds the
      in-order map of `execute` exactly when `concurrency` is not zero or there is nothing
      to do. */
  lemma {:induction false} PoolIsBoundedMap<T, R>(items: seq<T>, execute: T -> R, concurrency: nat, schedule: seq<nat>)
    requires Legal(items, execute, Start(items, concurrency, execute), schedule)
    ensures var end := RunSchedule(items, execute, Start(items, concurrency, execute), schedule);
            && InFlight(end.workers) <= concurrency
            && (forall i :: 0 <= i < |end.started| ==> end.started[i] == i)
            && |schedule| <= 3 * |items| + Min(concurrency, |items|)
            && (AllReturned(end) ==>
                  ((forall i :: 0 <= i < |items| ==> end.results[i] == Some(execute(items[i]))) <==> concurrency > 0 || |items| == 0)
                  && (concurrency > 0 ==> |end.started| == |items|))
  {
    var start := Start(items, concurrency, execute);
    StepsFromStart(items, execute, concurrency);
    SchedulesAreBounded(items, execute, start, schedule);
    var end := RunSchedule(items, execute, start, schedule);
    InFlightIsBounded(end.workers);
    if |start.workers| == 0 {
      NoWorkersNoSteps(items, execute, start, schedule);
    }
    if AllReturned(end) {
      ReturnedPoolIsComplete(items, execute, end);
    }
  }

  // ----- runBounded -----

  /** The workers, resumed in an order that nothing here determines. */
  method RunBounded<T, R>(items: seq<T>, concurrency: nat, execute: T -> R) returns (results: array<Option<R>>)
    ensures fresh(results) && results.Length == |items|
    ensures concurrency > 0 ==> forall i :: 0 <= i < |items| ==> results[i] == Some(execute(items[i]))
    ensures concurrency == 0 ==> forall i :: 0 <= i < |items| ==> results[i] == None
  {
    results := new Option<R>[|items|](_ => None);
    var nextIndex: nat := 0;
    var workers := seq(Min(concurrency, |items|), _ => Ready);
    ghost var pool := Start(items, concurrency, execute);
    while exists w :: 0 <= w < |workers| && !workers[w].Returned?
      invariant |workers| == Min(concurrency, |items|)
      invariant pool.nextIndex == nextIndex && pool.workers == workers && pool.results == results[..]
      invariant Sound(items, execute, pool)
      invariant |workers| == 0 ==> nextIndex == 0
      decreases StepsLeft(pool, |items|)
    {
      var w: nat :| w < |workers| && !workers[w].Returned?;
      StepKeepsSound(items, execute, pool, w);
      StepDecreases(items, execute, pool, w);
      ghost var before := pool;
      pool := Step(items, execute, pool, w);
      match workers[w]
      case Ready =>
        if nextIndex < |items| {
          workers := workers[w := Running(nextIndex)];
          nextIndex := nextIndex + 1;
        } else {
          workers := workers[w := Returned];
        }
        assert pool.results == before.results && pool.workers == workers;
      case Running(index) =>
        results[index] := Some(execute(items[index]));
        workers := workers[w := Ready];
        assert pool.results == before.results[index := Some(execute(items[index]))] && pool.workers == workers;
    }
    ReturnedPoolIsComplete(items, execute, pool);
  }
}
