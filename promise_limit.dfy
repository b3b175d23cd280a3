/**
 * The concurrency gate used to fan out remote fetches (api/src/utils/promise-limit.ts, a
 * copy of p-limit): submitted tasks wait in a FIFO queue, and a task leaves the queue only
 * while fewer than `concurrency` tasks run.
 *
 * The gate is modelled as a sequence of discrete events, each a method of `Limiter`:
 * a submission (`Enqueue`), the drain check that each submission schedules for the next
 * microtask (`DrainCheck`), and the end of a running task (`Complete`), which is where
 * `next` runs. Starting a task is the `queue.shift()()` inside those events.
 */
module PromiseLimit {
  import opened Wrappers

  /** A JavaScript number as far as the argument check can tell them apart. */
  datatype JsNumber = Integer(n: int) | NonInteger | PositiveInfinity | NegativeInfinity | NaN

  /** A valid concurrency: a positive integer, or no bound at all. */
  datatype Limit = Bounded(n: int) | Unbounded

  const BadConcurrency: string := "Expected `concurrency` to be a number from 1 and up"

  /** The argument check of `pLimit`. */
  function ParseConcurrency(c: JsNumber): (r: Result<Limit, string>)
    ensures r.Ok? <==> (c.Integer? && c.n > 0) || c == PositiveInfinity
    ensures r.Err? ==> r.error == BadConcurrency
    ensures r.Ok? && c.Integer? ==> r.value == Bounded(c.n)
    ensures r.Ok? && !c.Integer? ==> r.value == Unbounded
  {
    match c
    case Integer(n) => if n > 0 then Ok(Bounded(n)) else Err(BadConcurrency)
    case PositiveInfinity => Ok(Unbounded)
    case _ => Err(BadConcurrency)
  }

  /** `activeCount < concurrency`. */
  predicate Below(count: int, limit: Limit) {
    match limit
    case Bounded(n) => count < n
    case Unbounded => true
  }

  /** `activeCount <= concurrency`. */
  predicate AtMost(count: int, limit: Limit) {
    match limit
    case Bounded(n) => count <= n
    case Unbounded => true
  }

  /** How a task ended: its promise resolved, or it threw. */
  datatype Outcome = Resolved | Threw

  /** A submitted task, identified by the caller. */
  type Task = int

  class Limiter {
    const concurrency: Limit
    var queue: seq<Task>
    var activeCount: int
    /** The tasks that run now. */
    ghost var running: multiset<Task>
    /** Every task ever submitted, in submission order. */
    ghost var submitted: seq<Task>
    /** The submitted tasks that left the queue, by starting or by `clearQueue`, in order. */
    ghost var left: seq<Task>

    ghost predicate Valid()
      reads this
    {
      (concurrency.Bounded? ==> concurrency.n > 0)
      && activeCount == |running|
      && AtMost(activeCount, concurrency)
      && left + queue == submitted
    }

    constructor(limit: Limit)
      requires limit.Bounded? ==> limit.n > 0
      ensures Valid()
      ensures concurrency == limit && queue == [] && activeCount == 0
      ensures running == multiset{} && submitted == [] && left == []
    {
      concurrency := limit;
      queue := [];
      activeCount := 0;
      running := multiset{};
      submitted := [];
      left := [];
    }

    /** `queue.shift()()`: the earliest waiting task leaves the queue and runs (`run`). */
    method StartHead() returns (t: Task)
      requires Valid() && queue != [] && Below(activeCount, concurrency)
      modifies this
      ensures Valid()
      ensures t == old(queue[0])
      ensures queue == old(queue[1..]) && activeCount == old(activeCount) + 1
      ensures running == old(running) + multiset{t}
      ensures left == old(left) + [t] && submitted == old(submitted)
    {
      t := queue[0];
      assert left + [t] + queue[1..] == left + queue;
      queue := queue[1..];
      left := left + [t];
      activeCount := activeCount + 1;
      running := running + multiset{t};
    }

    /** `enqueue`: the task joins the back of the queue. */
    method Enqueue(t: Task)
      requires Valid()
      modifies this
      ensures Valid()
      ensures queue == old(queue) + [t] && submitted == old(submitted) + [t]
      ensures activeCount == old(activeCount) && running == old(running) && left == old(left)
    {
      queue := queue + [t];
      submitted := submitted + [t];
    }

    /**
     * The drain check a submission schedules: the earliest waiting task starts if a slot is
     * free, and nothing happens otherwise.
     */
    method DrainCheck() returns (started: Option<Task>)
      requires Valid()
      modifies this
      ensures Valid()
      ensures started.Some? <==> old(Below(activeCount, concurrency)) && old(queue) != []
      ensures started.Some? ==>
        started.value == old(queue[0]) && queue == old(queue[1..]) && activeCount == old(activeCount) + 1
        && running == old(running) + multiset{started.value} && left == old(left) + [started.value]
      ensures started.None? ==> queue == old(queue) && activeCount == old(activeCount) && running == old(running) && left == old(left)
      ensures submitted == old(submitted)
    {
      if Below(activeCount, concurrency) && queue != [] {
        var t := StartHead();
        started := Some(t);
      } else {
        started := None;
      }
    }

    /**
     * A running task ends, whether it resolved or threw, and `next` runs: the task gives up
     * its slot, and the earliest waiting task, if any, takes it.
     */
    method Complete(t: Task, outcome: Outcome) returns (started: Option<Task>)
      requires Valid() && t in running
      modifies this
      ensures Valid()
      ensures started.Some? <==> old(queue) != []
      ensures started.Some? ==>
        started.value == old(queue[0]) && queue == old(queue[1..]) && activeCount == old(activeCount)
        && running == old(running) - multiset{t} + multiset{started.value} && left == old(left) + [started.value]
      ensures started.None? ==>
        queue == old(queue) && activeCount == old(activeCount) - 1 && running == old(running) - multiset{t} && left == old(left)
      ensures submitted == old(submitted)
    {
      activeCount := activeCount - 1;
      running := running - multiset{t};
      if queue != [] {
        var s := StartHead();
        started := Some(s);
      } else {
        started := None;
      }
    }

    /** `clearQueue`: every waiting task is dropped; the running ones keep their slots. */
    method ClearQueue()
      requires Valid()
      modifies this
      ensures Valid()
      ensures queue == [] && left == old(left) + old(queue)
      ensures activeCount == old(activeCount) && running == old(running) && submitted == old(submitted)
    {
      left := left + queue;
      queue := [];
    }

    /** The `pendingCount` getter. */
    method PendingCount() returns (n: int)
      requires Valid()
      ensures n == |queue|
      ensures n == |submitted| - |left|
    {
      n := |queue|;
    }

    /** The `activeCount` getter: never above the bound. */
    method ActiveCount() returns (n: int)
      requires Valid()
      ensures n == activeCount && n == |running|
      ensures AtMost(n, concurrency)
    {
      n := activeCount;
    }
  }

  /** `pLimit(concurrency)`: a fresh, empty gate, or the argument error. */
  method NewLimiter(c: JsNumber) returns (r: Result<Limiter, string>)
    ensures r.Ok? <==> ParseConcurrency(c).Ok?
    ensures r.Err? ==> r.error == BadConcurrency
    ensures r.Ok? ==>
      (fresh(r.value) && r.value.Valid() && r.value.concurrency == ParseConcurrency(c).value
       && r.value.queue == [] && r.value.activeCount == 0)
  {
    match ParseConcurrency(c)
    case Ok(limit) =>
      var l := new Limiter(limit);
      r := Ok(l);
    case Err(e) =>
      r := Err(e);
  }
}
