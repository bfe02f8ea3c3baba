/**
 * Mapping items with a limited number of cooperating workers that share a
 * cursor (packages/discovery/src/discover.ts). Between two awaits nothing
 * interleaves; the steps below are finer than that, so every schedule of the
 * source is one of theirs.
 */
module MapLimited {
  import opened Wrappers

  datatype Worker = Ready | Awaiting(index: nat) | Finished | Threw

  /** `calls` lists the items handed to the map so far, by index, in order. */
  datatype Pool<R> = Pool(next: nat, results: seq<Option<R>>, workers: seq<Worker>, calls: seq<nat>)

  /** A hole or an undefined item is None; a rejected call is Err. */
  datatype Job<!T, R> = Job(items: seq<Option<T>>, limit: int, call: T -> Result<R, ()>)

  /** `Array.from({ length: Math.min(limit, items.length) })`. */
  function WorkerCount(limit: int, items: nat): nat {
    if limit <= 0 then 0 else if limit < items then limit else items
  }

  function Start<T, R>(job: Job<T, R>): (p: Pool<R>)
    ensures Consistent(job, p)
  {
    Pool(0, seq(|job.items|, _ => None), seq(WorkerCount(job.limit, |job.items|), _ => Ready), [])
  }

  predicate CanStep<R>(p: Pool<R>, w: nat) {
    w < |p.workers| && (p.workers[w].Ready? || p.workers[w].Awaiting?)
  }

  /** Worker `w` goes on: claims the next index, skips a missing item, stores an answer, or stops. */
  function Step<T, R>(job: Job<T, R>, p: Pool<R>, w: nat): Pool<R>
    requires CanStep(p, w) && Consistent(job, p)
  {
    match p.workers[w]
    case Ready =>
      if p.next >= |job.items| then p.(workers := p.workers[w := Finished])
      else if job.items[p.next] == None then p.(next := p.next + 1)
      else p.(next := p.next + 1, calls := p.calls + [p.next], workers := p.workers[w := Awaiting(p.next)])
    case Awaiting(index) =>
      var answer := job.call(job.items[index].value);
      if answer.Err? then p.(workers := p.workers[w := Threw])
      else p.(results := p.results[index := Some(answer.value)], workers := p.workers[w := Ready])
  }

  /** The call for this item is rejected. */
  predicate IsRejected<T, R>(job: Job<T, R>, i: nat)
    requires i < |job.items|
  {
    job.items[i].Some? && job.call(job.items[i].value).Err?
  }

  /** The answer the caller should get for one item. */
  function Expected<T, R>(job: Job<T, R>, i: nat): Option<R>
    requires i < |job.items|
  {
    if job.items[i] == None || IsRejected(job, i) then None else Some(job.call(job.items[i].value).value)
  }

  /** The indices below `n` that hold an item. */
  function Present<T>(items: seq<Option<T>>, n: nat): (r: seq<nat>)
    requires n <= |items|
    ensures forall k :: 0 <= k < |r| ==> r[k] < n && items[r[k]].Some?
    ensures forall a, b :: 0 <= a < b < |r| ==> r[a] < r[b]
    ensures forall i :: 0 <= i < n && items[i].Some? ==> i in r
  {
    if n == 0 then []
    else if items[n - 1].Some? then Present(items, n - 1) + [n - 1]
    else Present(items, n - 1)
  }

  predicate InFlight<R>(p: Pool<R>, i: nat) {
    exists w :: 0 <= w < |p.workers| && p.workers[w] == Awaiting(i)
  }

  predicate AnyThrew<R>(p: Pool<R>) {
    exists w :: 0 <= w < |p.workers| && p.workers[w] == Threw
  }

  /** What each worker holds was claimed, and a worker stops only when the cursor is past the end. */
  ghost predicate Held<T, R>(job: Job<T, R>, p: Pool<R>, worker: Worker) {
    && (worker.Awaiting? ==> worker.index < p.next && worker.index < |job.items| && job.items[worker.index].Some?)
    && (worker.Finished? ==> p.next == |job.items|)
  }

  /** The cursor, the calls made and the indices the workers hold. */
  ghost predicate Claims<T, R>(job: Job<T, R>, p: Pool<R>) {
    && p.next <= |job.items| == |p.results|
    && |p.workers| == WorkerCount(job.limit, |job.items|)
    && p.calls == Present(job.items, p.next)
    && (forall w :: 0 <= w < |p.workers| ==> Held(job, p, p.workers[w]))
  }

  /** No two workers await the same index. */
  ghost predicate OneEach<R>(p: Pool<R>) {
    forall v, w :: 0 <= v < w < |p.workers| && p.workers[v].Awaiting? ==> p.workers[v] != p.workers[w]
  }

  ghost predicate ThrewForReason<T, R>(job: Job<T, R>, p: Pool<R>) {
    AnyThrew(p) ==> exists i :: 0 <= i < |job.items| && IsRejected(job, i)
  }

  /** A claimed index holds its answer, or is still awaited, or some worker threw. */
  ghost predicate Answers<T, R>(job: Job<T, R>, p: Pool<R>)
    requires p.next <= |job.items| == |p.results|
  {
    && (forall i :: p.next <= i < |p.results| ==> p.results[i] == None)
    && (forall i :: 0 <= i < p.next ==> IsAnswered(job, p, i))
  }

  ghost predicate IsAnswered<T, R>(job: Job<T, R>, p: Pool<R>, i: nat)
    requires i < |job.items| == |p.results|
  {
    || (p.results[i] == Expected(job, i) && !IsRejected(job, i))
    || (p.results[i] == None && (InFlight(p, i) || AnyThrew(p)))
  }

  ghost predicate Consistent<T, R>(job: Job<T, R>, p: Pool<R>) {
    Claims(job, p) && OneEach(p) && ThrewForReason(job, p) && Answers(job, p)
  }

  lemma PresentNext<T>(items: seq<Option<T>>, n: nat)
    requires n < |items|
    ensures Present(items, n + 1) == if items[n].Some? then Present(items, n) + [n] else Present(items, n)
  {
  }

  lemma StepKeepsOneEach<T, R>(job: Job<T, R>, p: Pool<R>, w: nat)
    requires Consistent(job, p) && CanStep(p, w)
    ensures OneEach(Step(job, p, w))
  {
    hide Answers, Present, WorkerCount, ThrewForReason;
  }

  lemma ClaimsOf<T, R>(job: Job<T, R>, p: Pool<R>, w: nat)
    requires Consistent(job, p) && w < |p.workers|
    ensures p.next <= |job.items| == |p.results| && p.calls == Present(job.items, p.next)
    ensures Held(job, p, p.workers[w])
  {
    hide Answers, Present, ThrewForReason, OneEach;
  }

  lemma StepKeepsCalls<T, R>(job: Job<T, R>, p: Pool<R>, w: nat)
    requires Consistent(job, p) && CanStep(p, w)
    ensures var p' := Step(job, p, w);
      && p.next <= p'.next <= |job.items| == |p'.results|
      && |p'.workers| == |p.workers|
      && p'.calls == Present(job.items, p'.next)
  {
    hide Consistent, Present, WorkerCount;
    ClaimsOf(job, p, w);
    if p.workers[w].Ready? {
      if p.next < |job.items| {
        PresentNext(job.items, p.next);
      }
    } else {
      assert p.workers[w].index < |p.results|;
    }
  }

  lemma StepKeepsHeld<T, R>(job: Job<T, R>, p: Pool<R>, w: nat, v: nat)
    requires Consistent(job, p) && CanStep(p, w) && v < |Step(job, p, w).workers|
    ensures Held(job, Step(job, p, w), Step(job, p, w).workers[v])
  {
    hide Answers, Present, WorkerCount, ThrewForReason, OneEach;
    if v != w {
      assert Step(job, p, w).workers[v] == p.workers[v];
    }
  }

  lemma StepKeepsClaims<T, R>(job: Job<T, R>, p: Pool<R>, w: nat)
    requires Consistent(job, p) && CanStep(p, w)
    ensures Claims(job, Step(job, p, w))
  {
    hide Answers, Present, WorkerCount, ThrewForReason, OneEach, Step, CanStep;
    StepKeepsCalls(job, p, w);
    forall v: nat | v < |Step(job, p, w).workers|
      ensures Held(job, Step(job, p, w), Step(job, p, w).workers[v])
    {
      StepKeepsHeld(job, p, w, v);
    }
  }

  lemma StepKeepsReason<T, R>(job: Job<T, R>, p: Pool<R>, w: nat)
    requires Consistent(job, p) && CanStep(p, w)
    ensures ThrewForReason(job, Step(job, p, w))
  {
    hide Answers, Present, WorkerCount, OneEach;
    var p' := Step(job, p, w);
    if p.workers[w].Awaiting? && p'.workers[w].Threw? {
      assert IsRejected(job, p.workers[w].index);
    } else if AnyThrew(p') {
      var v :| 0 <= v < |p'.workers| && p'.workers[v] == Threw;
      assert p.workers[v] == Threw;
    }
  }

  /** What a worker stores is the answer for the item it holds. */
  lemma StoredIsExpected<T, R>(job: Job<T, R>, p: Pool<R>, w: nat)
    requires Consistent(job, p) && CanStep(p, w)
    ensures p.next < |job.items| && job.items[p.next] == None ==>
      Expected(job, p.next) == None && !IsRejected(job, p.next)
    ensures p.workers[w].Awaiting? ==>
      var i := p.workers[w].index;
      && i < |job.items| && job.items[i].Some?
      && (job.call(job.items[i].value).Ok? ==>
            Expected(job, i) == Some(job.call(job.items[i].value).value) && !IsRejected(job, i))
  {
    hide Present, WorkerCount, ThrewForReason, OneEach, Answers;
  }

  lemma StepKeepsAnswers<T, R>(job: Job<T, R>, p: Pool<R>, w: nat, i: nat)
    requires Consistent(job, p) && CanStep(p, w) && i < Step(job, p, w).next
    ensures i < |job.items| == |Step(job, p, w).results| && IsAnswered(job, Step(job, p, w), i)
  {
    hide Present, WorkerCount, ThrewForReason, OneEach, Expected, IsRejected;
    var p' := Step(job, p, w);
    StoredIsExpected(job, p, w);
    assert i < p.next ==> IsAnswered(job, p, i);
    if AnyThrew(p) {
      var v :| 0 <= v < |p.workers| && p.workers[v] == Threw;
      assert p'.workers[v] == Threw;
    }
    if InFlight(p, i) {
      var v :| 0 <= v < |p.workers| && p.workers[v] == Awaiting(i);
      assert v != w ==> p'.workers[v] == Awaiting(i);
    }
    assert p'.workers[w] == Awaiting(i) ==> InFlight(p', i);
    assert p'.workers[w] == Threw ==> AnyThrew(p');
  }

  lemma StepKeeps<T, R>(job: Job<T, R>, p: Pool<R>, w: nat)
    requires Consistent(job, p) && CanStep(p, w)
    ensures Consistent(job, Step(job, p, w))
    ensures p.calls <= Step(job, p, w).calls
    ensures Progress(job, Step(job, p, w)) < Progress(job, p)
  {
    hide IsAnswered, Expected, IsRejected, Claims, OneEach, ThrewForReason, Progress, CanStep, Present;
    StepKeepsCalls(job, p, w);
    StepExtendsCalls(job, p, w);
    StepKeepsClaims(job, p, w);
    StepKeepsOneEach(job, p, w);
    StepKeepsReason(job, p, w);
    ProgressAfter(job, p, w);
    forall i: nat | i < Step(job, p, w).next
      ensures i < |job.items| == |Step(job, p, w).results| && IsAnswered(job, Step(job, p, w), i)
    {
      StepKeepsAnswers(job, p, w, i);
    }
  }

  lemma StepExtendsCalls<T, R>(job: Job<T, R>, p: Pool<R>, w: nat)
    requires Consistent(job, p) && CanStep(p, w)
    ensures p.calls <= Step(job, p, w).calls
    ensures forall i :: Step(job, p, w).next <= i < |job.items| ==> Step(job, p, w).results[i] == None
  {
    hide IsAnswered, Expected, IsRejected, OneEach, ThrewForReason, Present;
    StepKeepsCalls(job, p, w);
  }

  /** How many more steps the workers can take at most. */
  function Progress<T, R>(job: Job<T, R>, p: Pool<R>): nat
    requires p.next <= |job.items|
  {
    2 * (|job.items| - p.next) + Load(p.workers)
  }

  function Load(workers: seq<Worker>): nat {
    if workers == [] then 0
    else
      var n := |workers| - 1;
      Load(workers[..n]) + match workers[n] case Ready => 1 case Awaiting(_) => 2 case _ => 0
  }

  lemma {:induction false} LoadUpdate(workers: seq<Worker>, w: nat, worker: Worker)
    requires w < |workers|
    ensures Load(workers[w := worker]) == Load(workers) - Load([workers[w]]) + Load([worker])
  {
    var n := |workers| - 1;
    assert [workers[w]][..0] == [] && [worker][..0] == [];
    if w < n {
      assert workers[w := worker][..n] == workers[..n][w := worker];
      LoadUpdate(workers[..n], w, worker);
    } else {
      assert workers[w := worker][..n] == workers[..n];
    }
  }

  lemma ProgressAfter<T, R>(job: Job<T, R>, p: Pool<R>, w: nat)
    requires Consistent(job, p) && CanStep(p, w)
    ensures Step(job, p, w).next <= |job.items|
    ensures Progress(job, Step(job, p, w)) < Progress(job, p)
  {
    var p' := Step(job, p, w);
    if p'.workers != p.workers {
      LoadUpdate(p.workers, w, p'.workers[w]);
      assert [p.workers[w]][..0] == [] && [p'.workers[w]][..0] == [];
    }
  }

  // ---- Every schedule

  /** The schedule names only workers that can go on. */
  ghost predicate IsSchedule<T, R>(job: Job<T, R>, p: Pool<R>, schedule: seq<nat>)
    requires Consistent(job, p)
    decreases |schedule|
  {
    if schedule == [] then true
    else if !CanStep(p, schedule[0]) then false
    else
      StepKeeps(job, p, schedule[0]);
      IsSchedule(job, Step(job, p, schedule[0]), schedule[1..])
  }

  ghost function RunFrom<T, R>(job: Job<T, R>, p: Pool<R>, schedule: seq<nat>): (p': Pool<R>)
    requires Consistent(job, p) && IsSchedule(job, p, schedule)
    ensures Consistent(job, p')
    ensures |schedule| + Progress(job, p') <= Progress(job, p)
    decreases |schedule|
  {
    if schedule == [] then p
    else
      StepKeeps(job, p, schedule[0]);
      RunFrom(job, Step(job, p, schedule[0]), schedule[1..])
  }

  predicate IsDone<R>(p: Pool<R>) {
    forall w :: 0 <= w < |p.workers| ==> !CanStep(p, w)
  }

  /** How many calls are running. */
  function CallsInFlight(workers: seq<Worker>): (n: nat)
    ensures n <= |workers|
  {
    if workers == [] then 0
    else CallsInFlight(workers[..|workers| - 1]) + if workers[|workers| - 1].Awaiting? then 1 else 0
  }

  /**
   * At any moment of any schedule the calls made are those for the items
   * below the cursor, each once and in order, at most `limit` of them are
   * running, and the number of steps is bounded.
   */
  lemma EverySchedule<T, R>(job: Job<T, R>, schedule: seq<nat>)
    requires IsSchedule(job, Start(job), schedule)
    ensures var p := RunFrom(job, Start(job), schedule);
      && p.next <= |job.items|
      && p.calls == Present(job.items, p.next)
      && CallsInFlight(p.workers) <= (if job.limit > 0 then job.limit else 0)
      && |schedule| <= 3 * |job.items|
  {
    LoadOfReady(WorkerCount(job.limit, |job.items|));
  }

  lemma {:induction false} LoadOfReady(n: nat)
    ensures Load(seq(n, _ => Ready)) == n
  {
    if n > 0 {
      assert seq(n, _ => Ready)[..n - 1] == seq(n - 1, _ => Ready);
      LoadOfReady(n - 1);
    }
  }

  /**
   * The limit is no lower than it says: when every item is there, some
   * schedule has a call running for each of `limit` items, or for all of them
   * if they are fewer.
   */
  lemma LimitIsReached<T, R>(job: Job<T, R>) returns (schedule: seq<nat>)
    requires job.limit >= 1 && forall i :: 0 <= i < |job.items| ==> job.items[i].Some?
    ensures IsSchedule(job, Start(job), schedule)
    ensures CallsInFlight(RunFrom(job, Start(job), schedule).workers)
      == if job.limit < |job.items| then job.limit else |job.items|
  {
    schedule := StartFrom(job, Start(job));
  }

  /** Each worker that has not begun claims an item in turn. */
  lemma StartFrom<T, R>(job: Job<T, R>, p: Pool<R>) returns (schedule: seq<nat>)
    requires Consistent(job, p) && forall i :: 0 <= i < |job.items| ==> job.items[i].Some?
    requires p.next <= |p.workers|
    requires forall w :: 0 <= w < |p.workers| ==> p.workers[w] == if w < p.next then Awaiting(w) else Ready
    ensures IsSchedule(job, p, schedule)
    ensures CallsInFlight(RunFrom(job, p, schedule).workers) == |p.workers|
    decreases |p.workers| - p.next
  {
    if p.next == |p.workers| {
      AllInFlight(p.workers);
      schedule := [];
    } else {
      hide Consistent, RunFrom;
      StepKeeps(job, p, p.next);
      ClaimsOf(job, p, p.next);
      WorkersAreFewer(job, p);
      var rest := StartFrom(job, Step(job, p, p.next));
      ScheduleCons(job, p, p.next, rest);
      schedule := [p.next] + rest;
    }
  }

  lemma WorkersAreFewer<T, R>(job: Job<T, R>, p: Pool<R>)
    requires Consistent(job, p)
    ensures |p.workers| <= |job.items|
  {
  }

  lemma ScheduleCons<T, R>(job: Job<T, R>, p: Pool<R>, w: nat, rest: seq<nat>)
    requires Consistent(job, p) && CanStep(p, w) && Consistent(job, Step(job, p, w))
    requires IsSchedule(job, Step(job, p, w), rest)
    ensures IsSchedule(job, p, [w] + rest)
    ensures RunFrom(job, p, [w] + rest) == RunFrom(job, Step(job, p, w), rest)
  {
    assert ([w] + rest)[1..] == rest;
  }

  lemma {:induction false} AllInFlight(workers: seq<Worker>)
    requires forall w :: 0 <= w < |workers| ==> workers[w].Awaiting?
    ensures CallsInFlight(workers) == |workers|
  {
    if workers != [] {
      AllInFlight(workers[..|workers| - 1]);
    }
  }

  /**
   * When no worker can go on, and there was at least one: some worker threw
   * exactly when some item's call is rejected, and otherwise every item was
   * mapped and the answers are the pointwise map in input order.
   */
  lemma WhenDone<T, R>(job: Job<T, R>, schedule: seq<nat>)
    requires IsSchedule(job, Start(job), schedule)
    requires IsDone(RunFrom(job, Start(job), schedule)) && job.limit >= 1
    ensures var p := RunFrom(job, Start(job), schedule);
      && |p.results| == |job.items|
      && (Threw in p.workers <==>
            exists i :: 0 <= i < |job.items| && job.items[i].Some? && job.call(job.items[i].value).Err?)
      && (Threw !in p.workers ==>
            && p.calls == Present(job.items, |job.items|)
            && forall i :: 0 <= i < |job.items| ==>
                if job.items[i] == None then p.results[i] == None
                else p.results[i].Some? && job.call(job.items[i].value) == Ok(p.results[i].value))
  {
    var p := RunFrom(job, Start(job), schedule);
    assert AnyThrew(p) <==> Threw in p.workers;
    assert forall i :: 0 <= i < |job.items| ==>
      (IsRejected(job, i) <==> job.items[i].Some? && job.call(job.items[i].value).Err?);
    hide RunFrom;
    forall w | 0 <= w < |p.workers| ensures p.workers[w].Finished? || p.workers[w].Threw? {
      assert !CanStep(p, w);
    }
    if !AnyThrew(p) && |job.items| > 0 {
      assert p.workers[0].Finished?;
      forall i | 0 <= i < |job.items|
        ensures p.results[i] == Expected(job, i) && !IsRejected(job, i)
      {
        assert IsAnswered(job, p, i) && !InFlight(p, i);
      }
    }
  }

  /** Without a worker nothing is called and every answer is a hole. */
  lemma WithoutWorkers<T, R>(job: Job<T, R>)
    requires job.limit <= 0
    ensures IsDone(Start(job)) && Start(job).calls == []
    ensures forall i :: 0 <= i < |job.items| ==> Start(job).results[i] == None
  {
  }
}
