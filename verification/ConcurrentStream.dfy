/**
 The merge of concurrent workers into one stream: a task per item, a queue that
 all of them feed, a sentinel when the task group is over, and a bounded number
 of permits per network.

 A schedule is a sequence of actions, one per point where the event loop may
 switch. An action that is not enabled leaves the state as it is.
 */
module ConcurrentStream {
  import opened Batches
  import opened Nostr

  /** A worker waits for its permit, holds it, or has ended, by exhaustion or by an exception. */
  datatype Status = Waiting | Holding | Exhausted | Failed

  /** A result, with the worker that made it. */
  datatype Result<R> = Result(worker: nat, value: R)

  datatype Pool = Pool(network: seq<nat>, maxTasks: nat -> nat)

  /** In the queue `None` is the sentinel. */
  datatype State<R> = State(
    remaining: seq<seq<R>>, status: seq<Status>, queue: seq<Option<Result<R>>>,
    delivered: seq<Result<R>>, closed: bool, finished: bool)

  datatype Action = Acquire(worker: nat) | Produce(worker: nat) | Exhaust(worker: nat) | Fail(worker: nat) | Close | Get

  predicate Ended(s: Status) { s == Exhausted || s == Failed }

  function Holders(pool: Pool, status: seq<Status>, network: nat): set<nat>
    requires |status| == |pool.network|
  {
    set i | 0 <= i < |status| && status[i] == Holding && pool.network[i] == network
  }

  function Init<R>(outputs: seq<seq<R>>): State<R> {
    State(outputs, seq(|outputs|, _ => Waiting), [], [], false, false)
  }

  predicate Shaped<R>(pool: Pool, s: State<R>) {
    |s.remaining| == |s.status| == |pool.network|
  }

  predicate Enabled<R>(pool: Pool, s: State<R>, a: Action)
    requires Shaped(pool, s)
  {
    match a
    case Acquire(i) =>
      && i < |s.status| && s.status[i] == Waiting
      && |Holders(pool, s.status, pool.network[i])| < pool.maxTasks(pool.network[i])
    case Produce(i) => i < |s.status| && s.status[i] == Holding && s.remaining[i] != []
    case Exhaust(i) => i < |s.status| && s.status[i] == Holding && s.remaining[i] == []
    case Fail(i) => i < |s.status| && !Ended(s.status[i])
    case Close => !s.closed && forall i :: 0 <= i < |s.status| ==> Ended(s.status[i])
    case Get => !s.finished && s.queue != []
  }

  function Step<R>(pool: Pool, s: State<R>, a: Action): (t: State<R>)
    requires Shaped(pool, s)
    ensures Shaped(pool, t)
  {
    if !Enabled(pool, s, a) then s
    else
      match a
      case Acquire(i) => s.(status := s.status[i := Holding])
      case Produce(i) =>
        s.(remaining := s.remaining[i := s.remaining[i][1..]],
           queue := s.queue + [Some(Result(i, s.remaining[i][0]))])
      case Exhaust(i) => s.(status := s.status[i := Exhausted])
      case Fail(i) => s.(status := s.status[i := Failed])
      case Close => s.(closed := true, queue := s.queue + [None])
      case Get =>
        match s.queue[0]
        case None => s.(finished := true, queue := s.queue[1..])
        case Some(result) => s.(delivered := s.delivered + [result], queue := s.queue[1..])
  }

  function Run<R>(pool: Pool, s: State<R>, schedule: seq<Action>): (t: State<R>)
    requires Shaped(pool, s)
    ensures Shaped(pool, t)
    decreases |schedule|
  {
    if schedule == [] then s
    else Step(pool, Run(pool, s, schedule[..|schedule| - 1]), schedule[|schedule| - 1])
  }

  /** The bridge as the services use it: every method is one atomic step of a task. */
  class Bridge<R> {
    const pool: Pool
    var remaining: seq<seq<R>>
    var status: seq<Status>
    var queue: seq<Option<Result<R>>>
    var delivered: seq<Result<R>>
    var closed: bool
    var finished: bool

    ghost predicate Valid()
      reads this
    {
      Shaped(pool, Contents())
    }

    function Contents(): State<R>
      reads this
    {
      State(remaining, status, queue, delivered, closed, finished)
    }

    constructor (pool: Pool, outputs: seq<seq<R>>)
      requires |outputs| == |pool.network|
      ensures this.pool == pool && Valid() && Contents() == Init(outputs)
    {
      this.pool := pool;
      remaining := outputs;
      status := seq(|outputs|, _ => Waiting);
      queue := [];
      delivered := [];
      closed := false;
      finished := false;
    }

    /** `async with semaphore` */
    method AcquirePermit(i: nat)
      requires Valid() && Enabled(pool, Contents(), Acquire(i))
      modifies this
      ensures Valid() && Contents() == Step(pool, old(Contents()), Acquire(i))
    {
      status := status[i := Holding];
    }

    /** The worker yields and the task puts the result into the queue. */
    method PutResult(i: nat)
      requires Valid() && Enabled(pool, Contents(), Produce(i))
      modifies this
      ensures Valid() && Contents() == Step(pool, old(Contents()), Produce(i))
    {
      var result := remaining[i][0];
      remaining := remaining[i := remaining[i][1..]];
      queue := queue + [Some(Result(i, result))];
    }

    method EndWorker(i: nat, failed: bool)
      requires Valid() && Enabled(pool, Contents(), if failed then Fail(i) else Exhaust(i))
      modifies this
      ensures Valid() && Contents() == Step(pool, old(Contents()), if failed then Fail(i) else Exhaust(i))
    {
      status := status[i := if failed then Failed else Exhausted];
    }

    /** The task group is over: the runner puts the sentinel. */
    method PutSentinel()
      requires Valid() && Enabled(pool, Contents(), Close)
      modifies this
      ensures Valid() && Contents() == Step(pool, old(Contents()), Close)
    {
      closed := true;
      queue := queue + [None];
    }

    /** The consumer takes the head of the queue and stops at the sentinel. */
    method GetResult() returns (result: Option<Result<R>>)
      requires Valid() && Enabled(pool, Contents(), Get)
      modifies this
      ensures Valid() && Contents() == Step(pool, old(Contents()), Get)
      ensures result == old(queue)[0]
    {
      result := queue[0];
      queue := queue[1..];
      if result.None? {
        finished := true;
      } else {
        delivered := delivered + [result.value];
      }
    }

    /** Lets the event loop run one step; what the consumer got, if it was its turn. */
    method RunStep(a: Action) returns (got: seq<Result<R>>)
      requires Valid() && Enabled(pool, Contents(), a)
      modifies this
      ensures Valid() && Contents() == Step(pool, old(Contents()), a)
      ensures delivered == old(delivered) + got
    {
      got := [];
      match a {
        case Acquire(i) => AcquirePermit(i);
        case Produce(i) => PutResult(i);
        case Exhaust(i) => EndWorker(i, false);
        case Fail(i) => EndWorker(i, true);
        case Close => PutSentinel();
        case Get =>
          var result := GetResult();
          if result.Some? {
            got := [result.value];
          }
      }
    }
  }

  // ----- Conservation -----

  function OfOne<R>(result: Result<R>, i: nat): seq<R> {
    if result.worker == i then [result.value] else []
  }

  /** The results of worker `i`. */
  function Of<R>(results: seq<Result<R>>, i: nat): seq<R> {
    if results == [] then [] else OfOne(results[0], i) + Of(results[1..], i)
  }

  function ValueOf<R>(item: Option<Result<R>>): seq<Result<R>> {
    if item.Some? then [item.value] else []
  }

  function Values<R>(queue: seq<Option<Result<R>>>): seq<Result<R>> {
    if queue == [] then [] else ValueOf(queue[0]) + Values(queue[1..])
  }

  lemma {:induction false} OfConcat<R>(a: seq<Result<R>>, b: seq<Result<R>>, i: nat)
    ensures Of(a + b, i) == Of(a, i) + Of(b, i)
  {
    if a == [] {
      assert a + b == b;
    } else {
      assert (a + b)[1..] == a[1..] + b;
      OfConcat(a[1..], b, i);
      var head, tail := OfOne(a[0], i), Of(a[1..], i);
      assert head + (tail + Of(b, i)) == (head + tail) + Of(b, i);
    }
  }

  lemma {:induction false} ValuesConcat<R>(a: seq<Option<Result<R>>>, b: seq<Option<Result<R>>>)
    ensures Values(a + b) == Values(a) + Values(b)
  {
    if a == [] {
      assert a + b == b;
    } else {
      assert (a + b)[1..] == a[1..] + b;
      ValuesConcat(a[1..], b);
      var head, tail := ValueOf(a[0]), Values(a[1..]);
      assert head + (tail + Values(b)) == (head + tail) + Values(b);
    }
  }

  /** What worker `i` has handed over, what is queued and what it has still to produce make up its output. */
  ghost predicate ConservedFor<R>(outputs: seq<seq<R>>, s: State<R>, i: nat)
    requires i < |s.remaining| && i < |outputs|
  {
    Of(s.delivered, i) + (Of(Values(s.queue), i) + s.remaining[i]) == outputs[i]
  }

  ghost predicate Conserved<R>(outputs: seq<seq<R>>, s: State<R>) {
    && |s.remaining| == |outputs|
    && forall i :: 0 <= i < |outputs| ==> ConservedFor(outputs, s, i)
  }

  /** The sentinel comes last, after every worker has ended; exhausted workers have nothing left. */
  ghost predicate Orderly<R>(s: State<R>) {
    && |s.remaining| == |s.status|
    && (forall i :: 0 <= i < |s.status| && s.status[i] == Exhausted ==> s.remaining[i] == [])
    && (s.closed ==> forall i :: 0 <= i < |s.status| ==> Ended(s.status[i]))
    && (forall j :: 0 <= j < |s.queue| && s.queue[j] == None ==> j == |s.queue| - 1)
    && (s.closed && !s.finished ==> s.queue != [] && s.queue[|s.queue| - 1] == None)
    && (!s.closed ==> !s.finished && forall j :: 0 <= j < |s.queue| ==> s.queue[j].Some?)
    && (s.finished ==> s.queue == [])
  }

  ghost predicate WithinLimits<R>(pool: Pool, s: State<R>) {
    && Shaped(pool, s)
    && forall n :: |Holders(pool, s.status, n)| <= pool.maxTasks(n)
  }

  lemma OfOneMore<R>(results: seq<Result<R>>, result: Result<R>, i: nat)
    ensures Of(results + [result], i) == Of(results, i) + OfOne(result, i)
  {
    OfConcat(results, [result], i);
    assert OfOne(result, i) + [] == OfOne(result, i);
  }

  lemma ValuesOneMore<R>(queue: seq<Option<Result<R>>>, item: Option<Result<R>>)
    ensures Values(queue + [item]) == Values(queue) + ValueOf(item)
  {
    ValuesConcat(queue, [item]);
    assert ValueOf(item) + [] == ValueOf(item);
  }

  lemma ProduceConserves<R>(queue: seq<Option<Result<R>>>, i: nat, remaining: seq<R>)
    requires remaining != []
    ensures Of(Values(queue + [Some(Result(i, remaining[0]))]), i) + remaining[1..] == Of(Values(queue), i) + remaining
  {
    var made := Result(i, remaining[0]);
    ValuesOneMore(queue, Some(made));
    OfOneMore(Values(queue), made, i);
    Regroup(Of(Values(queue), i), [remaining[0]], remaining[1..]);
    assert [remaining[0]] + remaining[1..] == remaining;
  }

  lemma OthersProduce<R>(queue: seq<Option<Result<R>>>, made: Result<R>, i: nat)
    requires made.worker != i
    ensures Of(Values(queue + [Some(made)]), i) == Of(Values(queue), i)
  {
    ValuesOneMore(queue, Some(made));
    OfOneMore(Values(queue), made, i);
    assert Of(Values(queue), i) + [] == Of(Values(queue), i);
  }

  lemma GetConserves<R>(queue: seq<Option<Result<R>>>, delivered: seq<Result<R>>, i: nat, left: seq<R>)
    requires queue != [] && queue[0].Some?
    ensures Of(delivered + [queue[0].value], i) + (Of(Values(queue[1..]), i) + left)
         == Of(delivered, i) + (Of(Values(queue), i) + left)
  {
    var got, rest := queue[0].value, Values(queue[1..]);
    OfOneMore(delivered, got, i);
    assert Values(queue) == [got] + rest;
    assert ([got] + rest)[1..] == rest;
    Regroup(Of(delivered, i), OfOne(got, i), Of(rest, i) + left);
    Regroup(OfOne(got, i), Of(rest, i), left);
  }

  lemma StepConservesFor<R>(pool: Pool, outputs: seq<seq<R>>, s: State<R>, a: Action, i: nat)
    requires Shaped(pool, s) && Enabled(pool, s, a) && i < |s.remaining| == |outputs| && ConservedFor(outputs, s, i)
    ensures ConservedFor(outputs, Step(pool, s, a), i)
  {
    match a {
      case Produce(w) =>
        if i == w {
          ProduceConserves(s.queue, w, s.remaining[w]);
        } else {
          OthersProduce(s.queue, Result(w, s.remaining[w][0]), i);
        }
      case Close =>
        ValuesOneMore(s.queue, None);
        assert Values(s.queue) + [] == Values(s.queue);
      case Get =>
        if s.queue[0].Some? {
          GetConserves(s.queue, s.delivered, i, s.remaining[i]);
        } else {
          assert [] + Values(s.queue[1..]) == Values(s.queue[1..]);
        }
      case _ =>
    }
  }

  lemma StepConserves<R>(pool: Pool, outputs: seq<seq<R>>, s: State<R>, a: Action)
    requires Shaped(pool, s) && Conserved(outputs, s)
    ensures Conserved(outputs, Step(pool, s, a))
  {
    if Enabled(pool, s, a) {
      forall i | 0 <= i < |outputs| ensures ConservedFor(outputs, Step(pool, s, a), i) {
        StepConservesFor(pool, outputs, s, a, i);
      }
    }
  }

  lemma StepKeepsOrder<R>(pool: Pool, s: State<R>, a: Action)
    requires Shaped(pool, s) && Orderly(s)
    ensures Orderly(Step(pool, s, a))
  {
    if a == Get && Enabled(pool, s, a) {
      var t := Step(pool, s, a);
      assert t.queue == s.queue[1..];
      assert forall j :: 0 <= j < |t.queue| ==> t.queue[j] == s.queue[j + 1];
    }
  }

  lemma HoldersOnRelease(pool: Pool, status: seq<Status>, i: nat, ended: Status, n: nat)
    requires |status| == |pool.network| && i < |status| && ended != Holding
    ensures |Holders(pool, status[i := ended], n)| <= |Holders(pool, status, n)|
  {
    var before, after := Holders(pool, status, n), Holders(pool, status[i := ended], n);
    assert after <= before;
    assert before == after + (before - after);
  }

  lemma HoldersOnAcquire(pool: Pool, status: seq<Status>, i: nat, n: nat)
    requires |status| == |pool.network| && i < |status|
    ensures |Holders(pool, status[i := Holding], n)|
         <= |Holders(pool, status, n)| + (if pool.network[i] == n then 1 else 0)
  {
    var before, after := Holders(pool, status, n), Holders(pool, status[i := Holding], n);
    assert forall j :: j in after ==> j in before || (j == i && pool.network[i] == n);
    if pool.network[i] == n {
      assert after <= before + {i};
      var extra := before + {i} - after;
      assert before + {i} == after + extra;
    } else {
      assert before == after + (before - after);
    }
  }

  lemma StepKeepsLimits<R>(pool: Pool, s: State<R>, a: Action)
    requires WithinLimits(pool, s)
    ensures WithinLimits(pool, Step(pool, s, a))
  {
    if Enabled(pool, s, a) {
      var t := Step(pool, s, a);
      forall n ensures |Holders(pool, t.status, n)| <= pool.maxTasks(n) {
        match a {
          case Acquire(i) => HoldersOnAcquire(pool, s.status, i, n);
          case Exhaust(i) => HoldersOnRelease(pool, s.status, i, Exhausted, n);
          case Fail(i) => HoldersOnRelease(pool, s.status, i, Failed, n);
          case _ => assert t.status == s.status;
        }
      }
    }
  }

  /** Conservation, the discipline of the sentinel and the permit limits hold on every schedule. */
  lemma {:induction false} EverySchedule<R>(pool: Pool, outputs: seq<seq<R>>, schedule: seq<Action>)
    requires |outputs| == |pool.network|
    ensures var s := Run(pool, Init(outputs), schedule);
            Conserved(outputs, s) && Orderly(s) && WithinLimits(pool, s)
    decreases |schedule|
  {
    var s0 := Init(outputs);
    if schedule == [] {
      forall i | 0 <= i < |outputs| ensures ConservedFor(outputs, s0, i) {
        assert [] + ([] + outputs[i]) == outputs[i];
      }
      forall n ensures Holders(pool, s0.status, n) == {} {
      }
    } else {
      var rest, a := schedule[..|schedule| - 1], schedule[|schedule| - 1];
      EverySchedule(pool, outputs, rest);
      var s := Run(pool, s0, rest);
      StepConserves(pool, outputs, s, a);
      StepKeepsOrder(pool, s, a);
      StepKeepsLimits(pool, s, a);
    }
  }

  /** At any time the consumer holds a prefix of what each worker produces, in its order. */
  lemma DeliversPrefixes<R>(pool: Pool, outputs: seq<seq<R>>, schedule: seq<Action>, i: nat)
    requires |outputs| == |pool.network| && i < |outputs|
    ensures Of(Run(pool, Init(outputs), schedule).delivered, i) <= outputs[i]
  {
    EverySchedule(pool, outputs, schedule);
    var s := Run(pool, Init(outputs), schedule);
    var got, rest := Of(s.delivered, i), Of(Values(s.queue), i) + s.remaining[i];
    assert ConservedFor(outputs, s, i) && got <= got + rest;
  }

  /** After a normal exit every worker has ended, and all it produced has been delivered. */
  lemma NormalExitDeliversAll<R>(pool: Pool, outputs: seq<seq<R>>, schedule: seq<Action>, i: nat)
    requires |outputs| == |pool.network| && i < |outputs|
    requires Run(pool, Init(outputs), schedule).finished
    ensures var s := Run(pool, Init(outputs), schedule);
            && Ended(s.status[i])
            && Of(s.delivered, i) + s.remaining[i] == outputs[i]
            && (s.status[i] == Exhausted ==> Of(s.delivered, i) == outputs[i])
  {
    EverySchedule(pool, outputs, schedule);
    var s := Run(pool, Init(outputs), schedule);
    assert ConservedFor(outputs, s, i) && Of(Values(s.queue), i) == [];
    assert [] + s.remaining[i] == s.remaining[i] && Of(s.delivered, i) + [] == Of(s.delivered, i);
  }

  /** With a permit for every network the merge never gets stuck before its consumer is done. */
  lemma NoDeadlock<R>(pool: Pool, outputs: seq<seq<R>>, schedule: seq<Action>)
    requires |outputs| == |pool.network| && forall n :: pool.maxTasks(n) >= 1
    requires !Run(pool, Init(outputs), schedule).finished
    ensures exists a: Action :: !a.Fail? && Enabled(pool, Run(pool, Init(outputs), schedule), a)
  {
    EverySchedule(pool, outputs, schedule);
    var s := Run(pool, Init(outputs), schedule);
    if s.queue != [] {
      assert Enabled(pool, s, Get);
    } else if forall i :: 0 <= i < |s.status| ==> Ended(s.status[i]) {
      assert Enabled(pool, s, Close);
    } else if i :| 0 <= i < |s.status| && s.status[i] == Holding {
      assert Enabled(pool, s, if s.remaining[i] == [] then Exhaust(i) else Produce(i));
    } else {
      var i :| 0 <= i < |s.status| && !Ended(s.status[i]);
      assert Holders(pool, s.status, pool.network[i]) == {};
      assert Enabled(pool, s, Acquire(i));
    }
  }

  // ----- The whole merge -----

  function StatusWork(s: Status): nat {
    match s case Waiting => 2 case Holding => 1 case _ => 0
  }

  /** The steps the workers have still to make; a result counts twice, for it is put and taken. */
  function Work<R>(remaining: seq<seq<R>>, status: seq<Status>): nat
    requires |remaining| == |status|
  {
    if remaining == [] then 0
    else 2 * |remaining[0]| + StatusWork(status[0]) + Work(remaining[1..], status[1..])
  }

  function StepsLeft<R>(pool: Pool, s: State<R>): nat
    requires Shaped(pool, s)
  {
    Work(s.remaining, s.status) + |s.queue| + (if s.closed then 0 else 2) + (if s.finished then 0 else 1)
  }

  lemma {:induction false} WorkOfUpdate<R>(remaining: seq<seq<R>>, status: seq<Status>, i: nat, rest: seq<R>,
          next: Status)
    requires |remaining| == |status| && i < |remaining|
    ensures Work(remaining[i := rest], status[i := next]) + 2 * |remaining[i]| + StatusWork(status[i])
         == Work(remaining, status) + 2 * |rest| + StatusWork(next)
  {
    var r, st := remaining[i := rest], status[i := next];
    if i == 0 {
      assert r[1..] == remaining[1..] && st[1..] == status[1..];
    } else {
      WorkOfUpdate(remaining[1..], status[1..], i - 1, rest, next);
      assert r[1..] == remaining[1..][i - 1 := rest] && st[1..] == status[1..][i - 1 := next];
    }
  }

  lemma WorkOfStatus<R>(remaining: seq<seq<R>>, status: seq<Status>, i: nat, next: Status)
    requires |remaining| == |status| && i < |remaining|
    ensures Work(remaining, status[i := next]) + StatusWork(status[i]) == Work(remaining, status) + StatusWork(next)
  {
    WorkOfUpdate(remaining, status, i, remaining[i], next);
    assert remaining[i := remaining[i]] == remaining;
  }

  lemma WorkOfRest<R>(remaining: seq<seq<R>>, status: seq<Status>, i: nat, rest: seq<R>)
    requires |remaining| == |status| && i < |remaining|
    ensures Work(remaining[i := rest], status) + 2 * |remaining[i]| == Work(remaining, status) + 2 * |rest|
  {
    WorkOfUpdate(remaining, status, i, rest, status[i]);
    assert status[i := status[i]] == status;
  }

  /** Every enabled step brings the exit nearer, so no merge goes on for ever. */
  lemma StepsRunOut<R>(pool: Pool, s: State<R>, a: Action)
    requires Shaped(pool, s) && Enabled(pool, s, a)
    ensures StepsLeft(pool, Step(pool, s, a)) < StepsLeft(pool, s)
  {
    match a {
      case Acquire(i) => WorkOfStatus(s.remaining, s.status, i, Holding);
      case Produce(i) => WorkOfRest(s.remaining, s.status, i, s.remaining[i][1..]);
      case Exhaust(i) => WorkOfStatus(s.remaining, s.status, i, Exhausted);
      case Fail(i) => WorkOfStatus(s.remaining, s.status, i, Failed);
      case _ =>
    }
  }

  /** The event loop always runs something that can run, whatever it chooses. */
  ghost predicate PicksEnabled<R(!new)>(pool: Pool, outputs: seq<seq<R>>, pick: (nat, State<R>) -> Action)
    requires |outputs| == |pool.network|
  {
    forall n: nat, log: seq<Action> :: !Run(pool, Init(outputs), log).finished ==>
      Enabled(pool, Run(pool, Init(outputs), log), pick(n, Run(pool, Init(outputs), log)))
  }

  ghost function SomeStep<R>(pool: Pool, s: State<R>): Action {
    if a: Action :| Shaped(pool, s) && Enabled(pool, s, a) then a else Close
  }

  /** There is such a choice. */
  lemma SomethingCanRun<R(!new)>(pool: Pool, outputs: seq<seq<R>>) returns (pick: (nat, State<R>) -> Action)
    requires |outputs| == |pool.network| && forall n :: pool.maxTasks(n) >= 1
    ensures PicksEnabled(pool, outputs, pick)
  {
    pick := (n: nat, s: State<R>) => SomeStep(pool, s);
    forall n: nat, log: seq<Action> | !Run(pool, Init(outputs), log).finished
      ensures Enabled(pool, Run(pool, Init(outputs), log), pick(n, Run(pool, Init(outputs), log)))
    {
      NoDeadlock(pool, outputs, log);
    }
  }

  /** The steps are the ones the event loop chose. */
  ghost predicate Chosen<R(!new)>(pick: (nat, State<R>) -> Action, log: seq<Action>) {
    forall a :: a in log ==> exists n: nat, s: State<R> :: a == pick(n, s)
  }

  lemma RunMore<R>(pool: Pool, s: State<R>, log: seq<Action>, a: Action)
    requires Shaped(pool, s)
    ensures Run(pool, s, log + [a]) == Step(pool, Run(pool, s, log), a)
  {
    assert (log + [a])[..|log|] == log;
  }

  ghost predicate AllWithinLimits<R>(pool: Pool, outputs: seq<seq<R>>, log: seq<Action>)
    requires |outputs| == |pool.network|
  {
    forall k :: 0 <= k <= |log| ==> WithinLimits(pool, Run(pool, Init(outputs), log[..k]))
  }

  /** A worker is missing results only if it failed. */
  ghost predicate YieldsAll<R>(outputs: seq<seq<R>>, yielded: seq<Result<R>>, failed: set<nat>) {
    forall i: nat :: i < |outputs| ==> Of(yielded, i) <= outputs[i] && (i !in failed ==> Of(yielded, i) == outputs[i])
  }

  ghost predicate FailuresAre<R>(s: State<R>, failed: set<nat>) {
    forall i: nat :: i in failed <==> i < |s.status| && s.status[i] == Failed
  }

  /**
   The whole merge: the event loop runs the workers, the runner and the consumer in
   any order until the consumer meets the sentinel. It always ends, the results of
   every worker arrive in order, all of them unless it failed, and at no time does a
   network have more holders than permits.
   */
  method IterConcurrent<R(!new)>(pool: Pool, outputs: seq<seq<R>>, pick: (nat, State<R>) -> Action)
    returns (yielded: seq<Result<R>>, failed: set<nat>, ghost log: seq<Action>)
    requires |outputs| == |pool.network| && PicksEnabled(pool, outputs, pick)
    ensures YieldsAll(outputs, yielded, failed)
    ensures AllWithinLimits(pool, outputs, log)
    ensures var s := Run(pool, Init(outputs), log);
            s.finished && s.delivered == yielded && FailuresAre(s, failed)
    ensures Chosen(pick, log)
  {
    var bridge := new Bridge(pool, outputs);
    yielded, failed, log := [], {}, [];
    var n := 0;
    while !bridge.finished
      invariant bridge.pool == pool && bridge.Valid() && fresh(bridge)
      invariant bridge.Contents() == Run(pool, Init(outputs), log) && bridge.delivered == yielded
      invariant FailuresAre(bridge.Contents(), failed) && Chosen(pick, log)
      decreases StepsLeft(pool, bridge.Contents())
    {
      ghost var s := bridge.Contents();
      var a := pick(n, bridge.Contents());
      assert Enabled(pool, s, a);
      RunMore(pool, Init(outputs), log, a);
      StepsRunOut(pool, s, a);
      var got := bridge.RunStep(a);
      yielded := yielded + got;
      if a.Fail? {
        failed := failed + {a.worker};
      }
      log := log + [a];
      n := n + 1;
    }
    EveryPrefixIsWithinLimits(pool, outputs, log);
    ExitYieldsAll(pool, outputs, log, failed);
  }

  lemma EveryPrefixIsWithinLimits<R>(pool: Pool, outputs: seq<seq<R>>, log: seq<Action>)
    requires |outputs| == |pool.network|
    ensures AllWithinLimits(pool, outputs, log)
  {
    forall k | 0 <= k <= |log| ensures WithinLimits(pool, Run(pool, Init(outputs), log[..k])) {
      EverySchedule(pool, outputs, log[..k]);
    }
  }

  lemma ExitYieldsAll<R>(pool: Pool, outputs: seq<seq<R>>, log: seq<Action>, failed: set<nat>)
    requires |outputs| == |pool.network|
    requires var s := Run(pool, Init(outputs), log); s.finished && FailuresAre(s, failed)
    ensures YieldsAll(outputs, Run(pool, Init(outputs), log).delivered, failed)
  {
    var yielded := Run(pool, Init(outputs), log).delivered;
    forall i: nat | i < |outputs|
      ensures Of(yielded, i) <= outputs[i] && (i !in failed ==> Of(yielded, i) == outputs[i])
    {
      DeliversPrefixes(pool, outputs, log, i);
      NormalExitDeliversAll(pool, outputs, log, i);
    }
  }
}
