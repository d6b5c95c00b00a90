/**
 What the event loop is free to do: as many workers at once as there are permits,
 results queued without bound, and any interleaving of the workers delivered.
 */
module MergeFreedom {
  import opened ConcurrentStream
  import opened Keyset
  import opened MergeOrder
  import opened Nostr

  ghost function OnNetwork(pool: Pool, workers: set<nat>, network: nat): set<nat> {
    set i | i in workers && i < |pool.network| && pool.network[i] == network
  }

  /** No network has more of these workers than permits. */
  ghost predicate FitsPermits(pool: Pool, workers: set<nat>) {
    && (forall i :: i in workers ==> i < |pool.network|)
    && (forall n :: |OnNetwork(pool, workers, n)| <= pool.maxTasks(n))
  }

  /** Exactly these workers hold a permit, and nothing else has happened. */
  ghost predicate OnlyHeld<R>(outputs: seq<seq<R>>, s: State<R>, workers: set<nat>) {
    && |s.status| == |outputs| && s == Init(outputs).(status := s.status)
    && forall i: nat :: i < |outputs| ==> s.status[i] == if i in workers then Holding else Waiting
  }

  lemma NextHolder<R>(pool: Pool, outputs: seq<seq<R>>, s: State<R>, workers: set<nat>, w: nat)
    requires |outputs| == |pool.network| && w !in workers && FitsPermits(pool, workers + {w})
    requires OnlyHeld(outputs, s, workers) && Shaped(pool, s)
    ensures OnlyHeld(outputs, Step(pool, s, Acquire(w)), workers + {w})
  {
    var n := pool.network[w];
    var held, all := Holders(pool, s.status, n), OnNetwork(pool, workers + {w}, n);
    forall i | i in held ensures i in all {
    }
    assert w in all && w !in held;
    SubsetSize(held + {w}, all);
    assert Enabled(pool, s, Acquire(w));
  }

  /** As many workers as there are permits can hold one at the same time. */
  lemma {:induction false} PermitsCanAllBeHeld<R>(pool: Pool, outputs: seq<seq<R>>, workers: set<nat>)
    returns (schedule: seq<Action>)
    requires |outputs| == |pool.network| && FitsPermits(pool, workers)
    ensures OnlyHeld(outputs, Run(pool, Init(outputs), schedule), workers)
    decreases |workers|
  {
    if workers == {} {
      schedule := [];
    } else {
      var w :| w in workers;
      var others := workers - {w};
      FewerFit(pool, workers, others);
      var before := PermitsCanAllBeHeld(pool, outputs, others);
      assert others + {w} == workers;
      NextHolder(pool, outputs, Run(pool, Init(outputs), before), others, w);
      RunMore(pool, Init(outputs), before, Acquire(w));
      schedule := before + [Acquire(w)];
    }
  }

  lemma FewerFit(pool: Pool, workers: set<nat>, others: set<nat>)
    requires FitsPermits(pool, workers) && others <= workers
    ensures FitsPermits(pool, others)
  {
    forall n ensures |OnNetwork(pool, others, n)| <= pool.maxTasks(n) {
      SubsetSize(OnNetwork(pool, others, n), OnNetwork(pool, workers, n));
    }
  }

  // ----- Any interleaving -----

  function Queued<R>(results: seq<Result<R>>): (queue: seq<Option<Result<R>>>)
    ensures |queue| == |results| && forall k :: 0 <= k < |results| ==> queue[k] == Some(results[k])
  {
    if results == [] then [] else [Some(results[0])] + Queued(results[1..])
  }

  /** Results of the workers, those of each worker being its next ones. */
  ghost predicate AreNext<R>(outputs: seq<seq<R>>, results: seq<Result<R>>) {
    FromWorkers(results, |outputs|) && forall i: nat :: i < |outputs| ==> Of(results, i) <= outputs[i]
  }

  predicate IsLeft<R(==)>(output: seq<R>, left: seq<R>, done: nat) {
    done <= |output| && left == output[done..]
  }

  /** Every worker holds a permit, the results are queued, and none is taken yet. */
  ghost predicate AllQueued<R>(outputs: seq<seq<R>>, s: State<R>, results: seq<Result<R>>) {
    && |s.status| == |s.remaining| == |outputs| && s.queue == Queued(results)
    && s.delivered == [] && !s.closed && !s.finished
    && (forall i: nat :: i < |outputs| ==> s.status[i] == Holding)
    && (forall i: nat :: i < |outputs| ==> IsLeft(outputs[i], s.remaining[i], |Of(results, i)|))
  }

  lemma NextIsQueued<R>(pool: Pool, outputs: seq<seq<R>>, s: State<R>, results: seq<Result<R>>, next: Result<R>)
    requires Shaped(pool, s) && |pool.network| == |outputs|
    requires AreNext(outputs, results + [next]) && AllQueued(outputs, s, results)
    ensures AllQueued(outputs, Step(pool, s, Produce(next.worker)), results + [next])
  {
    var w, more := next.worker, results + [next];
    assert more[|results|] == next;
    NextOfWorker(outputs[w], s.remaining[w], results, next);
    var t := Step(pool, s, Produce(w));
    forall i: nat | i < |outputs| ensures IsLeft(outputs[i], t.remaining[i], |Of(more, i)|) {
      OfOneMore(results, next, i);
    }
    assert Queued(more) == Queued(results) + [Some(next)];
  }

  lemma NextOfWorker<R>(output: seq<R>, left: seq<R>, results: seq<Result<R>>, next: Result<R>)
    requires Of(results + [next], next.worker) <= output && IsLeft(output, left, |Of(results, next.worker)|)
    ensures left != [] && left[0] == next.value && IsLeft(output, left[1..], |Of(results + [next], next.worker)|)
  {
    OfOneMore(results, next, next.worker);
    assert Of(results + [next], next.worker)[|Of(results, next.worker)|] == next.value;
  }

  lemma FewerAreNext<R>(outputs: seq<seq<R>>, results: seq<Result<R>>, next: Result<R>)
    requires AreNext(outputs, results + [next])
    ensures AreNext(outputs, results)
  {
    var more := results + [next];
    forall k | 0 <= k < |results| ensures results[k].worker < |outputs| {
      assert more[k] == results[k];
    }
    forall i: nat | i < |outputs| ensures Of(results, i) <= outputs[i] {
      OfOneMore(results, next, i);
      assert Of(results, i) <= Of(more, i);
    }
  }

  ghost predicate AreWorkers<R>(outputs: seq<seq<R>>, workers: set<nat>) {
    forall i: nat :: i in workers <==> i < |outputs|
  }

  /** The workers can hand over everything before the consumer takes anything, in any order. */
  lemma {:induction false} AnyOrderCanBeQueued<R>(pool: Pool, outputs: seq<seq<R>>, workers: set<nat>,
          results: seq<Result<R>>)
    returns (schedule: seq<Action>)
    requires |outputs| == |pool.network| && AreNext(outputs, results)
    requires AreWorkers(outputs, workers) && FitsPermits(pool, workers)
    ensures AllQueued(outputs, Run(pool, Init(outputs), schedule), results)
    decreases |results|
  {
    if results == [] {
      schedule := PermitsCanAllBeHeld(pool, outputs, workers);
    } else {
      var most, next := results[..|results| - 1], results[|results| - 1];
      assert results == most + [next];
      FewerAreNext(outputs, most, next);
      var before := AnyOrderCanBeQueued(pool, outputs, workers, most);
      NextIsQueued(pool, outputs, Run(pool, Init(outputs), before), most, next);
      RunMore(pool, Init(outputs), before, Produce(next.worker));
      schedule := before + [Produce(next.worker)];
    }
  }

  ghost predicate HasTaken<R>(t: State<R>, results: seq<Result<R>>, k: nat)
    requires k <= |results|
  {
    t.queue == Queued(results)[k..] && t.delivered == results[..k] && !t.finished
  }

  lemma NextIsTaken<R>(pool: Pool, t: State<R>, results: seq<Result<R>>, k: nat)
    requires Shaped(pool, t) && k < |results| && HasTaken(t, results, k)
    ensures HasTaken(Step(pool, t, Get), results, k + 1)
  {
    assert t.queue[0] == Some(results[k]);
    assert results[..k + 1] == results[..k] + [results[k]];
    assert Queued(results)[k..][1..] == Queued(results)[k + 1..];
  }

  lemma {:induction false} QueueCanBeTaken<R>(pool: Pool, s: State<R>, schedule: seq<Action>, results: seq<Result<R>>,
          k: nat)
    returns (longer: seq<Action>)
    requires Shaped(pool, s) && k <= |results|
    requires var t := Run(pool, s, schedule); t.queue == Queued(results) && t.delivered == [] && !t.finished
    ensures HasTaken(Run(pool, s, longer), results, k)
  {
    if k == 0 {
      longer := schedule;
    } else {
      var before := QueueCanBeTaken(pool, s, schedule, results, k - 1);
      RunMore(pool, s, before, Get);
      NextIsTaken(pool, Run(pool, s, before), results, k - 1);
      longer := before + [Get];
    }
  }

  /** Every interleaving of the outputs, or of prefixes of them, is delivered on some schedule. */
  lemma EveryOrderIsPossible<R>(pool: Pool, outputs: seq<seq<R>>, workers: set<nat>, results: seq<Result<R>>)
    returns (schedule: seq<Action>)
    requires |outputs| == |pool.network| && AreNext(outputs, results)
    requires AreWorkers(outputs, workers) && FitsPermits(pool, workers)
    ensures Run(pool, Init(outputs), schedule).delivered == results
  {
    var before := AnyOrderCanBeQueued(pool, outputs, workers, results);
    schedule := QueueCanBeTaken(pool, Init(outputs), before, results, |results|);
    assert results[..|results|] == results;
  }
}
