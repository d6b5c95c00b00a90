/** What a merge delivers: some order of the heads of its workers' outputs. */
module MergeOrder {
  import opened ConcurrentStream
  import opened Nostr

  /** Taking the next result of one worker after the other, in the given order. */
  function Dealt<R>(outputs: seq<seq<R>>, order: seq<nat>): seq<Result<R>>
    decreases |order|
  {
    if order == [] then []
    else
      var i := order[0];
      if i < |outputs| && outputs[i] != []
      then [Result(i, outputs[i][0])] + Dealt(outputs[i := outputs[i][1..]], order[1..])
      else Dealt(outputs, order[1..])
  }

  function Workers<R>(results: seq<Result<R>>): seq<nat> {
    if results == [] then [] else [results[0].worker] + Workers(results[1..])
  }

  function Results<R>(results: seq<Result<R>>): seq<R> {
    if results == [] then [] else [results[0].value] + Results(results[1..])
  }

  ghost predicate FromWorkers<R>(results: seq<Result<R>>, n: nat) {
    forall k :: 0 <= k < |results| ==> results[k].worker < n
  }

  lemma {:induction false} PrefixesAreDealt<R>(outputs: seq<seq<R>>, results: seq<Result<R>>)
    requires FromWorkers(results, |outputs|)
    requires forall i: nat :: i < |outputs| ==> Of(results, i) <= outputs[i]
    ensures Dealt(outputs, Workers(results)) == results
    decreases |results|
  {
    if results != [] {
      var i, value, rest := results[0].worker, results[0].value, results[1..];
      assert Of(results, i) == [value] + Of(rest, i);
      assert outputs[i][0] == value;
      var next := outputs[i := outputs[i][1..]];
      forall j: nat | j < |next| ensures Of(rest, j) <= next[j] {
        assert j == i ==> Of(rest, j) == Of(results, j)[1..];
        assert Of(results, j) <= outputs[j];
      }
      PrefixesAreDealt(next, rest);
      assert Workers(results)[1..] == Workers(rest);
    }
  }

  lemma {:induction false} ResultsHaveWorkers<R>(pool: Pool, outputs: seq<seq<R>>, schedule: seq<Action>)
    requires |outputs| == |pool.network|
    ensures var s := Run(pool, Init(outputs), schedule);
            FromWorkers(s.delivered, |outputs|) && FromWorkers(Values(s.queue), |outputs|)
    decreases |schedule|
  {
    if schedule != [] {
      var rest, a := schedule[..|schedule| - 1], schedule[|schedule| - 1];
      ResultsHaveWorkers(pool, outputs, rest);
      var s := Run(pool, Init(outputs), rest);
      EverySchedule(pool, outputs, rest);
      StepHasWorkers(pool, s, a);
    }
  }

  lemma StepHasWorkers<R>(pool: Pool, s: State<R>, a: Action)
    requires Shaped(pool, s) && FromWorkers(s.delivered, |pool.network|) && FromWorkers(Values(s.queue), |pool.network|)
    ensures var t := Step(pool, s, a);
            FromWorkers(t.delivered, |pool.network|) && FromWorkers(Values(t.queue), |pool.network|)
  {
    if Enabled(pool, s, a) {
      match a {
        case Produce(i) => ValuesOneMore(s.queue, Some(Result(i, s.remaining[i][0])));
        case Close => ValuesOneMore(s.queue, None);
        case Get => HeadOfQueue(s.queue, |pool.network|);
        case _ =>
      }
    }
  }

  lemma HeadOfQueue<R>(queue: seq<Option<Result<R>>>, n: nat)
    requires queue != [] && FromWorkers(Values(queue), n)
    ensures FromWorkers(Values(queue[1..]), n) && (queue[0].Some? ==> queue[0].value.worker < n)
  {
    if queue[0].Some? {
      var values := Values(queue);
      assert values[0] == queue[0].value && values[1..] == Values(queue[1..]);
      assert forall k :: 0 <= k < |Values(queue[1..])| ==> Values(queue[1..])[k] == values[k + 1];
    } else {
      assert Values(queue) == Values(queue[1..]);
    }
  }

  /** At any time the consumer has taken the next results of the workers, in some order. */
  lemma DeliveredIsDealt<R>(pool: Pool, outputs: seq<seq<R>>, schedule: seq<Action>)
    requires |outputs| == |pool.network|
    ensures var delivered := Run(pool, Init(outputs), schedule).delivered;
            Dealt(outputs, Workers(delivered)) == delivered
  {
    ResultsHaveWorkers(pool, outputs, schedule);
    forall i: nat | i < |outputs| ensures Of(Run(pool, Init(outputs), schedule).delivered, i) <= outputs[i] {
      DeliversPrefixes(pool, outputs, schedule, i);
    }
    PrefixesAreDealt(outputs, Run(pool, Init(outputs), schedule).delivered);
  }

  // ----- Workers with one result each -----

  function Singles<R>(items: seq<R>): (outputs: seq<seq<R>>)
    ensures |outputs| == |items| && forall i :: 0 <= i < |items| ==> outputs[i] == [items[i]]
  {
    seq(|items|, i requires 0 <= i < |items| => [items[i]])
  }

  function Parts<R>(results: seq<Result<R>>, n: nat): multiset<R> {
    if n == 0 then multiset{} else Parts(results, n - 1) + multiset(Of(results, n - 1))
  }

  lemma MultisetConcat<R>(a: seq<R>, b: seq<R>)
    ensures multiset(a + b) == multiset(a) + multiset(b)
  {
  }

  lemma {:induction false} PartsStep<R>(results: seq<Result<R>>, n: nat)
    requires results != []
    ensures Parts(results, n)
         == Parts(results[1..], n) + (if results[0].worker < n then multiset{results[0].value} else multiset{})
  {
    if n > 0 {
      PartsStep(results, n - 1);
      MultisetConcat(OfOne(results[0], n - 1), Of(results[1..], n - 1));
    }
  }

  lemma {:induction false} PartsAreAll<R>(results: seq<Result<R>>, n: nat)
    requires FromWorkers(results, n)
    ensures multiset(Results(results)) == Parts(results, n)
  {
    if results == [] {
      NoParts<R>(n);
    } else {
      assert FromWorkers(results[1..], n);
      PartsAreAll(results[1..], n);
      PartsStep(results, n);
      assert results[0] in results;
    }
  }

  lemma {:induction false} NoParts<R>(n: nat)
    ensures Parts<R>([], n) == multiset{}
  {
    if n > 0 {
      NoParts<R>(n - 1);
    }
  }

  function Total<R>(outputs: seq<seq<R>>): multiset<R> {
    if outputs == [] then multiset{} else Total(outputs[..|outputs| - 1]) + multiset(outputs[|outputs| - 1])
  }

  lemma {:induction false} PartsAreTotal<R>(results: seq<Result<R>>, outputs: seq<seq<R>>)
    requires forall i: nat :: i < |outputs| ==> Of(results, i) == outputs[i]
    ensures Parts(results, |outputs|) == Total(outputs)
    decreases |outputs|
  {
    if outputs != [] {
      PartsAreTotal(results, outputs[..|outputs| - 1]);
    }
  }

  lemma {:induction false} TotalOfSingles<R>(items: seq<R>)
    ensures Total(Singles(items)) == multiset(items)
    decreases |items|
  {
    if items != [] {
      var n := |items| - 1;
      var before, item := items[..n], items[n];
      TotalOfSingles(before);
      assert Singles(items)[..n] == Singles(before);
      assert items == before + [item];
    }
  }

  lemma {:induction false} FailuresAreActions<R>(pool: Pool, outputs: seq<seq<R>>, log: seq<Action>, i: nat)
    requires |outputs| == |pool.network| && i < |outputs|
    requires forall a :: a in log ==> !a.Fail?
    ensures Run(pool, Init(outputs), log).status[i] != Failed
    decreases |log|
  {
    if log != [] {
      assert log[|log| - 1] in log;
      FailuresAreActions(pool, outputs, log[..|log| - 1], i);
    }
  }

  /** If no worker fails and each has one result, the results are the items, in some order. */
  lemma EveryItemArrives<R>(pool: Pool, items: seq<R>, log: seq<Action>)
    requires |items| == |pool.network| && Run(pool, Init(Singles(items)), log).finished
    requires forall a :: a in log ==> !a.Fail?
    ensures multiset(Results(Run(pool, Init(Singles(items)), log).delivered)) == multiset(items)
  {
    var outputs := Singles(items);
    var delivered := Run(pool, Init(outputs), log).delivered;
    forall i: nat | i < |items| ensures Of(delivered, i) == [items[i]] {
      NormalExitDeliversAll(pool, outputs, log, i);
      FailuresAreActions(pool, outputs, log, i);
    }
    ResultsHaveWorkers(pool, outputs, log);
    PartsAreAll(delivered, |items|);
    PartsAreTotal(delivered, outputs);
    TotalOfSingles(items);
  }
}
