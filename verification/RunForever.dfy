/** The cycle loop of a service: a cleanup and then a run, until a shutdown or too many failures in a row. */
module RunForever {

  datatype Outcome = Success | Failure | Signal

  /**
   What one cycle meets: whether the service is running when it begins, how its
   cleanup and its run end, and whether a shutdown request arrives in the wait
   after it. A `Signal` is an exception that is never swallowed.
   */
  datatype Cycle = Cycle(running: bool, cleanup: Outcome, run: Outcome, shutdown: bool)

  datatype Stop = StillRunning | Shutdown | TooManyFailures | Propagated

  datatype Call = Cleanup(index: nat, outcome: Outcome) | Run(index: nat)

  /** The run is reached only through a successful cleanup. */
  function Result(c: Cycle): Outcome {
    if c.cleanup.Success? then c.run else c.cleanup
  }

  /** The last `k` cycles of the history failed. */
  ghost predicate LastFailed(history: seq<Cycle>, k: nat) {
    k <= |history| && forall i :: |history| - k <= i < |history| ==> Result(history[i]).Failure?
  }

  function TrailingFailures(history: seq<Cycle>): nat {
    if history == [] || !Result(history[|history| - 1]).Failure? then 0
    else TrailingFailures(history[..|history| - 1]) + 1
  }

  /** The counter says how long the row of failures at the end is. */
  lemma {:induction false} TrailingFailuresCount(history: seq<Cycle>, k: nat)
    ensures TrailingFailures(history) >= k <==> LastFailed(history, k)
  {
    if history != [] && k > 0 {
      var most := history[..|history| - 1];
      TrailingFailuresCount(most, k - 1);
      if LastFailed(history, k) {
        assert Result(history[|history| - 1]).Failure?;
        assert forall i :: |most| - (k - 1) <= i < |most| ==> most[i] == history[i];
        assert LastFailed(most, k - 1);
      } else if TrailingFailures(history) > 0 && LastFailed(most, k - 1) {
        forall i | |history| - k <= i < |history| ensures Result(history[i]).Failure? {
          assert i < |most| ==> history[i] == most[i];
        }
        assert false;
      }
    }
  }

  /** What the cycle calls, in order. */
  function CallsOf(i: nat, c: Cycle): seq<Call> {
    [Cleanup(i, c.cleanup)] + if c.cleanup.Success? then [Run(i)] else []
  }

  function Calls(history: seq<Cycle>): seq<Call> {
    if history == [] then []
    else Calls(history[..|history| - 1]) + CallsOf(|history| - 1, history[|history| - 1])
  }

  /** Every run comes directly after the successful cleanup of its own cycle. */
  ghost predicate RunsFollowCleanups(calls: seq<Call>) {
    forall k :: 0 <= k < |calls| && calls[k].Run? ==> k > 0 && calls[k - 1] == Cleanup(calls[k].index, Success)
  }

  lemma RunsStillFollow(calls: seq<Call>, i: nat, c: Cycle)
    requires RunsFollowCleanups(calls)
    ensures RunsFollowCleanups(calls + CallsOf(i, c))
  {
  }

  /** The cleanup, and the run if it succeeded; an exception of either ends the cycle. */
  method OneCycle(i: nat, c: Cycle) returns (calls: seq<Call>, outcome: Outcome)
    ensures RunsFollowCleanups(calls) && calls == CallsOf(i, c)
    ensures outcome == Result(c)
  {
    calls := [Cleanup(i, c.cleanup)];
    outcome := c.cleanup;
    if outcome.Success? {
      calls := calls + [Run(i)];
      outcome := c.run;
    }
  }

  /** The limit on failures in a row; zero disables it. */
  ghost predicate LimitReached(history: seq<Cycle>, limit: nat) {
    limit > 0 && LastFailed(history, limit)
  }

  /** Nothing in the first `n` cycles ends the loop. */
  ghost predicate GoesOn(cycles: seq<Cycle>, n: nat, limit: nat)
    requires n <= |cycles|
  {
    forall i: nat :: i < n ==>
      && cycles[i].running && !Result(cycles[i]).Signal? && !cycles[i].shutdown
      && !LimitReached(cycles[..i + 1], limit)
  }

  lemma GoesOnLonger(cycles: seq<Cycle>, n: nat, limit: nat)
    requires n < |cycles| && GoesOn(cycles, n, limit)
    requires cycles[n].running && !Result(cycles[n]).Signal? && !cycles[n].shutdown
        && !LimitReached(cycles[..n + 1], limit)
    ensures GoesOn(cycles, n + 1, limit)
  {
  }

  /**
   The loop over the cycles to come; `StillRunning` if they do not end it. It stops
   for failures in the first cycle that makes the last `limit` ones all failures,
   whatever else happened before.
   */
  method RunForever(cycles: seq<Cycle>, limit: nat)
    returns (n: nat, stop: Stop, consecutiveFailures: nat, calls: seq<Call>)
    ensures n <= |cycles| && calls == Calls(cycles[..n])
    ensures stop.Propagated? <==> n > 0 && Result(cycles[n - 1]).Signal?
    ensures consecutiveFailures == TrailingFailures(if stop.Propagated? then cycles[..n - 1] else cycles[..n])
    ensures GoesOn(cycles, if n == 0 || stop.StillRunning? then n else n - 1, limit)
    ensures stop.StillRunning? ==> n == |cycles|
    ensures stop.TooManyFailures? <==> LimitReached(cycles[..n], limit)
    ensures RunsFollowCleanups(calls)
    ensures stop.Shutdown? ==> (n < |cycles| && !cycles[n].running) || (n > 0 && cycles[n - 1].shutdown)
  {
    n, consecutiveFailures, calls := 0, 0, [];
    while n < |cycles|
      invariant n <= |cycles| && GoesOn(cycles, n, limit)
      invariant consecutiveFailures == TrailingFailures(cycles[..n]) && calls == Calls(cycles[..n])
      invariant RunsFollowCleanups(calls)
    {
      var c := cycles[n];
      if !c.running {
        stop := Shutdown;
        return;
      }
      assert cycles[..n + 1][..n] == cycles[..n];
      var called, outcome := OneCycle(n, c);
      RunsStillFollow(calls, n, c);
      calls := calls + called;
      n := n + 1;
      match outcome {
        case Signal =>
          stop := Propagated;
          return;
        case Success =>
          consecutiveFailures := 0;
        case Failure =>
          consecutiveFailures := consecutiveFailures + 1;
          TrailingFailuresCount(cycles[..n], limit);
          if limit > 0 && consecutiveFailures >= limit {
            stop := TooManyFailures;
            return;
          }
      }
      if c.shutdown {
        stop := Shutdown;
        return;
      }
      GoesOnLonger(cycles, n - 1, limit);
    }
    stop := StillRunning;
  }
}
