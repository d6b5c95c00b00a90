/** What a stream costs, and how deep its stack gets, against any relay. */
module StreamBounds {
  import opened Arith
  import opened Nostr
  import opened Fetching
  import opened Streaming

  /** `decide` sends at most `cost` requests for a window. */
  ghost predicate Costs(decide: Decide, cost: nat) {
    forall n: nat, since: int, until: int :: n <= decide(n, since, until).requests <= n + cost
  }

  /** At most three fetches for a window, each of at most one request per filter. */
  lemma PolicyCosts(ctx: Context)
    ensures Costs(Policy(ctx), 3 * |ctx.filters|)
  {
    FetchIsSound(ctx);
    forall n: nat, since: int, until: int
      ensures n <= Policy(ctx)(n, since, until).requests <= n + 3 * |ctx.filters|
    {
      var fetched := FetcherOf(ctx)(n, since, until, ctx.limit);
      assert SoundAnswer(ctx, n, since, until, ctx.limit, fetched);
      if fetched.events != [] {
        VerifyIsSound(ctx, FetcherOf(ctx), ctx.limit, fetched.requests, fetched.events, since, until);
      }
    }
  }

  lemma {:induction false} RequestsAreBounded(decide: Decide, idle: nat -> bool, s: State, k: nat, cost: nat)
    requires Costs(decide, cost)
    ensures var t := After(decide, idle, s, k);
            s.rounds <= t.rounds && s.requests <= t.requests <= s.requests + cost * (t.rounds - s.rounds)
  {
    if k > 0 {
      RequestsAreBounded(decide, idle, s, k - 1, cost);
      OneRoundCosts(decide, idle, s, After(decide, idle, s, k - 1), cost);
    }
  }

  lemma OneRoundCosts(decide: Decide, idle: nat -> bool, s: State, m: State, cost: nat)
    requires Costs(decide, cost) && s.rounds <= m.rounds
        && s.requests <= m.requests <= s.requests + cost * (m.rounds - s.rounds)
    ensures var t := Round(decide, idle, m);
            s.rounds <= t.rounds && s.requests <= t.requests <= s.requests + cost * (t.rounds - s.rounds)
  {
    var t := Round(decide, idle, m);
    if t.rounds == m.rounds + 1 {
      assert cost * (m.rounds + 1 - s.rounds) == cost * (m.rounds - s.rounds) + cost;
    }
  }

  lemma CostAgainstAnyRelay(ctx: Context, idle: nat -> bool, requests: nat, start: int, end: int)
    ensures Final(ctx, idle, requests, start, end).requests <= requests + 3 * |ctx.filters| * Rounds(start, end)
  {
    PolicyCosts(ctx);
    Terminates(ctx, idle, requests, start, end);
    RequestsAreBounded(Policy(ctx), idle, Start(requests, start, end), Rounds(start, end), 3 * |ctx.filters|);
    Scale(3 * |ctx.filters|, Final(ctx, idle, requests, start, end).rounds, Rounds(start, end));
  }

  // ----- Depth of the stack -----

  /**
   `spans[i]` is the length, less one, of the window whose split made entry
   `i + 1` of the stack. Each is at most half of the next, and the first is at
   least one because a window of one second is never split.
   */
  ghost predicate Nested(s: State, spans: seq<nat>, width: nat) {
    && |spans| == |s.stack| - 1
    && (forall i :: 0 <= i < |spans| ==> FitsSpan(s.stack, spans, i))
    && (if spans == [] then s.stack[0] - s.since <= width
        else spans[|spans| - 1] <= width && 2 * (s.stack[0] - s.since) <= spans[0])
  }

  /** Entry `i` of the spans, with the window above it in the stack. */
  ghost predicate FitsSpan(stack: seq<int>, spans: seq<nat>, i: nat)
    requires i < |spans| && i + 1 < |stack|
  {
    && 1 <= spans[i]
    && (i + 1 < |spans| ==> 2 * spans[i] <= spans[i + 1])
    && 2 * (stack[i + 1] - stack[i] - 1) <= spans[i]
  }

  lemma AdvanceKeepsNesting(s: State, spans: seq<nat>, width: nat, requests: nat, events: seq<NostrEvent>)
    requires |s.stack| >= 2 && Nested(s, spans, width)
    ensures Nested(Advance(s, requests, events), spans[1..], width)
  {
    forall i | 0 <= i < |spans[1..]| ensures FitsSpan(s.stack[1..], spans[1..], i) {
      assert FitsSpan(s.stack, spans, i + 1);
    }
    assert FitsSpan(s.stack, spans, 0);
  }

  lemma SplitKeepsNesting(s: State, spans: seq<nat>, width: nat, requests: nat)
    requires s.stack != [] && s.since < s.stack[0] && Nested(s, spans, width)
    ensures Nested(Split(s, requests), [s.stack[0] - s.since] + spans, width)
  {
    var t := Split(s, requests);
    var spans' := [s.stack[0] - s.since] + spans;
    forall i | 0 <= i < |spans'| ensures FitsSpan(t.stack, spans', i) {
      if i > 0 {
        assert FitsSpan(s.stack, spans, i - 1);
      }
    }
  }

  lemma RoundKeepsNesting(decide: Decide, idle: nat -> bool, s: State, end: int, spans: seq<nat>,
          width: nat) returns (spans': seq<nat>)
    requires Splittable(decide) && Stacked(s, end) && s.stack != [] && Nested(s, spans, width)
    ensures var t := Round(decide, idle, s);
            t.stack != [] ==> Nested(t, spans', width)
  {
    spans' := spans;
    if !s.idled && !idle(s.rounds) {
      match decide(s.requests, s.since, s.stack[0]) {
        case Emit(events, requests) =>
          if |s.stack| >= 2 {
            spans' := spans[1..];
            AdvanceKeepsNesting(s, spans, width, requests, events);
          }
        case Halve(requests) =>
          spans' := [s.stack[0] - s.since] + spans;
          SplitKeepsNesting(s, spans, width, requests);
      }
    }
  }

  ghost predicate IsNested(s: State, width: nat) {
    s.stack != [] ==> exists spans :: Nested(s, spans, width)
  }

  lemma {:induction false} NestingIsKept(decide: Decide, idle: nat -> bool, requests: nat, start: int, end: int, k: nat)
    requires Splittable(decide) && start <= end
    ensures IsNested(After(decide, idle, Start(requests, start, end), k), end - start)
  {
    if k == 0 {
      assert Nested(Start(requests, start, end), [], end - start);
    } else {
      NestingIsKept(decide, idle, requests, start, end, k - 1);
      StackStaysOrdered(decide, idle, requests, start, end, k - 1);
      var m := After(decide, idle, Start(requests, start, end), k - 1);
      NestingStep(decide, idle, m, end, end - start);
      assert After(decide, idle, Start(requests, start, end), k) == Round(decide, idle, m);
    }
  }

  lemma NestingStep(decide: Decide, idle: nat -> bool, s: State, end: int, width: nat)
    requires Splittable(decide) && Stacked(s, end) && IsNested(s, width)
    ensures IsNested(Round(decide, idle, s), width)
  {
    if s.stack != [] {
      var spans :| Nested(s, spans, width);
      var spans' := RoundKeepsNesting(decide, idle, s, end, spans, width);
    }
  }

  lemma {:induction false} Doubling(s: State, spans: seq<nat>, width: nat, i: nat)
    requires Nested(s, spans, width) && i < |spans|
    ensures spans[i] >= Pow2(i)
  {
    if i == 0 {
      assert FitsSpan(s.stack, spans, 0);
    } else {
      Doubling(s, spans, width, i - 1);
      assert FitsSpan(s.stack, spans, i - 1);
    }
  }

  lemma DepthOfNested(s: State, width: nat)
    requires IsNested(s, width)
    ensures |s.stack| >= 2 ==> Pow2(|s.stack| - 2) <= width
  {
    if |s.stack| >= 2 {
      var spans :| Nested(s, spans, width);
      Doubling(s, spans, width, |spans| - 1);
    }
  }

  /** A stack of depth `d >= 2` over `n` seconds has `2^(d - 2) <= n - 1`, in every round. */
  lemma StackDepthIsLogarithmic(ctx: Context, idle: nat -> bool, requests: nat, start: int, end: int, k: nat)
    requires start <= end
    ensures var depth := |After(Policy(ctx), idle, Start(requests, start, end), k).stack|;
            depth >= 2 ==> Pow2(depth - 2) <= Seconds(start, end) - 1
  {
    PolicyIsSplittable(ctx);
    NestingIsKept(Policy(ctx), idle, requests, start, end, k);
    DepthOfNested(After(Policy(ctx), idle, Start(requests, start, end), k), end - start);
  }
}
