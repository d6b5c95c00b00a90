/** What a stream yields, and how often it halves a window, against an honest relay with one filter. */
module StreamCompleteness {
  import opened Batches
  import opened Arith
  import opened Keyset
  import opened Nostr
  import opened Fetching
  import opened Streaming
  import opened HonestRelay
  import StreamSafety

  // ----- Windows -----

  /** Emitted windows are exact, and only windows with more than `c` events are halved. */
  ghost predicate ExactPolicy(store: Store, c: nat, decide: Decide) {
    forall n: nat, since: int, until: int :: since <= until ==>
      match decide(n, since, until)
      case Emit(events, _) => Exact(store, c, since, until, Elems(events))
      case Halve(_) => since != until && |Window(store, since, until)| > c
  }

  lemma TruncatedIsLarge(store: Store, cap: nat, limit: nat, since: int, until: int, events: seq<NostrEvent>)
    requires HonestAnswer(store, cap, Request(0, since, until, limit), events)
    requires events != [] && HasOlder(store, since, MinTime(events))
    ensures |Window(store, since, until)| > Min(limit, cap)
  {
    var minTs := MinTime(events);
    var x :| x in store && since <= x.createdAt < minTs;
    var oldest :| oldest in events && oldest.createdAt == minTs;
    assert oldest in Elems(events);
    assert x in Window(store, since, until) && x !in Elems(events);
    HonestSize(store, cap, Request(0, since, until, limit), events);
    SubsetSize(Elems(events), Window(store, since, until));
  }

  lemma WindowIsExact(store: Store, cap: nat, fetch: Fetcher, limit: nat, n: nat, since: int, until: int)
    requires HonestFetcher(store, cap, fetch) && cap >= 1 && limit >= 1 && since <= until
    ensures match DecideWindow(fetch, limit, n, since, until)
            case Emit(events, _) => Exact(store, Min(limit, cap), since, until, Elems(events))
            case Halve(_) => since != until && |Window(store, since, until)| > Min(limit, cap)
  {
    var fetched := fetch(n, since, until, limit);
    var request := Request(0, since, until, limit);
    assert HonestAnswer(store, cap, request, fetched.events);
    if fetched.events == [] {
      HonestNonempty(store, cap, request, fetched.events);
      EmptyIsExact(store, Min(limit, cap), since, until);
      NoElems(fetched.events);
    } else if since == until {
      SecondIsExact(store, cap, limit, since, fetched.events);
    } else {
      VerifyDetectsTruncation(store, cap, fetch, limit, fetched.requests, fetched.events, since, until);
      if Verify(fetch, limit, fetched.requests, fetched.events, since).events.Some? {
        VerifiedIsExact(store, cap, fetch, limit, fetched.requests, fetched.events, since, until);
      } else {
        TruncatedIsLarge(store, cap, limit, since, until, fetched.events);
      }
    }
  }

  lemma PolicyIsExact(ctx: Context, store: Store, cap: nat)
    requires Honest(ctx, store, cap)
    ensures ExactPolicy(store, Min(ctx.limit, cap), Policy(ctx))
  {
    FetchIsHonest(ctx, store, cap);
    forall n: nat, since: int, until: int | since <= until
      ensures match Policy(ctx)(n, since, until)
              case Emit(events, _) => Exact(store, Min(ctx.limit, cap), since, until, Elems(events))
              case Halve(_) => since != until && |Window(store, since, until)| > Min(ctx.limit, cap)
    {
      WindowIsExact(store, cap, FetcherOf(ctx), ctx.limit, n, since, until);
    }
  }

  // ----- Runs -----

  lemma RoundIsExact(store: Store, c: nat, decide: Decide, idle: nat -> bool, start: int, end: int, s: State)
    requires ExactPolicy(store, c, decide) && Stacked(s, end) && start <= s.since
    requires Exact(store, c, start, s.since - 1, Elems(s.raw))
    ensures var t := Round(decide, idle, s);
            Exact(store, c, start, t.since - 1, Elems(t.raw))
  {
    if !Done(s) && !idle(s.rounds) {
      var decision := decide(s.requests, s.since, s.stack[0]);
      if decision.Emit? {
        SortElems(RawKey, decision.events);
        var sorted := Sort(RawKey, decision.events);
        assert Elems(s.raw + sorted) == Elems(s.raw) + Elems(sorted);
        ExactJoin(store, c, start, s.since - 1, s.stack[0], Elems(s.raw), Elems(sorted));
      }
    }
  }

  lemma {:induction false} EveryRoundIsExact(store: Store, c: nat, decide: Decide, idle: nat -> bool,
          requests: nat, start: int, end: int, k: nat)
    requires ExactPolicy(store, c, decide) && Splittable(decide) && start <= end
    ensures var s := After(decide, idle, Start(requests, start, end), k);
            Exact(store, c, start, s.since - 1, Elems(s.raw))
  {
    if k == 0 {
      assert Window({}, start, start - 1) == {};
    } else {
      EveryRoundIsExact(store, c, decide, idle, requests, start, end, k - 1);
      StackStaysOrdered(decide, idle, requests, start, end, k - 1);
      RoundIsExact(store, c, decide, idle, start, end, After(decide, idle, Start(requests, start, end), k - 1));
    }
  }

  /**
   Exact completeness. Of every second the stream has finished, it has emitted
   as many stored events as the limit and the cap allow. Those are all the seconds
   of the range exactly when the timeout does not expire before the last window.
   */
  lemma StreamIsExact(ctx: Context, store: Store, cap: nat, idle: nat -> bool, requests: nat, start: int, end: int)
    requires Honest(ctx, store, cap) && start <= end
    ensures var f := Final(ctx, idle, requests, start, end);
            && Exact(store, Min(ctx.limit, cap), start, f.since - 1, Elems(f.raw))
            && (f.since == end + 1 <==> !Expires(ctx, idle, requests, start, end))
            && ((forall k: nat :: !idle(k)) ==> f.since == end + 1)
  {
    AbandonedIffExpired(ctx, idle, requests, start, end);
    PolicyIsExact(ctx, store, cap);
    PolicyIsSplittable(ctx);
    EveryRoundIsExact(store, Min(ctx.limit, cap), Policy(ctx), idle, requests, start, end, Rounds(start, end));
    StackStaysOrdered(Policy(ctx), idle, requests, start, end, Rounds(start, end));
    Terminates(ctx, idle, requests, start, end);
    if Expires(ctx, idle, requests, start, end) {
      ExpiryLeavesWindows(ctx, idle, requests, start, end);
    }
  }

  /** An abandoned stream has not reached the end of the range. */
  lemma ExpiryLeavesWindows(ctx: Context, idle: nat -> bool, requests: nat, start: int, end: int)
    requires start <= end && Expires(ctx, idle, requests, start, end)
    ensures Final(ctx, idle, requests, start, end).since <= end
  {
    AbandonedIffExpired(ctx, idle, requests, start, end);
    var k: nat :| FirstExpiresAt(ctx, idle, requests, start, end, k)
      && Final(ctx, idle, requests, start, end) == Unhurried(ctx, requests, start, end, k).(idled := true);
    PolicyIsSplittable(ctx);
    StackStaysOrdered(Policy(ctx), Never(), requests, start, end, k);
    var s := Unhurried(ctx, requests, start, end, k);
    assert s.stack[0] <= s.stack[|s.stack| - 1];
  }

  /** Every raw sequence of a run is strictly ascending, so the events in it determine it. */
  lemma StreamAscends(ctx: Context, idle: nat -> bool, requests: nat, start: int, end: int)
    ensures Ascending(RawKey, Final(ctx, idle, requests, start, end).raw)
  {
    if start <= end {
      PolicyIsSplittable(ctx);
      StreamSafety.PolicyIsTrustworthy(ctx);
      StreamSafety.EveryRoundIsSafe(ctx, Policy(ctx), idle, requests, start, end, Rounds(start, end));
    }
  }

  /** If no second is overfull and no timeout expires on the way, a stream yields the whole answer, sorted. */
  lemma StreamIsComplete(ctx: Context, store: Store, cap: nat, idle: nat -> bool, requests: nat, start: int,
          end: int, answer: seq<NostrEvent>)
    requires Honest(ctx, store, cap) && start <= end
    requires Patient(ctx, idle, requests, start, end)
    requires forall t :: start <= t <= end ==> |Window(store, t, t)| <= Min(ctx.limit, cap)
    requires Ascending(RawKey, answer) && Elems(answer) == Window(store, start, end)
    ensures Final(ctx, idle, requests, start, end).raw == answer
  {
    var raw := Final(ctx, idle, requests, start, end).raw;
    StreamIsExact(ctx, store, cap, idle, requests, start, end);
    StreamAscends(ctx, idle, requests, start, end);
    forall e ensures e in Elems(raw) <==> e in Window(store, start, end) {
      if e in Window(store, start, end) {
        ExactIsWhole(store, Min(ctx.limit, cap), start, end, Elems(raw), e.createdAt);
        assert e in Window(store, e.createdAt, e.createdAt);
      }
    }
    AscendingIsUnique(RawKey, raw, answer);
  }

  // ----- What a prefix of the output tells -----

  /** The events a consumer may rely on: convertible, in a second that is not overfull. */
  ghost predicate Due(store: Store, c: nat, maxEventSize: Option<nat>, e: NostrEvent) {
    e in store && Convertible(maxEventSize, e) && |Window(store, e.createdAt, e.createdAt)| <= c
  }

  /** In `out`, every due event from second `start` on comes before anything of a later second. */
  ghost predicate Faithful(store: Store, c: nat, maxEventSize: Option<nat>, start: int, out: seq<Event>) {
    && Ascending(EventKey, out)
    && (forall i :: 0 <= i < |out| ==> start <= out[i].createdAt)
    && (forall i, e :: 0 <= i < |out| && Due(store, c, maxEventSize, e) && start <= e.createdAt < out[i].createdAt ==>
          ToEvent(e) in out[..i])
  }

  lemma ExactIsFaithful(store: Store, c: nat, maxEventSize: Option<nat>, start: int, since: int,
          raw: seq<NostrEvent>, out: seq<Event>)
    requires Exact(store, c, start, since - 1, Elems(raw)) && Ascending(RawKey, raw)
    requires out <= Convert(maxEventSize, raw)
    ensures Faithful(store, c, maxEventSize, start, out)
  {
    var whole := Convert(maxEventSize, raw);
    ConvertAscends(maxEventSize, raw);
    ConvertElems(maxEventSize, raw);
    forall i | 0 <= i < |out| ensures start <= out[i].createdAt < since {
      assert whole[i] in whole;
      var e :| e in raw && Convertible(maxEventSize, e) && whole[i] == ToEvent(e);
      assert e in Elems(raw);
    }
    forall i, e | 0 <= i < |out| && Due(store, c, maxEventSize, e) && start <= e.createdAt < out[i].createdAt
      ensures ToEvent(e) in out[..i]
    {
      DueIsConverted(store, c, maxEventSize, start, since, raw, e);
      var j :| 0 <= j < |whole| && whole[j] == ToEvent(e);
      assert j >= i ==> j == i || Less(EventKey(whole[i]), EventKey(whole[j]));
      assert out[..i][j] == ToEvent(e);
    }
  }

  lemma DueIsConverted(store: Store, c: nat, maxEventSize: Option<nat>, start: int, since: int,
          raw: seq<NostrEvent>, e: NostrEvent)
    requires Exact(store, c, start, since - 1, Elems(raw))
    requires Due(store, c, maxEventSize, e) && start <= e.createdAt < since
    ensures ToEvent(e) in Convert(maxEventSize, raw)
  {
    ExactIsWhole(store, c, start, since - 1, Elems(raw), e.createdAt);
    assert e in Window(store, e.createdAt, e.createdAt);
    ConvertElems(maxEventSize, raw);
  }

  /** A consumer that stops early, or whose stream is abandoned, still holds a faithful sequence. */
  lemma OutputIsFaithful(ctx: Context, store: Store, cap: nat, idle: nat -> bool, requests: nat, start: int,
          end: int, out: seq<Event>)
    requires Honest(ctx, store, cap)
    requires out <= Convert(ctx.maxEventSize, Final(ctx, idle, requests, start, end).raw)
    ensures Faithful(store, Min(ctx.limit, cap), ctx.maxEventSize, start, out)
  {
    if start <= end {
      var f := Final(ctx, idle, requests, start, end);
      StreamIsExact(ctx, store, cap, idle, requests, start, end);
      StreamAscends(ctx, idle, requests, start, end);
      ExactIsFaithful(store, Min(ctx.limit, cap), ctx.maxEventSize, start, f.since, f.raw, out);
    }
  }

  // ----- Cost -----

  /** The number of halvings of a window of length `span + 1`, down to single seconds. */
  function Levels(span: nat): nat {
    if span == 0 then 0 else 1 + Levels(span / 2)
  }

  /** `Levels(a)` is `1 + floor(log2(a))`. */
  lemma {:induction false} LevelsIsLog(a: nat)
    requires a >= 1
    ensures Levels(a) >= 1 && Pow2(Levels(a) - 1) <= a < Pow2(Levels(a))
  {
    if a >= 2 {
      LevelsIsLog(a / 2);
    }
  }

  lemma {:induction false} LevelsGrow(a: nat, b: nat)
    requires a <= b
    ensures Levels(a) <= Levels(b)
  {
    if a > 0 {
      LevelsGrow(a / 2, b / 2);
    }
  }

  function Share(n: nat, c: nat, span: nat): nat {
    n / (c + 1) * Levels(span)
  }

  /** The halvings a window may still need. */
  ghost function Potential(store: Store, c: nat, since: int, until: int): nat {
    if since <= until then Share(|Window(store, since, until)|, c, until - since) else 0
  }

  lemma WindowParts(store: Store, since: int, mid: int, until: int)
    requires since <= mid < until
    ensures |Window(store, since, until)| == |Window(store, since, mid)| + |Window(store, mid + 1, until)|
  {
    var a, b := Window(store, since, mid), Window(store, mid + 1, until);
    assert Window(store, since, until) == a + b && a !! b;
  }

  lemma ShareParts(qa: nat, qb: nat, q: nat, la: nat, lb: nat, level: nat)
    requires qa + qb <= q && q >= 1 && la <= level && lb <= level
    ensures 1 + qa * la + qb * lb <= q * (1 + level)
  {
    Scale(qa, la, level);
    Scale(qb, lb, level);
    Scale(level, qa + qb, q);
    assert (qa + qb) * level == qa * level + qb * level;
    assert q * (1 + level) == q + q * level;
  }

  lemma SharesOfHalves(a: nat, b: nat, c: nat, left: nat, right: nat, span: nat)
    requires a + b > c && span >= 1 && left == span / 2 && right <= left
    ensures 1 + Share(a, c, left) + Share(b, c, right) <= Share(a + b, c, span)
  {
    QuotientParts(a, b, c + 1);
    MultipleFits(1, a + b, c + 1);
    LevelsGrow(right, left);
    ShareParts(a / (c + 1), b / (c + 1), (a + b) / (c + 1), Levels(left), Levels(right), Levels(left));
  }

  /** Halving a window with more than `c` events leaves less to halve. */
  lemma HalvingPays(store: Store, c: nat, since: int, until: int)
    requires since < until && |Window(store, since, until)| > c
    ensures var mid := Midpoint(since, until);
            1 + Potential(store, c, since, mid) + Potential(store, c, mid + 1, until) <=
              Potential(store, c, since, until)
  {
    var mid := Midpoint(since, until);
    WindowParts(store, since, mid, until);
    SharesOfHalves(|Window(store, since, mid)|, |Window(store, mid + 1, until)|, c, mid - since, until - (mid + 1),
        until - since);
  }

  /** A measure of windows that pays for their halvings. */
  type Measure = (int, int) -> nat

  ghost predicate Pays(measure: Measure, decide: Decide) {
    forall n: nat, since: int, until: int :: since <= until && decide(n, since, until).Halve? ==>
      1 + measure(since, Midpoint(since, until)) + measure(Midpoint(since, until) + 1, until) <= measure(since, until)
  }

  function StackMeasure(measure: Measure, since: int, stack: seq<int>): nat
    decreases |stack|
  {
    if stack == [] then 0 else measure(since, stack[0]) + StackMeasure(measure, stack[0] + 1, stack[1..])
  }

  ghost predicate PaidFor(measure: Measure, budget: nat, s: State) {
    s.splits + StackMeasure(measure, s.since, s.stack) <= budget
  }

  lemma RoundIsPaidFor(measure: Measure, decide: Decide, idle: nat -> bool, end: int, budget: nat, s: State)
    requires Pays(measure, decide) && Stacked(s, end) && PaidFor(measure, budget, s)
    ensures PaidFor(measure, budget, Round(decide, idle, s))
  {
    if !Done(s) && !idle(s.rounds) {
      var decision := decide(s.requests, s.since, s.stack[0]);
      if decision.Halve? {
        var t := Split(s, decision.requests);
        assert t.stack[1..] == s.stack;
        assert StackMeasure(measure, t.since, t.stack)
            == measure(t.since, t.stack[0]) + StackMeasure(measure, t.stack[0] + 1, s.stack);
      }
    }
  }

  lemma {:induction false} EveryRoundIsPaidFor(measure: Measure, decide: Decide, idle: nat -> bool,
          requests: nat, start: int, end: int, k: nat)
    requires Pays(measure, decide) && Splittable(decide) && start <= end
    ensures PaidFor(measure, measure(start, end), After(decide, idle, Start(requests, start, end), k))
  {
    if k == 0 {
      assert StackMeasure(measure, end + 1, []) == 0;
    } else {
      EveryRoundIsPaidFor(measure, decide, idle, requests, start, end, k - 1);
      StackStaysOrdered(decide, idle, requests, start, end, k - 1);
      RoundIsPaidFor(measure, decide, idle, end, measure(start, end),
          After(decide, idle, Start(requests, start, end), k - 1));
    }
  }

  ghost function PotentialOf(store: Store, c: nat): Measure {
    (since: int, until: int) => Potential(store, c, since, until)
  }

  lemma PotentialPays(store: Store, c: nat, decide: Decide)
    requires ExactPolicy(store, c, decide)
    ensures Pays(PotentialOf(store, c), decide)
  {
    forall n: nat, since: int, until: int | since <= until && decide(n, since, until).Halve?
      ensures 1 + PotentialOf(store, c)(since, Midpoint(since, until))
          + PotentialOf(store, c)(Midpoint(since, until) + 1, until)
           <= PotentialOf(store, c)(since, until)
    {
      HalvingPays(store, c, since, until);
    }
  }

  /**
   With `N` stored events in a range of `n` seconds, a stream halves at most
   `floor(N / (c + 1)) * (1 + floor(log2(n - 1)))` windows.
   */
  lemma HalvingsAreBounded(ctx: Context, store: Store, cap: nat, idle: nat -> bool, requests: nat, start: int, end: int)
    requires Honest(ctx, store, cap) && start <= end
    ensures Final(ctx, idle, requests, start, end).splits
         <= |Window(store, start, end)| / (Min(ctx.limit, cap) + 1) * Levels(end - start)
  {
    var c := Min(ctx.limit, cap);
    PolicyIsExact(ctx, store, cap);
    PolicyIsSplittable(ctx);
    PotentialPays(store, c, Policy(ctx));
    EveryRoundIsPaidFor(PotentialOf(store, c), Policy(ctx), idle, requests, start, end, Rounds(start, end));
  }
}
