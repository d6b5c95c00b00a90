/** What a stream yields against any relay, with any filters. */
module StreamSafety {
  import opened Keyset
  import opened Nostr
  import opened Fetching
  import opened Streaming

  /** What `decide` emits for a window is genuine, inside it, and without repeated keys. */
  ghost predicate Trustworthy(ctx: Context, decide: Decide) {
    forall n: nat, since: int, until: int :: decide(n, since, until).Emit? ==>
      && DistinctKeys(RawKey, decide(n, since, until).events)
      && GenuineIn(ctx, since, until, decide(n, since, until).events)
  }

  lemma PolicyIsTrustworthy(ctx: Context)
    ensures Trustworthy(ctx, Policy(ctx))
  {
    FetchIsSound(ctx);
    forall n: nat, since: int, until: int | Policy(ctx)(n, since, until).Emit?
      ensures DistinctKeys(RawKey, Policy(ctx)(n, since, until).events)
      ensures GenuineIn(ctx, since, until, Policy(ctx)(n, since, until).events)
    {
      var fetched := FetcherOf(ctx)(n, since, until, ctx.limit);
      assert SoundAnswer(ctx, n, since, until, ctx.limit, fetched);
      if fetched.events != [] {
        VerifyIsSound(ctx, FetcherOf(ctx), ctx.limit, fetched.requests, fetched.events, since, until);
      }
    }
  }

  /** Ascending, genuine, and confined to the seconds already finished. */
  ghost predicate Safe(ctx: Context, start: int, s: State) {
    Ascending(RawKey, s.raw) && GenuineIn(ctx, start, s.since - 1, s.raw)
  }

  lemma AdvanceIsSafe(ctx: Context, start: int, s: State, requests: nat, events: seq<NostrEvent>)
    requires s.stack != [] && start <= s.since <= s.stack[0] && Safe(ctx, start, s)
    requires DistinctKeys(RawKey, events) && GenuineIn(ctx, s.since, s.stack[0], events)
    ensures Safe(ctx, start, Advance(s, requests, events))
  {
    var sorted := Sort(RawKey, events);
    SortElems(RawKey, events);
    SortAscends(RawKey, events);
    assert forall e :: e in sorted <==> e in Elems(sorted);
    assert forall e :: e in events <==> e in Elems(events);
    forall i, j | 0 <= i < |s.raw| && 0 <= j < |sorted|
      ensures Less(RawKey(s.raw[i]), RawKey(sorted[j]))
    {
      assert s.raw[i] in s.raw && sorted[j] in sorted;
    }
  }

  lemma RoundIsSafe(ctx: Context, decide: Decide, idle: nat -> bool, start: int, end: int, s: State)
    requires Trustworthy(ctx, decide) && Stacked(s, end) && start <= s.since && Safe(ctx, start, s)
    ensures Safe(ctx, start, Round(decide, idle, s))
  {
    if !Done(s) && !idle(s.rounds) {
      var decision := decide(s.requests, s.since, s.stack[0]);
      if decision.Emit? {
        AdvanceIsSafe(ctx, start, s, decision.requests, decision.events);
      }
    }
  }

  lemma {:induction false} EveryRoundIsSafe(ctx: Context, decide: Decide, idle: nat -> bool, requests: nat,
          start: int, end: int, k: nat)
    requires start <= end && Splittable(decide) && Trustworthy(ctx, decide)
    ensures Safe(ctx, start, After(decide, idle, Start(requests, start, end), k))
  {
    if k > 0 {
      EveryRoundIsSafe(ctx, decide, idle, requests, start, end, k - 1);
      StackStaysOrdered(decide, idle, requests, start, end, k - 1);
      RoundIsSafe(ctx, decide, idle, start, end, After(decide, idle, Start(requests, start, end), k - 1));
    }
  }

  ghost predicate Yields(ctx: Context, start: int, end: int, e: NostrEvent, d: Event) {
    Genuine(ctx, e) && Convertible(ctx.maxEventSize, e) && start <= e.createdAt <= end && d == ToEvent(e)
  }

  /**
   Against any relay and any filters the yielded events are strictly ascending
   in `(createdAt, id)`, and each comes from a signed event in the range that
   the relay sent and some filter matches.
   */
  lemma OutputIsSafe(ctx: Context, idle: nat -> bool, requests: nat, start: int, end: int)
    ensures var out := Convert(ctx.maxEventSize, Final(ctx, idle, requests, start, end).raw);
            && Ascending(EventKey, out)
            && (forall d :: d in out ==> exists e :: Yields(ctx, start, end, e, d))
  {
    if start <= end {
      var s := Final(ctx, idle, requests, start, end);
      PolicyIsSplittable(ctx);
      PolicyIsTrustworthy(ctx);
      EveryRoundIsSafe(ctx, Policy(ctx), idle, requests, start, end, Rounds(start, end));
      SinceStaysInRange(Policy(ctx), idle, requests, start, end, Rounds(start, end));
      ConvertAscends(ctx.maxEventSize, s.raw);
      ConvertElems(ctx.maxEventSize, s.raw);
      forall d | d in Convert(ctx.maxEventSize, s.raw) ensures exists e :: Yields(ctx, start, end, e, d) {
        var e :| e in s.raw && Convertible(ctx.maxEventSize, e) && d == ToEvent(e);
        assert Yields(ctx, start, end, e, d);
      }
    }
  }

  lemma SinceStaysInRange(decide: Decide, idle: nat -> bool, requests: nat, start: int, end: int, k: nat)
    requires Splittable(decide) && start <= end
    ensures start <= After(decide, idle, Start(requests, start, end), k).since <= end + 1
  {
    StackStaysOrdered(decide, idle, requests, start, end, k);
    var s := After(decide, idle, Start(requests, start, end), k);
    assert s.stack != [] ==> s.stack[0] <= s.stack[|s.stack| - 1];
  }

  /** If an identifier names one signed event of the relay, no identifier is yielded twice. */
  lemma NoIdIsRepeated(ctx: Context, idle: nat -> bool, requests: nat, start: int, end: int)
    requires forall d: NostrEvent, e: NostrEvent ::
               Delivered(ctx, d) && Delivered(ctx, e) && d.signed && e.signed && d.id == e.id ==> d == e
    ensures var out := Convert(ctx.maxEventSize, Final(ctx, idle, requests, start, end).raw);
            forall i, j :: 0 <= i < j < |out| ==> out[i].id != out[j].id
  {
    OutputIsSafe(ctx, idle, requests, start, end);
    var out := Convert(ctx.maxEventSize, Final(ctx, idle, requests, start, end).raw);
    forall i, j | 0 <= i < j < |out| ensures out[i].id != out[j].id {
      assert out[i] in out && out[j] in out;
      var d :| Yields(ctx, start, end, d, out[i]);
      var e :| Yields(ctx, start, end, e, out[j]);
      assert Less(EventKey(out[i]), EventKey(out[j]));
    }
  }
}
