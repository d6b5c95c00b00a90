/**
 With several filters the budget of a fetch and its oldest second are shared, so
 a stream may finish a window without events it should hold. Completeness
 against every honest relay holds exactly for one filter.
 */
module SeveralFilters {
  import opened Batches
  import opened Keyset
  import opened Nostr
  import opened Fetching
  import opened Streaming
  import opened HonestRelay
  import StreamCompleteness

  /** The relay answers each filter honestly from that filter's store. */
  ghost predicate HonestMany(ctx: Context, stores: seq<Store>, cap: nat) {
    && |stores| == |ctx.filters| && ctx.limit >= 1 && cap >= 1
    && (forall k, e :: 0 <= k < |stores| && e in stores[k] ==> e.signed && ctx.filters[k](e))
    && (forall d, e :: d in All(stores) && e in All(stores) && d.id == e.id ==> d == e)
    && (forall n: nat, request: Request :: request.filter < |stores| ==>
          HonestAnswer(stores[request.filter], cap, request, ctx.relay(n, request)))
  }

  ghost function All(stores: seq<Store>): Store {
    set k, e | 0 <= k < |stores| && e in stores[k] :: e
  }

  /** If no second is overfull, a stream that is not abandoned holds every event of the range. */
  ghost predicate Keeps(ctx: Context, stores: seq<Store>, cap: nat, idle: nat -> bool, start: int, end: int) {
    && Patient(ctx, idle, 0, start, end)
    && (forall t :: start <= t <= end ==> |Window(All(stores), t, t)| <= Min(ctx.limit, cap))
    ==> Window(All(stores), start, end) <= Elems(Final(ctx, idle, 0, start, end).raw)
  }

  /** Completeness for a number of filters and a limit, against every honest relay. */
  ghost predicate CompleteFor(filters: nat, limit: nat) {
    forall ctx: Context, stores: seq<Store>, cap: nat, idle: nat -> bool, start: int, end: int ::
      |ctx.filters| == filters && ctx.limit == limit && start <= end && HonestMany(ctx, stores, cap)
      ==> Keeps(ctx, stores, cap, idle, start, end)
  }

  lemma OneFilterKeeps(ctx: Context, stores: seq<Store>, cap: nat, idle: nat -> bool, start: int, end: int)
    requires |ctx.filters| == 1 && start <= end && HonestMany(ctx, stores, cap)
    ensures Keeps(ctx, stores, cap, idle, start, end)
  {
    assert forall e :: e in All(stores) <==> e in stores[0];
    assert All(stores) == stores[0];
    var f := Final(ctx, idle, 0, start, end);
    StreamCompleteness.StreamIsExact(ctx, stores[0], cap, idle, 0, start, end);
    if
      && Patient(ctx, idle, 0, start, end)
      && forall t :: start <= t <= end ==> |Window(All(stores), t, t)| <= Min(ctx.limit, cap)
    {
      forall e | e in Window(stores[0], start, end) ensures e in Elems(f.raw) {
        ExactIsWhole(stores[0], Min(ctx.limit, cap), start, end, Elems(f.raw), e.createdAt);
        assert e in Window(stores[0], e.createdAt, e.createdAt);
      }
    }
  }

  // ----- A relay that loses an event for two or more filters -----

  /** The first filter matches one event, of second 1; the second one matches two, of seconds 2 and 3. The cap is 1. */
  function Sample(t: nat): NostrEvent {
    NostrEvent(t, t, 1, [], "", 0, true)
  }

  function LosingFilters(filters: nat): seq<Filter> {
    seq(filters, (k: nat) => (e: NostrEvent) => if k == 0 then e.createdAt == 1 else k == 1 && e.createdAt >= 2)
  }

  ghost function LosingStores(filters: nat): seq<Store> {
    seq(filters, (k: nat) => if k == 0 then {Sample(1)} else if k == 1 then {Sample(2), Sample(3)} else {})
  }

  predicate Asked(request: Request, t: nat) {
    request.since <= t <= request.until && request.limit >= 1
  }

  function Answer(request: Request): seq<NostrEvent> {
    if request.filter == 0 then (if Asked(request, 1) then [Sample(1)] else [])
    else if request.filter != 1 then []
    else if Asked(request, 3) then [Sample(3)]
    else if Asked(request, 2) then [Sample(2)]
    else []
  }

  function Losing(filters: nat, limit: nat): Context {
    Context((n: nat, request: Request) => Answer(request), LosingFilters(filters), limit, None)
  }

  /** The newest of a store of at most two events, or nothing. */
  lemma OneNewestIsHonest(store: Store, request: Request, s: seq<NostrEvent>)
    requires s == [] ==> Window(store, request.since, request.until) == {} || request.limit == 0
    requires s != [] ==> |s| == 1 && request.limit >= 1 && s[0] in Window(store, request.since, request.until)
    requires s != [] ==> forall x :: x in Window(store, request.since, request.until) ==> x.createdAt <= s[0].createdAt
    ensures HonestAnswer(store, 1, request, s)
  {
    if s != [] {
      assert Elems(s) == {s[0]};
      SubsetSize({s[0]}, Window(store, request.since, request.until));
    }
  }

  lemma AnswerIsHonest(filters: nat, request: Request)
    requires request.filter < filters
    ensures HonestAnswer(LosingStores(filters)[request.filter], 1, request, Answer(request))
  {
    var store := LosingStores(filters)[request.filter];
    var window := Window(store, request.since, request.until);
    if request.filter == 0 {
      assert store == {Sample(1)};
      assert forall e :: e in window <==> e == Sample(1) && request.since <= 1 <= request.until;
    } else if request.filter == 1 {
      assert store == {Sample(2), Sample(3)};
      assert forall e :: e in window <==>
        || (e == Sample(2) && request.since <= 2 <= request.until)
        || (e == Sample(3) && request.since <= 3 <= request.until);
    } else {
      assert store == {};
    }
    OneNewestIsHonest(store, request, Answer(request));
  }

  lemma LosingEvents(filters: nat, e: NostrEvent)
    requires filters >= 2
    ensures e in All(LosingStores(filters)) <==> e in {Sample(1), Sample(2), Sample(3)}
  {
    var stores := LosingStores(filters);
    assert Sample(1) in stores[0] && Sample(2) in stores[1] && Sample(3) in stores[1];
    if e in All(stores) {
      var k :| 0 <= k < |stores| && e in stores[k];
    }
  }

  lemma LosingIsHonest(filters: nat, limit: nat)
    requires filters >= 2 && limit >= 1
    ensures HonestMany(Losing(filters, limit), LosingStores(filters), 1)
  {
    forall n: nat, request: Request | request.filter < filters
      ensures HonestAnswer(LosingStores(filters)[request.filter], 1, request, Losing(filters, limit).relay(n, request))
    {
      AnswerIsHonest(filters, request);
    }
    forall e | e in All(LosingStores(filters)) ensures e in {Sample(1), Sample(2), Sample(3)} {
      LosingEvents(filters, e);
    }
    forall k, e | 0 <= k < filters && e in LosingStores(filters)[k]
      ensures e.signed && LosingFilters(filters)[k](e)
    {
      assert k == 0 ==> LosingStores(filters)[0] == {Sample(1)};
      assert k == 1 ==> LosingStores(filters)[1] == {Sample(2), Sample(3)};
    }
  }

  lemma LosingSeconds(filters: nat, t: int)
    requires filters >= 2
    ensures |Window(All(LosingStores(filters)), t, t)| <= 1
  {
    var w := Window(All(LosingStores(filters)), t, t);
    forall e | e in w ensures t >= 0 && e == Sample(t) {
      LosingEvents(filters, e);
    }
    if t >= 0 {
      SubsetSize(w, {Sample(t)});
    }
  }

  /** Filters that get no answer leave the fetch as it is. */
  lemma {:induction false} SilentFilters(ctx: Context, requests: nat, k: nat, since: int, until: int,
          limit: nat, acc: seq<NostrEvent>)
    requires k <= |ctx.filters|
    requires forall n: nat, j: nat :: k <= j ==> ctx.relay(n, Request(j, since, until, limit)) == []
    ensures FetchFrom(ctx, requests, k, since, until, limit, acc).events == acc
    decreases |ctx.filters| - k
  {
    if k < |ctx.filters| {
      SilentFilters(ctx, requests + 1, k + 1, since, until, limit, acc);
    }
  }

  /** Event 2 is not fetched, event 1 is. */
  lemma FirstFetch(filters: nat, limit: nat, events: seq<NostrEvent>)
    requires filters >= 2 && limit >= 1
    requires events == Fetch(Losing(filters, limit), 0, 1, 3, limit).events
    ensures events == [Sample(1)] || events == [Sample(1), Sample(3)]
  {
    var ctx := Losing(filters, limit);
    var first, both := [Sample(1)], [Sample(1), Sample(3)];
    assert Accept(ctx.filters[0], 1, 3, limit, [], first) == first;
    if limit > 1 {
      assert Accept(ctx.filters[1], 1, 3, limit, first, [Sample(3)]) == both;
      SilentFilters(ctx, 2, 2, 1, 3, limit, both);
      assert FetchFrom(ctx, 1, 1, 1, 3, limit, first).events == both;
    }
  }

  lemma BoundaryFetch(filters: nat, limit: nat, requests: nat)
    requires filters >= 2 && limit >= 1
    ensures Fetch(Losing(filters, limit), requests, 1, 1, limit).events == [Sample(1)]
  {
    var ctx := Losing(filters, limit);
    var first := [Sample(1)];
    assert Accept(ctx.filters[0], 1, 1, limit, [], first) == first;
    if limit > 1 {
      SilentFilters(ctx, requests + 1, 1, 1, 1, limit, first);
    }
  }

  lemma FirstWindow(filters: nat, limit: nat, decision: Decision)
    requires filters >= 2 && limit >= 1 && decision == Policy(Losing(filters, limit))(0, 1, 3)
    ensures decision.Emit? && Sample(2) !in decision.events
  {
    var fetch := FetcherOf(Losing(filters, limit));
    var fetched := fetch(0, 1, 3, limit);
    FirstFetch(filters, limit, fetched.events);
    assert fetched.events[0] in fetched.events;
    WithoutElems(fetched.events, 1);
    BoundaryFetch(filters, limit, fetched.requests);
    var boundary := fetch(fetched.requests, 1, 1, limit);
    assert boundary.events == [Sample(1)];
    assert VerifyAt(fetch, limit, fetched.requests, fetched.events, 1, 1).events
        == Some(boundary.events + Without(fetched.events, 1));
  }

  /** A stream whose first window is its last one ends with what that window emits. */
  lemma OneWindow(ctx: Context, idle: nat -> bool, start: int, end: int)
    requires start <= end && !idle(0) && Policy(ctx)(0, start, end).Emit?
    ensures Elems(Final(ctx, idle, 0, start, end).raw) == Elems(Policy(ctx)(0, start, end).events)
  {
    var s0 := Start(0, start, end);
    var decision := Policy(ctx)(0, start, end);
    assert After(Policy(ctx), idle, s0, 0) == s0;
    assert After(Policy(ctx), idle, s0, 1) == Advance(s0, decision.requests, decision.events);
    DoneIsStable(Policy(ctx), idle, s0, 1, Rounds(start, end));
    SortElems(RawKey, decision.events);
    assert [] + Sort(RawKey, decision.events) == Sort(RawKey, decision.events);
  }

  /** With two filters or more, an event is lost although the relay is honest and no second is overfull. */
  lemma SeveralFiltersLose(filters: nat, limit: nat)
    requires filters >= 2 && limit >= 1
    ensures !Keeps(Losing(filters, limit), LosingStores(filters), 1, (k: nat) => false, 1, 3)
  {
    var ctx, stores, never := Losing(filters, limit), LosingStores(filters), (k: nat) => false;
    FirstWindow(filters, limit, Policy(ctx)(0, 1, 3));
    OneWindow(ctx, never, 1, 3);
    forall t | 1 <= t <= 3 ensures |Window(All(stores), t, t)| <= Min(limit, 1) {
      LosingSeconds(filters, t);
    }
    LosingEvents(filters, Sample(2));
    assert Sample(2) in Window(All(stores), 1, 3);
  }

  /** Completeness against every honest relay holds exactly for one filter. */
  lemma CompleteIffOneFilter(filters: nat, limit: nat)
    requires filters >= 1 && limit >= 1
    ensures CompleteFor(filters, limit) <==> filters == 1
  {
    if filters == 1 {
      forall ctx: Context, stores: seq<Store>, cap: nat, idle: nat -> bool, start: int, end: int
        | |ctx.filters| == 1 && ctx.limit == limit && start <= end && HonestMany(ctx, stores, cap)
        ensures Keeps(ctx, stores, cap, idle, start, end)
      {
        OneFilterKeeps(ctx, stores, cap, idle, start, end);
      }
    } else {
      LosingIsHonest(filters, limit);
      SeveralFiltersLose(filters, limit);
    }
  }
}
