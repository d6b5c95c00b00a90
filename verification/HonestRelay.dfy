/**
 A relay that keeps to the `limit` rule of NIP-01, with a hidden cap of its own:
 each answer holds as many matching events as the limit and the cap allow, and
 no event it omits is strictly newer than one it includes. Ties may be broken
 differently from request to request.
 */
module HonestRelay {
  import opened Batches
  import opened Keyset
  import opened Nostr
  import opened Fetching

  type Store = set<NostrEvent>

  ghost function Window(store: Store, since: int, until: int): set<NostrEvent> {
    set e | e in store && since <= e.createdAt <= until
  }

  ghost predicate Repeats(s: seq<NostrEvent>) {
    exists i, j :: 0 <= i < j < |s| && s[i] == s[j]
  }

  ghost predicate Newest(store: Store, since: int, until: int, s: seq<NostrEvent>) {
    forall e, x :: e in s && x in Window(store, since, until) && x !in s ==> x.createdAt <= e.createdAt
  }

  ghost predicate HonestAnswer(store: Store, cap: nat, request: Request, s: seq<NostrEvent>) {
    var window := Window(store, request.since, request.until);
    && !Repeats(s)
    && Elems(s) <= window
    && |s| == Min(Min(request.limit, cap), |window|)
    && Newest(store, request.since, request.until, s)
  }

  /** One filter, a fixed store of signed matching events, and a cap of at least one. */
  ghost predicate Honest(ctx: Context, store: Store, cap: nat) {
    && |ctx.filters| == 1 && ctx.limit >= 1 && cap >= 1
    && (forall e :: e in store ==> e.signed && ctx.filters[0](e))
    && (forall d, e :: d in store && e in store && d.id == e.id ==> d == e)
    && (forall n: nat, request: Request :: request.filter == 0 ==>
          HonestAnswer(store, cap, request, ctx.relay(n, request)))
  }

  // ----- A fetch returns the honest answer -----

  /** Fresh, admitted events are taken in order as far as the limit allows. */
  lemma NextIsNew(acc: seq<NostrEvent>, stream: seq<NostrEvent>)
    requires stream != [] && DistinctIds(acc + stream)
    ensures !HasId(acc, stream[0].id)
  {
    var all := acc + stream;
    assert all[|acc|] == stream[0];
    assert forall i :: 0 <= i < |acc| ==> acc[i] == all[i] && all[i].id != all[|acc|].id;
  }

  lemma {:induction false} AcceptTakesAll(f: Filter, since: int, until: int, limit: nat, acc: seq<NostrEvent>,
          stream: seq<NostrEvent>)
    requires |acc| <= limit
    requires forall e :: e in stream ==> Admits(f, since, until, e)
    requires DistinctIds(acc + stream)
    ensures Accept(f, since, until, limit, acc, stream) == acc + stream[..Min(limit - |acc|, |stream|)]
    decreases |stream|
  {
    if |acc| == limit || stream == [] {
      assert acc + stream[..0] == acc;
    } else {
      var acc' := acc + [stream[0]];
      assert acc' + stream[1..] == acc + stream;
      NextIsNew(acc, stream);
      AcceptTakesAll(f, since, until, limit, acc', stream[1..]);
      var n := Min(limit - |acc|, |stream|);
      assert acc' + stream[1..][..n - 1] == acc + stream[..n];
    }
  }

  ghost predicate HonestFetcher(store: Store, cap: nat, fetch: Fetcher) {
    forall n: nat, since: int, until: int, limit: nat ::
      HonestAnswer(store, cap, Request(0, since, until, limit), fetch(n, since, until, limit).events)
  }

  lemma OneFetchIsHonest(ctx: Context, store: Store, cap: nat, n: nat, since: int, until: int, limit: nat)
    requires Honest(ctx, store, cap)
    ensures Fetch(ctx, n, since, until, limit).events == ctx.relay(n, Request(0, since, until, limit))
  {
    var request := Request(0, since, until, limit);
    var s := ctx.relay(n, request);
    assert HonestAnswer(store, cap, request, s);
    forall e | e in s ensures e in store && Admits(ctx.filters[0], since, until, e) {
      assert e in Elems(s);
    }
    assert [] + s == s && s[..|s|] == s;
    AcceptTakesAll(ctx.filters[0], since, until, limit, [], s);
    assert FetchFrom(ctx, n, 0, since, until, limit, []).events == s;
  }

  /** Validation keeps the whole of an honest answer. */
  lemma FetchIsHonest(ctx: Context, store: Store, cap: nat)
    requires Honest(ctx, store, cap)
    ensures HonestFetcher(store, cap, FetcherOf(ctx))
  {
    forall n: nat, since: int, until: int, limit: nat
      ensures HonestAnswer(store, cap, Request(0, since, until, limit), FetcherOf(ctx)(n, since, until, limit).events)
    {
      assert HonestAnswer(store, cap, Request(0, since, until, limit), ctx.relay(n, Request(0, since, until, limit)));
      OneFetchIsHonest(ctx, store, cap, n, since, until, limit);
      assert FetcherOf(ctx)(n, since, until, limit) == Fetch(ctx, n, since, until, limit);
    }
  }

  /** An honest answer is empty exactly when the window is. */
  lemma HonestNonempty(store: Store, cap: nat, request: Request, s: seq<NostrEvent>)
    requires HonestAnswer(store, cap, request, s) && cap >= 1 && request.limit >= 1
    ensures s == [] <==> Window(store, request.since, request.until) == {}
  {
  }

  lemma HonestSize(store: Store, cap: nat, request: Request, s: seq<NostrEvent>)
    requires HonestAnswer(store, cap, request, s)
    ensures |Elems(s)| == |s|
    ensures |s| < Min(request.limit, cap) ==> Elems(s) == Window(store, request.since, request.until)
  {
    DistinctSize(s);
    SubsetSize(Elems(s), Window(store, request.since, request.until));
  }

  /** Everything in the window above the oldest second of an honest answer is in the answer. */
  lemma AboveOldest(store: Store, cap: nat, request: Request, s: seq<NostrEvent>, x: NostrEvent)
    requires HonestAnswer(store, cap, request, s) && s != []
    requires x in Window(store, request.since, request.until) && x.createdAt > MinTime(s)
    ensures x in s
  {
    var e :| e in s && e.createdAt == MinTime(s);
    assert x !in s ==> x.createdAt <= e.createdAt;
  }

  // ----- Exactness of a window -----

  /** `emitted` holds, of each second from `since` to `until`, as many stored events as `c` allows. */
  ghost predicate Exact(store: Store, c: nat, since: int, until: int, emitted: set<NostrEvent>) {
    && emitted <= Window(store, since, until)
    && forall t :: since <= t <= until ==> |Window(emitted, t, t)| == Min(c, |Window(store, t, t)|)
  }

  ghost predicate HasOlder(store: Store, since: int, t: int) {
    exists x :: x in store && since <= x.createdAt < t
  }

  lemma BoundaryHoldsOldest(store: Store, cap: nat, limit: nat, since: int, oldest: NostrEvent,
          boundary: seq<NostrEvent>)
    requires cap >= 1 && limit >= 1 && oldest in store && since <= oldest.createdAt
    requires HonestAnswer(store, cap, Request(0, since, oldest.createdAt, limit), boundary)
    ensures boundary != []
    ensures !AllAt(boundary, oldest.createdAt) ==> HasOlder(store, since, oldest.createdAt)
  {
    var request := Request(0, since, oldest.createdAt, limit);
    assert oldest in Window(store, since, oldest.createdAt);
    HonestNonempty(store, cap, request, boundary);
    if !AllAt(boundary, oldest.createdAt) {
      var low :| low in boundary && low.createdAt != oldest.createdAt;
      assert low in Elems(boundary);
      assert low in store && since <= low.createdAt < oldest.createdAt;
    }
  }

  lemma ProbeDetectsOlder(store: Store, cap: nat, since: int, t: int, probe: seq<NostrEvent>)
    requires cap >= 1 && HonestAnswer(store, cap, Request(0, since, t - 1, 1), probe)
    ensures probe != [] <==> HasOlder(store, since, t)
  {
    HonestNonempty(store, cap, Request(0, since, t - 1, 1), probe);
    if HasOlder(store, since, t) {
      var x :| x in store && since <= x.createdAt < t;
      assert x in Window(store, since, t - 1);
    }
    if probe != [] {
      var x :| x in Window(store, since, t - 1);
      assert x in store && since <= x.createdAt < t;
    }
  }

  lemma VerifyAtDetectsTruncation(store: Store, cap: nat, fetch: Fetcher, limit: nat, requests: nat,
          events: seq<NostrEvent>, since: int, oldest: NostrEvent)
    requires HonestFetcher(store, cap, fetch) && cap >= 1 && limit >= 1
    requires oldest in store && since <= oldest.createdAt
    ensures VerifyAt(fetch, limit, requests, events, since, oldest.createdAt).events.None?
         <==> HasOlder(store, since, oldest.createdAt)
  {
    var minTs := oldest.createdAt;
    var boundary := fetch(requests, since, minTs, limit);
    assert HonestAnswer(store, cap, Request(0, since, minTs, limit), boundary.events);
    BoundaryHoldsOldest(store, cap, limit, since, oldest, boundary.events);
    if minTs > since {
      var probe := fetch(boundary.requests, since, minTs - 1, 1);
      assert HonestAnswer(store, cap, Request(0, since, minTs - 1, 1), probe.events);
      ProbeDetectsOlder(store, cap, since, minTs, probe.events);
    }
  }

  /**
   Against an honest relay and one filter the check fails exactly when the
   window holds an event older than the oldest one fetched.
   */
  lemma VerifyDetectsTruncation(store: Store, cap: nat, fetch: Fetcher, limit: nat, requests: nat,
          events: seq<NostrEvent>, since: int, until: int)
    requires HonestFetcher(store, cap, fetch) && cap >= 1 && limit >= 1
    requires events != [] && HonestAnswer(store, cap, Request(0, since, until, limit), events)
    ensures Verify(fetch, limit, requests, events, since).events.None? <==> HasOlder(store, since, MinTime(events))
  {
    var minTs := MinTime(events);
    var oldest :| oldest in events && oldest.createdAt == minTs;
    assert oldest in Elems(events);
    VerifyAtDetectsTruncation(store, cap, fetch, limit, requests, events, since, oldest);
  }

  lemma CombinedAtOldest(store: Store, boundary: seq<NostrEvent>, events: seq<NostrEvent>, minTs: nat)
    requires forall e :: e in boundary ==> e.createdAt == minTs
    ensures Window(Elems(boundary + Without(events, minTs)), minTs, minTs) == Elems(boundary)
  {
    WithoutElems(events, minTs);
  }

  lemma CombinedAbove(store: Store, boundary: seq<NostrEvent>, events: seq<NostrEvent>, minTs: nat, t: int)
    requires t != minTs && forall e :: e in boundary ==> e.createdAt == minTs
    ensures Window(Elems(boundary + Without(events, minTs)), t, t) == Window(Elems(events), t, t)
  {
    WithoutElems(events, minTs);
  }

  lemma CombinedIsExact(store: Store, cap: nat, limit: nat, events: seq<NostrEvent>, boundary: seq<NostrEvent>,
          since: int, until: int)
    requires events != [] && HonestAnswer(store, cap, Request(0, since, until, limit), events)
    requires HonestAnswer(store, cap, Request(0, since, MinTime(events), limit), boundary)
    requires AllAt(boundary, MinTime(events)) && !HasOlder(store, since, MinTime(events))
    ensures Exact(store, Min(limit, cap), since, until, Elems(boundary + Without(events, MinTime(events))))
  {
    var minTs := MinTime(events);
    var emitted := Elems(boundary + Without(events, minTs));
    assert forall e :: e in boundary ==> e in Elems(boundary);
    assert forall e :: e in events ==> e in Elems(events);
    WithoutElems(events, minTs);
    var oldest :| oldest in events && oldest.createdAt == minTs;
    assert emitted <= Window(store, since, until);
    forall t | since <= t <= until ensures |Window(emitted, t, t)| == Min(Min(limit, cap), |Window(store, t, t)|) {
      if t == minTs {
        CombinedAtOldest(store, boundary, events, minTs);
        OldestSecondIsWindow(store, since, minTs);
        HonestSize(store, cap, Request(0, since, minTs, limit), boundary);
      } else {
        CombinedAbove(store, boundary, events, minTs, t);
        SecondIsFetched(store, cap, Request(0, since, until, limit), events, t);
      }
    }
  }

  lemma OldestSecondIsWindow(store: Store, since: int, t: int)
    requires since <= t && !HasOlder(store, since, t)
    ensures Window(store, t, t) == Window(store, since, t)
  {
    forall x | x in Window(store, since, t) ensures x.createdAt == t {
      assert x in store;
    }
  }

  /** When it succeeds, the combined events are exact on the whole window. */
  lemma VerifiedIsExact(store: Store, cap: nat, fetch: Fetcher, limit: nat, requests: nat,
          events: seq<NostrEvent>, since: int, until: int)
    requires HonestFetcher(store, cap, fetch) && cap >= 1 && limit >= 1
    requires events != [] && HonestAnswer(store, cap, Request(0, since, until, limit), events)
    requires Verify(fetch, limit, requests, events, since).events.Some?
    ensures Exact(store, Min(limit, cap), since, until,
        Elems(Verify(fetch, limit, requests, events, since).events.value))
  {
    var minTs := MinTime(events);
    VerifyDetectsTruncation(store, cap, fetch, limit, requests, events, since, until);
    var boundary := fetch(requests, since, minTs, limit).events;
    assert HonestAnswer(store, cap, Request(0, since, minTs, limit), boundary);
    assert Verify(fetch, limit, requests, events, since).events.value == boundary + Without(events, minTs);
    CombinedIsExact(store, cap, limit, events, boundary, since, until);
  }

  /** A second above the oldest one is fetched whole; below it, if nothing is older, there is nothing. */
  lemma SecondIsFetched(store: Store, cap: nat, request: Request, s: seq<NostrEvent>, t: int)
    requires HonestAnswer(store, cap, request, s) && s != [] && request.since <= t <= request.until
    requires t != MinTime(s) && !HasOlder(store, request.since, MinTime(s))
    ensures |Window(Elems(s), t, t)| == Min(Min(request.limit, cap), |Window(store, t, t)|)
  {
    forall x ensures x in Window(Elems(s), t, t) <==> x in Window(store, t, t) {
      if x in Window(store, t, t) {
        assert !(x in store && request.since <= x.createdAt < MinTime(s));
        AboveOldest(store, cap, request, s, x);
      }
    }
    assert Window(Elems(s), t, t) == Window(store, t, t);
    HonestSize(store, cap, request, s);
    SubsetSize(Window(Elems(s), t, t), Elems(s));
  }

  /** A window of one second is emitted exactly. */
  lemma SecondIsExact(store: Store, cap: nat, limit: nat, t: int, s: seq<NostrEvent>)
    requires HonestAnswer(store, cap, Request(0, t, t, limit), s)
    ensures Exact(store, Min(limit, cap), t, t, Elems(s))
  {
    HonestSize(store, cap, Request(0, t, t, limit), s);
    assert Window(Elems(s), t, t) == Elems(s);
  }

  lemma EmptyIsExact(store: Store, c: nat, since: int, until: int)
    requires Window(store, since, until) == {}
    ensures Exact(store, c, since, until, {})
  {
    forall t | since <= t <= until ensures |Window({}, t, t)| == Min(c, |Window(store, t, t)|) {
      assert Window(store, t, t) <= Window(store, since, until);
      assert Window(store, t, t) == {};
      assert Window({}, t, t) == {};
    }
  }

  /** Exact neighbours join into an exact range. */
  lemma ExactJoin(store: Store, c: nat, since: int, mid: int, until: int, a: set<NostrEvent>, b: set<NostrEvent>)
    requires since <= mid + 1 <= until + 1
    requires Exact(store, c, since, mid, a) && Exact(store, c, mid + 1, until, b)
    ensures Exact(store, c, since, until, a + b)
  {
    forall t | since <= t <= until ensures |Window(a + b, t, t)| == Min(c, |Window(store, t, t)|) {
      if t <= mid {
        assert Window(a + b, t, t) == Window(a, t, t);
      } else {
        assert Window(a + b, t, t) == Window(b, t, t);
      }
    }
  }

  /** If no second holds more than `c` events, exact means everything. */
  lemma ExactIsWhole(store: Store, c: nat, since: int, until: int, emitted: set<NostrEvent>, t: int)
    requires Exact(store, c, since, until, emitted) && since <= t <= until
    requires |Window(store, t, t)| <= c
    ensures Window(emitted, t, t) == Window(store, t, t)
  {
    SubsetSize(Window(emitted, t, t), Window(store, t, t));
  }
}
