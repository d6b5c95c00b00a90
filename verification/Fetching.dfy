/**
 One validated fetch from a relay, and the completeness check made of two more.

 A relay is any function from the number of the request and the request itself
 to the events it delivers before the end of the stream or a timeout, so it may
 be adaptive, inconsistent or hostile.
 */
module Fetching {
  import opened Keyset
  import opened Nostr

  /** A base filter, without time range. */
  type Filter = NostrEvent -> bool

  datatype Request = Request(filter: nat, since: int, until: int, limit: nat)

  type Relay = (nat, Request) -> seq<NostrEvent>

  datatype Context = Context(relay: Relay, filters: seq<Filter>, limit: nat, maxEventSize: Option<nat>)

  /** A connection; it counts the requests it has sent. */
  class Client {
    const relay: Relay
    var requests: nat

    constructor (relay: Relay)
      ensures this.relay == relay && requests == 0
    {
      this.relay := relay;
      requests := 0;
    }

    method StreamEvents(request: Request) returns (stream: seq<NostrEvent>)
      modifies this
      ensures requests == old(requests) + 1
      ensures stream == relay(old(requests), request)
    {
      stream := relay(requests, request);
      requests := requests + 1;
    }
  }

  /** `windowed.match_event(evt)` and `evt.verify()`. */
  predicate Admits(f: Filter, since: int, until: int, e: NostrEvent) {
    f(e) && since <= e.createdAt <= until && e.signed
  }

  predicate HasId(events: seq<NostrEvent>, id: nat) {
    exists i :: 0 <= i < |events| && events[i].id == id
  }

  /** Consumes one stream until it ends or `limit` events are held. */
  function Accept(f: Filter, since: int, until: int, limit: nat, acc: seq<NostrEvent>,
          stream: seq<NostrEvent>): seq<NostrEvent>
    decreases |stream|
  {
    if |acc| >= limit || stream == [] then acc
    else
      var keep := Admits(f, since, until, stream[0]) && !HasId(acc, stream[0].id);
      Accept(f, since, until, limit, if keep then acc + [stream[0]] else acc, stream[1..])
  }

  datatype Fetched = Fetched(events: seq<NostrEvent>, requests: nat)

  /** The fetch over the filters from index `k` on, with `requests` requests already sent. */
  function FetchFrom(ctx: Context, requests: nat, k: nat, since: int, until: int, limit: nat,
          acc: seq<NostrEvent>): Fetched
    requires k <= |ctx.filters|
    decreases |ctx.filters| - k
  {
    if k == |ctx.filters| then Fetched(acc, requests)
    else
      var stream := ctx.relay(requests, Request(k, since, until, limit));
      var acc' := Accept(ctx.filters[k], since, until, limit, acc, stream);
      if |acc'| >= limit then Fetched(acc', requests + 1)
      else FetchFrom(ctx, requests + 1, k + 1, since, until, limit, acc')
  }

  function Fetch(ctx: Context, requests: nat, since: int, until: int, limit: nat): Fetched {
    FetchFrom(ctx, requests, 0, since, until, limit, [])
  }

  /** How fetches answer: requests sent so far, window and limit. */
  type Fetcher = (nat, int, int, nat) -> Fetched

  function FetcherOf(ctx: Context): Fetcher {
    (requests: nat, since: int, until: int, limit: nat) => Fetch(ctx, requests, since, until, limit)
  }

  method FetchValidated(client: Client, ctx: Context, since: int, until: int, limit: nat)
    returns (events: seq<NostrEvent>)
    requires client.relay == ctx.relay
    modifies client
    ensures Fetched(events, client.requests) == FetcherOf(ctx)(old(client.requests), since, until, limit)
  {
    events := [];
    var seenIds: set<nat> := {};
    var k := 0;
    while k < |ctx.filters|
      invariant k <= |ctx.filters|
      invariant forall id :: id in seenIds <==> HasId(events, id)
      invariant FetchFrom(ctx, client.requests, k, since, until, limit, events)
             == Fetch(ctx, old(client.requests), since, until, limit)
    {
      ghost var requests, acc := client.requests, events;
      var stream := client.StreamEvents(Request(k, since, until, limit));
      ghost var expected := Accept(ctx.filters[k], since, until, limit, acc, stream);
      assert FetchFrom(ctx, requests, k, since, until, limit, acc)
          == if |expected| >= limit then Fetched(expected, requests + 1)
             else FetchFrom(ctx, requests + 1, k + 1, since, until, limit, expected);
      var i := 0;
      while |events| < limit && i < |stream|
        invariant i <= |stream| && client.requests == requests + 1
        invariant forall id :: id in seenIds <==> HasId(events, id)
        invariant Accept(ctx.filters[k], since, until, limit, events, stream[i..]) == expected
      {
        var evt := stream[i];
        assert stream[i..][0] == evt && stream[i..][1..] == stream[i + 1..];
        i := i + 1;
        if Admits(ctx.filters[k], since, until, evt) && evt.id !in seenIds {
          HasIdAppend(events, evt);
          seenIds := seenIds + {evt.id};
          events := events + [evt];
        }
      }
      assert events == expected;
      if |events| >= limit {
        return;
      }
      k := k + 1;
    }
  }

  lemma HasIdAppend(events: seq<NostrEvent>, evt: NostrEvent)
    ensures forall id :: HasId(events + [evt], id) <==> HasId(events, id) || id == evt.id
  {
    forall id ensures HasId(events + [evt], id) <==> HasId(events, id) || id == evt.id {
      if HasId(events, id) {
        var i :| 0 <= i < |events| && events[i].id == id;
        assert (events + [evt])[i].id == id;
      }
      assert (events + [evt])[|events|].id == evt.id;
    }
  }

  // ----- What a fetch guarantees against any relay -----

  ghost predicate DistinctIds(events: seq<NostrEvent>) {
    forall i, j :: 0 <= i < j < |events| ==> events[i].id != events[j].id
  }

  ghost predicate Delivered(ctx: Context, e: NostrEvent) {
    exists n, request :: e in ctx.relay(n, request)
  }

  /** Sent by the relay, correctly signed and matched by one of the filters. */
  ghost predicate Genuine(ctx: Context, e: NostrEvent) {
    && Delivered(ctx, e)
    && e.signed
    && exists k :: 0 <= k < |ctx.filters| && ctx.filters[k](e)
  }

  ghost predicate GenuineIn(ctx: Context, since: int, until: int, events: seq<NostrEvent>) {
    forall e :: e in events ==> Genuine(ctx, e) && since <= e.createdAt <= until
  }

  lemma {:induction false} AcceptIsSound(ctx: Context, k: nat, since: int, until: int, limit: nat,
          acc: seq<NostrEvent>, stream: seq<NostrEvent>)
    requires k < |ctx.filters| && forall e :: e in stream ==> Delivered(ctx, e)
    requires DistinctIds(acc) && GenuineIn(ctx, since, until, acc) && |acc| <= limit
    ensures var r := Accept(ctx.filters[k], since, until, limit, acc, stream);
            DistinctIds(r) && GenuineIn(ctx, since, until, r) && |r| <= limit
    decreases |stream|
  {
    if |acc| < limit && stream != [] {
      var keep := Admits(ctx.filters[k], since, until, stream[0]) && !HasId(acc, stream[0].id);
      AcceptIsSound(ctx, k, since, until, limit, if keep then acc + [stream[0]] else acc, stream[1..]);
    }
  }

  lemma {:induction false} FetchFromIsSound(ctx: Context, requests: nat, k: nat, since: int, until: int,
          limit: nat, acc: seq<NostrEvent>)
    requires k <= |ctx.filters|
    requires DistinctIds(acc) && GenuineIn(ctx, since, until, acc) && |acc| <= limit
    ensures var r := FetchFrom(ctx, requests, k, since, until, limit, acc);
            && DistinctIds(r.events) && GenuineIn(ctx, since, until, r.events) && |r.events| <= limit
            && requests <= r.requests <= requests + |ctx.filters| - k
    decreases |ctx.filters| - k
  {
    if k < |ctx.filters| {
      var stream := ctx.relay(requests, Request(k, since, until, limit));
      AcceptIsSound(ctx, k, since, until, limit, acc, stream);
      var acc' := Accept(ctx.filters[k], since, until, limit, acc, stream);
      if |acc'| < limit {
        FetchFromIsSound(ctx, requests + 1, k + 1, since, until, limit, acc');
      }
    }
  }

  ghost predicate SoundAnswer(ctx: Context, requests: nat, since: int, until: int, limit: nat, r: Fetched) {
    && DistinctIds(r.events) && GenuineIn(ctx, since, until, r.events) && |r.events| <= limit
    && requests <= r.requests <= requests + |ctx.filters|
  }

  ghost predicate Sound(ctx: Context, fetch: Fetcher) {
    forall n: nat, since: int, until: int, limit: nat ::
      SoundAnswer(ctx, n, since, until, limit, fetch(n, since, until, limit))
  }

  /** The four guarantees of a fetch: filtered, verified, deduplicated, limited. */
  lemma FetchIsSound(ctx: Context)
    ensures Sound(ctx, FetcherOf(ctx))
  {
    forall n: nat, since: int, until: int, limit: nat
      ensures SoundAnswer(ctx, n, since, until, limit, FetcherOf(ctx)(n, since, until, limit))
    {
      FetchFromIsSound(ctx, n, 0, since, until, limit, []);
    }
  }

  // ----- What a fetch holds of the answers it has consumed -----

  /** The answer to the request a fetch makes for filter `j`, if its first request has number `n`. */
  function AnswerTo(ctx: Context, n: nat, since: int, until: int, limit: nat, j: nat): seq<NostrEvent> {
    ctx.relay(n + j, Request(j, since, until, limit))
  }

  /** `e` is signed, matched by `f` and in the window. */
  ghost predicate Wanted(f: Filter, since: int, until: int, e: NostrEvent) {
    f(e) && e.signed && since <= e.createdAt <= until
  }

  /** Every wanted event of the consumed ones has its identifier in `r`. */
  ghost predicate Holds(f: Filter, since: int, until: int, consumed: seq<NostrEvent>, r: seq<NostrEvent>) {
    forall e :: e in consumed && Wanted(f, since, until, e) ==> HasId(r, e.id)
  }

  /** What has been added to `acc` are wanted events of the consumed ones. */
  ghost predicate Added(f: Filter, since: int, until: int, consumed: seq<NostrEvent>, acc: seq<NostrEvent>,
          r: seq<NostrEvent>)
  {
    acc <= r && forall p :: |acc| <= p < |r| ==> r[p] in consumed && Wanted(f, since, until, r[p])
  }

  /** A full result ends with the last consumed event. */
  ghost predicate EndsFull(limit: nat, consumed: seq<NostrEvent>, r: seq<NostrEvent>) {
    |r| >= limit ==> |r| == limit && consumed != [] && r != [] && consumed[|consumed| - 1] == r[|r| - 1]
  }

  /** Of an answer the first `cut` events are consumed: all of them, or up to the one that fills the limit. */
  lemma {:induction false} AcceptTakes(f: Filter, since: int, until: int, limit: nat, acc: seq<NostrEvent>,
          stream: seq<NostrEvent>)
    returns (cut: nat)
    ensures var r := Accept(f, since, until, limit, acc, stream);
            && cut <= |stream| && (|r| < limit ==> cut == |stream|) && (|acc| >= limit ==> cut == 0)
            && (|acc| < limit ==> EndsFull(limit, stream[..cut], r))
            && Holds(f, since, until, stream[..cut], r) && Added(f, since, until, stream[..cut], acc, r)
    decreases |stream|
  {
    if |acc| >= limit || stream == [] {
      cut := 0;
    } else {
      var e, tail := stream[0], stream[1..];
      var keep := Admits(f, since, until, e) && !HasId(acc, e.id);
      var more := if keep then acc + [e] else acc;
      var rest := AcceptTakes(f, since, until, limit, more, tail);
      cut := rest + 1;
      var r := Accept(f, since, until, limit, more, tail);
      assert r == Accept(f, since, until, limit, acc, stream);
      assert stream[..cut] == [e] + tail[..rest];
      if Admits(f, since, until, e) {
        HasIdAppend(acc, e);
        HasIdExtends(more, r, e.id);
      }
      OneMoreConsumed(f, since, until, limit, acc, more, e, tail[..rest], r);
    }
  }

  lemma OneMoreConsumed(f: Filter, since: int, until: int, limit: nat, acc: seq<NostrEvent>, more: seq<NostrEvent>,
          e: NostrEvent, consumed: seq<NostrEvent>, r: seq<NostrEvent>)
    requires more == acc || (more == acc + [e] && Wanted(f, since, until, e))
    requires |acc| < limit && (|more| < limit ==> EndsFull(limit, consumed, r))
    requires |more| >= limit ==> consumed == [] && r == more
    requires Holds(f, since, until, consumed, r) && Added(f, since, until, consumed, more, r)
    requires Wanted(f, since, until, e) ==> HasId(r, e.id)
    ensures EndsFull(limit, [e] + consumed, r)
    ensures Holds(f, since, until, [e] + consumed, r) && Added(f, since, until, [e] + consumed, acc, r)
  {
  }

  lemma HasIdExtends(events: seq<NostrEvent>, longer: seq<NostrEvent>, id: nat)
    requires events <= longer && HasId(events, id)
    ensures HasId(longer, id)
  {
    var i :| 0 <= i < |events| && events[i].id == id;
    assert longer[i].id == id;
  }

  /** What is held after the answers for the first `j` filters. */
  function Gathered(ctx: Context, n: nat, since: int, until: int, limit: nat, j: nat): seq<NostrEvent>
    requires j <= |ctx.filters|
  {
    if j == 0 then []
    else
      Accept(ctx.filters[j - 1], since, until, limit, Gathered(ctx, n, since, until, limit, j - 1),
        AnswerTo(ctx, n, since, until, limit, j - 1))
  }

  lemma FetchEnds(ctx: Context, n: nat, since: int, until: int, limit: nat, k: nat, acc: seq<NostrEvent>)
    returns (r: Fetched)
    requires k == |ctx.filters|
    ensures r == FetchFrom(ctx, n + k, k, since, until, limit, acc) == Fetched(acc, n + k)
  {
    r := Fetched(acc, n + k);
  }

  lemma FetchStops(ctx: Context, n: nat, since: int, until: int, limit: nat, k: nat, acc: seq<NostrEvent>,
          more: seq<NostrEvent>)
    returns (r: Fetched)
    requires k < |ctx.filters| && |more| >= limit
    requires more == Accept(ctx.filters[k], since, until, limit, acc, AnswerTo(ctx, n, since, until, limit, k))
    ensures r == FetchFrom(ctx, n + k, k, since, until, limit, acc) == Fetched(more, n + (k + 1))
  {
    r := Fetched(more, n + (k + 1));
  }

  lemma FetchGoesOn(ctx: Context, n: nat, since: int, until: int, limit: nat, k: nat, acc: seq<NostrEvent>,
          more: seq<NostrEvent>, r: Fetched)
    requires k < |ctx.filters| && |more| < limit
    requires more == Accept(ctx.filters[k], since, until, limit, acc, AnswerTo(ctx, n, since, until, limit, k))
    requires r == FetchFrom(ctx, n + (k + 1), k + 1, since, until, limit, more)
    ensures r == FetchFrom(ctx, n + k, k, since, until, limit, acc)
  {
  }

  lemma NextGathered(ctx: Context, n: nat, since: int, until: int, limit: nat, k: nat, acc: seq<NostrEvent>)
    returns (more: seq<NostrEvent>)
    requires k < |ctx.filters| && acc == Gathered(ctx, n, since, until, limit, k)
    ensures more == Gathered(ctx, n, since, until, limit, k + 1)
    ensures more == Accept(ctx.filters[k], since, until, limit, acc, AnswerTo(ctx, n, since, until, limit, k))
  {
    more := Gathered(ctx, n, since, until, limit, k + 1);
  }

  /** The fetch stops where the limit is reached, or after the last filter. */
  lemma {:induction false} FetchIsGathered(ctx: Context, n: nat, k: nat, since: int, until: int, limit: nat,
          acc: seq<NostrEvent>)
    returns (asked: nat, r: Fetched, last: nat, before: seq<NostrEvent>)
    requires k <= |ctx.filters| && acc == Gathered(ctx, n, since, until, limit, k) && |acc| < limit
    ensures r == FetchFrom(ctx, n + k, k, since, until, limit, acc)
    ensures k <= asked <= |ctx.filters| && r == Fetched(Gathered(ctx, n, since, until, limit, asked), n + asked)
    ensures |r.events| < limit ==> asked == |ctx.filters|
    ensures |r.events| >= limit ==> last + 1 == asked && |before| < limit
    ensures last <= |ctx.filters| && before == Gathered(ctx, n, since, until, limit, last)
    decreases |ctx.filters| - k
  {
    if k == |ctx.filters| {
      r := FetchEnds(ctx, n, since, until, limit, k, acc);
      asked, last, before := k, k, acc;
    } else {
      var more := NextGathered(ctx, n, since, until, limit, k, acc);
      if |more| < limit {
        asked, r, last, before := FetchIsGathered(ctx, n, k + 1, since, until, limit, more);
        FetchGoesOn(ctx, n, since, until, limit, k, acc, more, r);
      } else {
        r := FetchStops(ctx, n, since, until, limit, k, acc, more);
        asked, last, before := k + 1, k, acc;
      }
    }
  }

  /** Every wanted event of answer `j` has its identifier in `r`. */
  ghost predicate AnswerIsHeld(ctx: Context, n: nat, since: int, until: int, limit: nat, j: nat, r: seq<NostrEvent>)
    requires j < |ctx.filters|
  {
    forall e :: e in ctx.relay(n + j, Request(j, since, until, limit)) && Wanted(ctx.filters[j], since, until, e)
      ==> exists i :: 0 <= i < |r| && r[i].id == e.id
  }

  /** Some answer before `asked` holds `e`, and its filter wants it. */
  ghost predicate IsAnswered(ctx: Context, n: nat, since: int, until: int, limit: nat, asked: nat, e: NostrEvent)
    requires asked <= |ctx.filters|
  {
    exists j: nat :: j < asked && IsAnsweredBy(ctx, n, since, until, limit, j, e)
  }

  ghost predicate IsAnsweredBy(ctx: Context, n: nat, since: int, until: int, limit: nat, j: nat, e: NostrEvent)
    requires j < |ctx.filters|
  {
    e in ctx.relay(n + j, Request(j, since, until, limit)) && Wanted(ctx.filters[j], since, until, e)
  }

  /** The last of `asked` answers fills the limit with its event before `cut`. */
  ghost predicate FilledBy(ctx: Context, n: nat, since: int, until: int, limit: nat, asked: nat, cut: nat,
          r: seq<NostrEvent>)
    requires 0 < asked <= |ctx.filters|
  {
    var last := ctx.relay(n + asked - 1, Request(asked - 1, since, until, limit));
    && 0 < cut <= |last| && |r| == limit && r != [] && r[|r| - 1] == last[cut - 1]
    && (forall i :: 0 <= i < cut && Wanted(ctx.filters[asked - 1], since, until, last[i])
          ==> exists p :: 0 <= p < |r| && r[p].id == last[i].id)
  }

  lemma HeldLonger(ctx: Context, n: nat, since: int, until: int, limit: nat, j: nat, r: seq<NostrEvent>,
          longer: seq<NostrEvent>)
    requires j < |ctx.filters| && AnswerIsHeld(ctx, n, since, until, limit, j, r) && r <= longer
    ensures AnswerIsHeld(ctx, n, since, until, limit, j, longer)
  {
    forall e | e in ctx.relay(n + j, Request(j, since, until, limit)) && Wanted(ctx.filters[j], since, until, e)
      ensures exists i :: 0 <= i < |longer| && longer[i].id == e.id
    {
      assert HasId(r, e.id);
      HasIdExtends(r, longer, e.id);
    }
  }

  /** One more answer: of the events it adds the filter wants all, and what was held before is still held. */
  lemma NextAnswer(ctx: Context, n: nat, since: int, until: int, limit: nat, j: nat, acc: seq<NostrEvent>,
          more: seq<NostrEvent>)
    returns (cut: nat)
    requires j < |ctx.filters| && |acc| < limit
    requires more == Accept(ctx.filters[j], since, until, limit, acc, AnswerTo(ctx, n, since, until, limit, j))
    ensures acc <= more
    ensures |more| < limit ==> AnswerIsHeld(ctx, n, since, until, limit, j, more)
    ensures |more| >= limit ==> FilledBy(ctx, n, since, until, limit, j + 1, cut, more)
    ensures forall p :: |acc| <= p < |more| ==> IsAnsweredBy(ctx, n, since, until, limit, j, more[p])
  {
    var f, answer := ctx.filters[j], AnswerTo(ctx, n, since, until, limit, j);
    cut := AcceptTakes(f, since, until, limit, acc, answer);
    assert |more| < limit ==> answer[..cut] == answer;
    assert forall i :: 0 <= i < cut ==> answer[i] in answer[..cut];
    assert forall id :: HasId(more, id) ==> exists i :: 0 <= i < |more| && more[i].id == id;
  }

  ghost predicate AllHeld(ctx: Context, n: nat, since: int, until: int, limit: nat, j: nat, r: seq<NostrEvent>)
    requires j <= |ctx.filters|
  {
    forall i :: 0 <= i < j ==> AnswerIsHeld(ctx, n, since, until, limit, i, r)
  }

  ghost predicate AllAnswered(ctx: Context, n: nat, since: int, until: int, limit: nat, j: nat, r: seq<NostrEvent>)
    requires j <= |ctx.filters|
  {
    forall e :: e in r ==> IsAnswered(ctx, n, since, until, limit, j, e)
  }

  lemma AllHeldLonger(ctx: Context, n: nat, since: int, until: int, limit: nat, j: nat, r: seq<NostrEvent>,
          longer: seq<NostrEvent>)
    requires j <= |ctx.filters| && AllHeld(ctx, n, since, until, limit, j, r) && r <= longer
    ensures AllHeld(ctx, n, since, until, limit, j, longer)
  {
    forall i | 0 <= i < j ensures AnswerIsHeld(ctx, n, since, until, limit, i, longer) {
      HeldLonger(ctx, n, since, until, limit, i, r, longer);
    }
  }

  lemma OneMoreAnswered(ctx: Context, n: nat, since: int, until: int, limit: nat, j: nat, acc: seq<NostrEvent>,
          more: seq<NostrEvent>)
    requires j < |ctx.filters| && AllAnswered(ctx, n, since, until, limit, j, acc) && acc <= more
    requires forall p :: |acc| <= p < |more| ==> IsAnsweredBy(ctx, n, since, until, limit, j, more[p])
    ensures AllAnswered(ctx, n, since, until, limit, j + 1, more)
  {
    forall e | e in more ensures IsAnswered(ctx, n, since, until, limit, j + 1, e) {
      var p :| 0 <= p < |more| && more[p] == e;
      if p < |acc| {
        assert acc[p] in acc;
        var i: nat :| i < j && IsAnsweredBy(ctx, n, since, until, limit, i, e);
      }
    }
  }

  /** The answer for filter `i`, on top of those before it. */
  lemma NextAnswerHolds(ctx: Context, n: nat, since: int, until: int, limit: nat, i: nat, acc: seq<NostrEvent>,
          r: seq<NostrEvent>)
    returns (cut: nat)
    requires i < |ctx.filters| && |acc| < limit
    requires AllHeld(ctx, n, since, until, limit, i, acc) && AllAnswered(ctx, n, since, until, limit, i, acc)
    requires r == Accept(ctx.filters[i], since, until, limit, acc, AnswerTo(ctx, n, since, until, limit, i))
    ensures AllHeld(ctx, n, since, until, limit, if |r| < limit then i + 1 else i, r)
    ensures AllAnswered(ctx, n, since, until, limit, i + 1, r)
    ensures |r| >= limit ==> FilledBy(ctx, n, since, until, limit, i + 1, cut, r)
  {
    cut := NextAnswer(ctx, n, since, until, limit, i, acc, r);
    AllHeldLonger(ctx, n, since, until, limit, i, acc, r);
    OneMoreAnswered(ctx, n, since, until, limit, i, acc, r);
  }

  lemma LastGathered(ctx: Context, n: nat, since: int, until: int, limit: nat, j: nat)
    returns (i: nat, acc: seq<NostrEvent>)
    requires 0 < j <= |ctx.filters|
    ensures i + 1 == j && acc == Gathered(ctx, n, since, until, limit, i)
    ensures acc <= Gathered(ctx, n, since, until, limit, j)
    ensures Gathered(ctx, n, since, until, limit, j)
         == Accept(ctx.filters[i], since, until, limit, acc, AnswerTo(ctx, n, since, until, limit, i))
  {
    i, acc := j - 1, Gathered(ctx, n, since, until, limit, j - 1);
    var cut := AcceptTakes(ctx.filters[i], since, until, limit, acc, AnswerTo(ctx, n, since, until, limit, i));
  }

  /** Below the limit, all answers so far are held. */
  lemma {:induction false} GatheredHoldsAll(ctx: Context, n: nat, since: int, until: int, limit: nat, j: nat,
          r: seq<NostrEvent>)
    requires j <= |ctx.filters| && r == Gathered(ctx, n, since, until, limit, j) && |r| < limit
    ensures AllHeld(ctx, n, since, until, limit, j, r) && AllAnswered(ctx, n, since, until, limit, j, r)
    decreases j
  {
    if j > 0 {
      var i, acc := LastGathered(ctx, n, since, until, limit, j);
      GatheredHoldsAll(ctx, n, since, until, limit, i, acc);
      var cut := NextAnswerHolds(ctx, n, since, until, limit, i, acc, r);
    }
  }

  /**
   A fetch asks the filters in order, each once. Below the limit it has asked all
   of them, and every wanted event of every answer has its identifier in the
   result. At the limit the filters it has asked are a prefix; the last answer is
   consumed up to the event that fills the limit, the others are consumed whole.
   Nothing in the result comes from anywhere else.
   */
  lemma FetchAsksInOrder(ctx: Context, n: nat, since: int, until: int, limit: nat)
    returns (asked: nat, cut: nat, r: seq<NostrEvent>)
    requires limit >= 1
    ensures Fetch(ctx, n, since, until, limit) == Fetched(r, n + asked) && asked <= |ctx.filters|
    ensures |r| < limit ==> asked == |ctx.filters|
    ensures forall j :: 0 <= j < asked - 1 ==> AnswerIsHeld(ctx, n, since, until, limit, j, r)
    ensures |r| < limit && asked > 0 ==> AnswerIsHeld(ctx, n, since, until, limit, asked - 1, r)
    ensures |r| >= limit ==> asked > 0 && FilledBy(ctx, n, since, until, limit, asked, cut, r)
    ensures forall e :: e in r ==> IsAnswered(ctx, n, since, until, limit, asked, e)
  {
    var f, last, before;
    asked, f, last, before := FetchIsGathered(ctx, n, 0, since, until, limit, []);
    r, cut := f.events, 0;
    if |r| < limit {
      GatheredHoldsAll(ctx, n, since, until, limit, asked, r);
    } else {
      GatheredHoldsAll(ctx, n, since, until, limit, last, before);
      cut := NextAnswerHolds(ctx, n, since, until, limit, last, before, r);
    }
  }

  /** With a limit of zero, the first filter is asked and nothing is kept. */
  lemma ZeroLimit(ctx: Context, n: nat, since: int, until: int)
    ensures Fetch(ctx, n, since, until, 0) == Fetched([], if ctx.filters == [] then n else n + 1)
  {
  }

  /** No answer to the requests from number `n` on holds an event its filter wants. */
  ghost predicate NothingWanted(ctx: Context, n: nat, since: int, until: int, limit: nat) {
    forall j: nat, e :: j < |ctx.filters| && e in ctx.relay(n + j, Request(j, since, until, limit))
      ==> !Wanted(ctx.filters[j], since, until, e)
  }

  /** A fetch is empty exactly when no filter is answered with an event it wants. */
  lemma EmptyIffNothingWanted(ctx: Context, n: nat, since: int, until: int, limit: nat)
    requires limit >= 1
    ensures Fetch(ctx, n, since, until, limit).events == [] <==> NothingWanted(ctx, n, since, until, limit)
    ensures Fetch(ctx, n, since, until, limit).events == [] ==>
              Fetch(ctx, n, since, until, limit).requests == n + |ctx.filters|
  {
    var asked, cut, r := FetchAsksInOrder(ctx, n, since, until, limit);
    if r == [] {
      forall j: nat, e | j < |ctx.filters| && e in ctx.relay(n + j, Request(j, since, until, limit))
        ensures !Wanted(ctx.filters[j], since, until, e)
      {
        assert AnswerIsHeld(ctx, n, since, until, limit, j, r);
      }
    } else {
      assert IsAnswered(ctx, n, since, until, limit, asked, r[0]);
    }
  }

  // ----- Completeness check -----

  function MinTime(events: seq<NostrEvent>): (t: nat)
    requires events != []
    ensures forall e :: e in events ==> t <= e.createdAt
    ensures exists e :: e in events && e.createdAt == t
  {
    if |events| == 1 then events[0].createdAt
    else
      var m := MinTime(events[1..]);
      if events[0].createdAt < m then events[0].createdAt else m
  }

  function MaxTime(events: seq<NostrEvent>): (t: nat)
    requires events != []
    ensures forall e :: e in events ==> e.createdAt <= t
    ensures exists e :: e in events && e.createdAt == t
  {
    if |events| == 1 then events[0].createdAt
    else
      var m := MaxTime(events[1..]);
      if events[0].createdAt > m then events[0].createdAt else m
  }

  /** The events whose second is not `t`, in order. */
  function Without(events: seq<NostrEvent>, t: nat): seq<NostrEvent> {
    if events == [] then []
    else (if events[0].createdAt != t then [events[0]] else []) + Without(events[1..], t)
  }

  datatype Verified = Verified(events: Option<seq<NostrEvent>>, requests: nat)

  /** A boundary fetch that holds events of second `t` and of no other. */
  predicate AllAt(events: seq<NostrEvent>, t: int) {
    events != [] && forall e :: e in events ==> e.createdAt == t
  }

  /** The check for a fetch whose oldest event is of second `minTs`. */
  function VerifyAt(fetch: Fetcher, limit: nat, requests: nat, events: seq<NostrEvent>, since: int,
          minTs: nat): Verified
  {
    var boundary := fetch(requests, since, minTs, limit);
    if !AllAt(boundary.events, minTs) then Verified(None, boundary.requests)
    else
      var combined := boundary.events + Without(events, minTs);
      if minTs <= since then Verified(Some(combined), boundary.requests)
      else
        var probe := fetch(boundary.requests, since, minTs - 1, 1);
        Verified(if probe.events == [] then Some(combined) else None, probe.requests)
  }

  function Verify(fetch: Fetcher, limit: nat, requests: nat, events: seq<NostrEvent>, since: int): Verified
    requires events != []
  {
    VerifyAt(fetch, limit, requests, events, since, MinTime(events))
  }

  /**
   The identifiers of `events` are distinct, and so are those of a fetch, so
   keying the two parts by identifier only drops what `Without` drops.
   */
  method TryVerifyCompleteness(client: Client, ctx: Context, events: seq<NostrEvent>, currentSince: int)
    returns (combined: Option<seq<NostrEvent>>)
    requires client.relay == ctx.relay && events != []
    modifies client
    ensures Verified(combined, client.requests)
         == Verify(FetcherOf(ctx), ctx.limit, old(client.requests), events, currentSince)
  {
    var minTs := MinTime(events);
    var boundaryEvents := FetchValidated(client, ctx, currentSince, minTs, ctx.limit);
    if boundaryEvents == [] {
      return None;
    }
    var boundaryMax := MaxTime(boundaryEvents);
    if boundaryMax != minTs {
      return None;
    }
    var boundaryMin := MinTime(boundaryEvents);
    if boundaryMin != minTs {
      return None;
    }
    if minTs > currentSince {
      var probe := FetchValidated(client, ctx, currentSince, minTs - 1, 1);
      if probe != [] {
        return None;
      }
    }
    return Some(boundaryEvents + Without(events, minTs));
  }

  lemma VerifyAtIff(fetch: Fetcher, limit: nat, n: nat, events: seq<NostrEvent>, since: int, t: nat, boundary: Fetched)
    requires boundary == fetch(n, since, t, limit) && forall e :: e in events ==> t <= e.createdAt
    ensures var v := VerifyAt(fetch, limit, n, events, since, t);
            var probe := fetch(boundary.requests, since, t - 1, 1);
            && (v.events.Some? <==>
                  && boundary.events != [] && (forall e :: e in boundary.events ==> e.createdAt == t)
                  && (since < t ==> probe.events == []))
            && (v.events.Some? ==>
                  && (forall e :: e in v.events.value <==> e in boundary.events || (e in events && e.createdAt > t))
                  && v.requests == if since < t then probe.requests else boundary.requests)
  {
    WithoutElems(events, t);
  }

  /**
   The check succeeds exactly when the boundary fetch holds events of the oldest
   second `t` and of no other, and no filter is answered with a wanted event
   before `t`. It then yields those events and the fetched ones after `t`.
   */
  lemma VerifiedIffNothingOlder(ctx: Context, n: nat, events: seq<NostrEvent>, since: int, t: nat)
    requires events != [] && t == MinTime(events)
    ensures var v := Verify(FetcherOf(ctx), ctx.limit, n, events, since);
            var boundary := Fetch(ctx, n, since, t, ctx.limit);
            && (v.events.Some? <==>
                  && boundary.events != [] && (forall e :: e in boundary.events ==> e.createdAt == t)
                  && (since < t ==> NothingWanted(ctx, boundary.requests, since, t - 1, 1)))
            && (v.events.Some? ==>
                  forall e :: e in v.events.value <==> e in boundary.events || (e in events && e.createdAt > t))
            && (v.events.Some? ==> v.requests == boundary.requests + if since < t then |ctx.filters| else 0)
  {
    var boundary := Fetch(ctx, n, since, t, ctx.limit);
    VerifyAtIff(FetcherOf(ctx), ctx.limit, n, events, since, t, boundary);
    if since < t {
      EmptyIffNothingWanted(ctx, boundary.requests, since, t - 1, 1);
    }
  }

  lemma {:induction false} WithoutElems(events: seq<NostrEvent>, t: nat)
    ensures forall e :: e in Without(events, t) <==> e in events && e.createdAt != t
    ensures |Without(events, t)| <= |events|
  {
    if events != [] {
      WithoutElems(events[1..], t);
      forall e ensures e in Without(events, t) <==> e in events && e.createdAt != t {
        assert e in events <==> e == events[0] || e in events[1..];
      }
    }
  }

  lemma {:induction false} WithoutKeepsDistinct(events: seq<NostrEvent>, t: nat)
    requires DistinctIds(events)
    ensures DistinctIds(Without(events, t))
  {
    if events != [] {
      WithoutKeepsDistinct(events[1..], t);
      WithoutElems(events[1..], t);
      var w := Without(events[1..], t);
      forall j | 0 <= j < |w| ensures w[j].id != events[0].id {
        assert w[j] in w;
        var i :| 0 <= i < |events[1..]| && events[1..][i] == w[j];
        assert events[i + 1] == w[j];
      }
    }
  }

  lemma CombinedIsSound(ctx: Context, boundary: seq<NostrEvent>, events: seq<NostrEvent>, minTs: nat, since: int,
          until: int)
    requires DistinctIds(events) && GenuineIn(ctx, since, until, events)
    requires DistinctIds(boundary) && GenuineIn(ctx, since, until, boundary)
    requires forall e :: e in boundary ==> e.createdAt == minTs
    ensures DistinctKeys(RawKey, boundary + Without(events, minTs))
    ensures GenuineIn(ctx, since, until, boundary + Without(events, minTs))
  {
    WithoutElems(events, minTs);
    WithoutKeepsDistinct(events, minTs);
    var above := Without(events, minTs);
    forall i, j | 0 <= i < |boundary| && 0 <= j < |above|
      ensures RawKey(boundary[i]) != RawKey(above[j])
    {
      assert boundary[i] in boundary && above[j] in above;
    }
  }

  lemma VerifyAtIsSound(ctx: Context, fetch: Fetcher, limit: nat, requests: nat, events: seq<NostrEvent>,
          since: int, until: int, minTs: nat)
    requires Sound(ctx, fetch) && minTs <= until
    requires DistinctIds(events) && GenuineIn(ctx, since, until, events)
    ensures var v := VerifyAt(fetch, limit, requests, events, since, minTs);
            && requests <= v.requests <= requests + 2 * |ctx.filters|
            && (v.events.Some? ==>
                  && DistinctKeys(RawKey, v.events.value)
                  && GenuineIn(ctx, since, until, v.events.value))
  {
    var boundary := fetch(requests, since, minTs, limit);
    assert SoundAnswer(ctx, requests, since, minTs, limit, boundary);
    if AllAt(boundary.events, minTs) {
      assert GenuineIn(ctx, since, until, boundary.events);
      CombinedIsSound(ctx, boundary.events, events, minTs, since, until);
      if minTs > since {
        assert SoundAnswer(ctx, boundary.requests, since, minTs - 1, 1, fetch(boundary.requests, since, minTs - 1, 1));
      }
    }
  }

  /** A successful check yields genuine events of the window with pairwise distinct keys. */
  lemma VerifyIsSound(ctx: Context, fetch: Fetcher, limit: nat, requests: nat, events: seq<NostrEvent>,
          since: int, until: int)
    requires Sound(ctx, fetch)
    requires events != [] && DistinctIds(events) && GenuineIn(ctx, since, until, events)
    ensures var v := Verify(fetch, limit, requests, events, since);
            && requests <= v.requests <= requests + 2 * |ctx.filters|
            && (v.events.Some? ==>
                  && DistinctKeys(RawKey, v.events.value)
                  && GenuineIn(ctx, since, until, v.events.value))
  {
    var minTs := MinTime(events);
    var oldest :| oldest in events && oldest.createdAt == minTs;
    VerifyAtIsSound(ctx, fetch, limit, requests, events, since, until, minTs);
  }
}
