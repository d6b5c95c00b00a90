/** The loop of the windowed event stream, as a refinement of its rounds. */
module StreamLoop {
  import opened Keyset
  import opened Nostr
  import opened Fetching
  import opened Streaming

  /** One pass over a window: the events to emit, or `None` to halve it. */
  method FetchWindow(client: Client, ctx: Context, currentSince: int,
          currentUntil: int) returns (window: Option<seq<NostrEvent>>)
    requires client.relay == ctx.relay
    modifies client
    ensures Policy(ctx)(old(client.requests), currentSince, currentUntil)
         == if window.Some? then Emit(window.value, client.requests) else Halve(client.requests)
  {
    var events := FetchValidated(client, ctx, currentSince, currentUntil, ctx.limit);
    if events == [] || currentSince == currentUntil {
      return Some(events);
    }
    window := TryVerifyCompleteness(client, ctx, events, currentSince);
  }

  /** Yielding a window's domain events appends the conversion of its sorted raw events. */
  lemma EmitWindow(ctx: Context, s: State, requests: nat, events: seq<NostrEvent>)
    requires s.stack != []
    ensures Convert(ctx.maxEventSize, Advance(s, requests, events).raw)
         == Convert(ctx.maxEventSize, s.raw) + Convert(ctx.maxEventSize, Sort(RawKey, events))
  {
    ConvertConcat(ctx.maxEventSize, s.raw, Sort(RawKey, events));
  }

  /** What the window came to decides the next round. */
  lemma NextRound(ctx: Context, idle: nat -> bool, s0: State, s: State, k: nat, window: Option<seq<NostrEvent>>,
          requests: nat)
    returns (t: State)
    requires s == After(Policy(ctx), idle, s0, k) && !Done(s) && !idle(s.rounds)
    requires Policy(ctx)(s.requests, s.since, s.stack[0])
          == if window.Some? then Emit(window.value, requests) else Halve(requests)
    ensures t == After(Policy(ctx), idle, s0, k + 1)
    ensures t.requests == requests && t.rounds == s.rounds + 1 && !t.idled
    ensures match window
            case Some(events) =>
              && t.stack == s.stack[1..] && t.since == s.stack[0] + 1
              && Convert(ctx.maxEventSize, t.raw)
              == Convert(ctx.maxEventSize, s.raw) + Convert(ctx.maxEventSize, Sort(RawKey, events))
            case None =>
              t.stack == [Midpoint(s.since, s.stack[0])] + s.stack && t.since == s.since && t.raw == s.raw
  {
    t := Round(Policy(ctx), idle, s);
    if window.Some? {
      EmitWindow(ctx, s, requests, window.value);
    }
  }

  method StreamEvents(client: Client, ctx: Context, startTime: int, endTime: int, idle: nat -> bool)
    returns (out: seq<Event>)
    requires client.relay == ctx.relay
    modifies client
    ensures var final := Final(ctx, idle, old(client.requests), startTime, endTime);
            && out == Convert(ctx.maxEventSize, final.raw) && client.requests == final.requests
            && ((forall k: nat :: !idle(k)) ==> final.stack == [])
  {
    out := [];
    if startTime > endTime {
      return;
    }
    var untilStack := [endTime];
    var currentSince := startTime;
    var round := 0;
    ghost var decide, s0 := Policy(ctx), Start(client.requests, startTime, endTime);
    ghost var s := s0;
    PolicyIsSplittable(ctx);
    while untilStack != []
      invariant s == After(decide, idle, s0, round) && s.rounds == round <= Rounds(startTime, endTime)
      invariant s.stack == untilStack && s.since == currentSince && s.requests == client.requests && !s.idled
      invariant out == Convert(ctx.maxEventSize, s.raw)
      decreases Rounds(startTime, endTime) - round
    {
      RoundBudget(decide, idle, s0.requests, startTime, endTime, round);
      if idle(round) {
        DoneIsStable(decide, idle, s0, round + 1, Rounds(startTime, endTime));
        return;
      }
      var currentUntil := untilStack[0];
      var window := FetchWindow(client, ctx, currentSince, currentUntil);
      s := NextRound(ctx, idle, s0, s, round, window, client.requests);
      if window.Some? {
        var domain := ToDomainEvents(window.value, ctx.maxEventSize);
        out := out + domain;
        untilStack, currentSince := untilStack[1..], currentUntil + 1;
      } else {
        var mid := Midpoint(currentSince, currentUntil);
        untilStack := [mid] + untilStack;
      }
      round := round + 1;
    }
    DoneIsStable(decide, idle, s0, round, Rounds(startTime, endTime));
  }
}
