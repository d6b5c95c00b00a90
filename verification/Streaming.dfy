/**
 The windowed event stream: a stack of upper bounds, a decision per window, and
 halving of the windows whose completeness check fails.

 `After(decide, idle, s, k)` is the state after `k` rounds of the loop.
 `idle(i)` says that the idle timeout has expired at the head of round `i`.
 `decide(requests, since, until)` says what a window comes to after so many
 requests; the streams of the program use `Policy(ctx)`.
 */
module Streaming {
  import opened Keyset
  import opened Nostr
  import opened Fetching

  datatype Decision = Emit(events: seq<NostrEvent>, requests: nat) | Halve(requests: nat)

  type Decide = (nat, int, int) -> Decision

  function DecideWindow(fetch: Fetcher, limit: nat, requests: nat, since: int, until: int): Decision {
    var fetched := fetch(requests, since, until, limit);
    if fetched.events == [] || since == until then Emit(fetched.events, fetched.requests)
    else
      var verified := Verify(fetch, limit, fetched.requests, fetched.events, since);
      match verified.events
      case Some(events) => Emit(events, verified.requests)
      case None => Halve(verified.requests)
  }

  function Policy(ctx: Context): Decide {
    (requests: nat, since: int, until: int) => DecideWindow(FetcherOf(ctx), ctx.limit, requests, since, until)
  }

  /** A window of one second is never halved. */
  ghost predicate Splittable(decide: Decide) {
    forall n: nat, since: int, until: int :: decide(n, since, until).Halve? ==> since != until
  }

  lemma PolicyIsSplittable(ctx: Context)
    ensures Splittable(Policy(ctx))
  {
  }

  /**
   A window of several seconds with events in it is emitted exactly when its
   check succeeds, and what it then emits is what the check has gathered; any
   other window is emitted as it was fetched.
   */
  lemma EmittedIffChecked(ctx: Context, n: nat, since: int, until: int)
    ensures var first := Fetch(ctx, n, since, until, ctx.limit);
            var decision := Policy(ctx)(n, since, until);
            && (first.events == [] || since == until ==> decision == Emit(first.events, first.requests))
            && (first.events != [] && since != until ==>
                  var t := MinTime(first.events);
                  var boundary := Fetch(ctx, first.requests, since, t, ctx.limit);
                  && (decision.Emit? <==>
                        && boundary.events != [] && (forall e :: e in boundary.events ==> e.createdAt == t)
                        && (since < t ==> NothingWanted(ctx, boundary.requests, since, t - 1, 1)))
                  && (decision.Emit? ==>
                        forall e :: e in decision.events
                          <==> e in boundary.events || (e in first.events && e.createdAt > t)))
  {
    var first := Fetch(ctx, n, since, until, ctx.limit);
    if first.events != [] {
      VerifiedIffNothingOlder(ctx, first.requests, first.events, since, MinTime(first.events));
    }
  }

  /** `raw` is what has been emitted, before conversion to domain events. */
  datatype State = State(
    stack: seq<int>, since: int, requests: nat, raw: seq<NostrEvent>,
    rounds: nat, splits: nat, idled: bool)

  function Start(requests: nat, start: int, end: int): State {
    State(if start > end then [] else [end], start, requests, [], 0, 0, false)
  }

  predicate Done(s: State) { s.stack == [] || s.idled }

  /** Emits a finished window and moves to the next one. */
  function Advance(s: State, requests: nat, events: seq<NostrEvent>): State
    requires s.stack != []
  {
    s.(stack := s.stack[1..], since := s.stack[0] + 1, requests := requests,
       raw := s.raw + Sort(RawKey, events), rounds := s.rounds + 1)
  }

  function Midpoint(since: int, until: int): int {
    since + (until - since) / 2
  }

  function Split(s: State, requests: nat): State
    requires s.stack != []
  {
    s.(stack := [Midpoint(s.since, s.stack[0])] + s.stack, requests := requests,
       rounds := s.rounds + 1, splits := s.splits + 1)
  }

  function Round(decide: Decide, idle: nat -> bool, s: State): State {
    if Done(s) then s
    else if idle(s.rounds) then s.(idled := true)
    else
      match decide(s.requests, s.since, s.stack[0])
      case Emit(events, requests) => Advance(s, requests, events)
      case Halve(requests) => Split(s, requests)
  }

  function After(decide: Decide, idle: nat -> bool, s: State, k: nat): State
    decreases k
  {
    if k == 0 then s else Round(decide, idle, After(decide, idle, s, k - 1))
  }

  function Seconds(start: int, end: int): nat {
    if start <= end then end - start + 1 else 0
  }

  /** Enough rounds for any relay, see `Terminates`. */
  function Rounds(start: int, end: int): nat {
    if start <= end then 2 * Seconds(start, end) - 1 else 0
  }

  function Final(ctx: Context, idle: nat -> bool, requests: nat, start: int, end: int): State {
    After(Policy(ctx), idle, Start(requests, start, end), Rounds(start, end))
  }

  lemma {:induction false} DoneIsStable(decide: Decide, idle: nat -> bool, s: State, k: nat, m: nat)
    requires k <= m && Done(After(decide, idle, s, k))
    ensures After(decide, idle, s, m) == After(decide, idle, s, k)
    decreases m
  {
    if k < m {
      DoneIsStable(decide, idle, s, k, m - 1);
    }
  }

  // ----- Stack discipline and termination -----

  /** The pending windows partition what is left of the range. */
  ghost predicate Stacked(s: State, end: int) {
    && (forall i, j :: 0 <= i < j < |s.stack| ==> s.stack[i] < s.stack[j])
    && (if s.stack == [] then s.since == end + 1
        else s.since <= s.stack[0] && s.stack[|s.stack| - 1] == end)
  }

  lemma AdvanceKeepsStack(s: State, end: int, requests: nat, events: seq<NostrEvent>)
    requires s.stack != [] && Stacked(s, end)
    ensures Stacked(Advance(s, requests, events), end)
  {
    var rest := s.stack[1..];
    assert forall i :: 0 <= i < |rest| ==> rest[i] == s.stack[i + 1];
  }

  lemma SplitKeepsStack(s: State, end: int, requests: nat)
    requires s.stack != [] && s.since < s.stack[0] && Stacked(s, end)
    ensures Stacked(Split(s, requests), end)
  {
    var mid := Midpoint(s.since, s.stack[0]);
    var longer := [mid] + s.stack;
    assert s.since <= mid < s.stack[0];
    forall i, j | 0 <= i < j < |longer| ensures longer[i] < longer[j] {
      assert longer[j] == s.stack[j - 1];
    }
  }

  lemma RoundKeepsStack(decide: Decide, idle: nat -> bool, s: State, end: int)
    requires Splittable(decide) && Stacked(s, end)
    ensures Stacked(Round(decide, idle, s), end)
  {
    if !Done(s) && !idle(s.rounds) {
      match decide(s.requests, s.since, s.stack[0])
      case Emit(events, requests) => AdvanceKeepsStack(s, end, requests, events);
      case Halve(requests) => SplitKeepsStack(s, end, requests);
    }
  }

  lemma {:induction false} StackStaysOrdered(decide: Decide, idle: nat -> bool, requests: nat, start: int, end: int,
          k: nat)
    requires Splittable(decide) && start <= end
    ensures Stacked(After(decide, idle, Start(requests, start, end), k), end)
    ensures start <= After(decide, idle, Start(requests, start, end), k).since
  {
    if k > 0 {
      StackStaysOrdered(decide, idle, requests, start, end, k - 1);
      RoundKeepsStack(decide, idle, After(decide, idle, Start(requests, start, end), k - 1), end);
    }
  }

  lemma {:induction false} AscendingStackIsShort(stack: seq<int>, lo: int, hi: int)
    requires forall i, j :: 0 <= i < j < |stack| ==> stack[i] < stack[j]
    requires stack != [] ==> lo <= stack[0] && stack[|stack| - 1] <= hi
    requires lo <= hi + 1
    ensures |stack| <= hi - lo + 1
  {
    if stack != [] {
      AscendingStackIsShort(stack[1..], stack[0] + 1, hi);
    }
  }

  /** After `k` rounds, what is done plus what may be left of the rounds stays within `bound`. */
  ghost predicate OnBudget(s: State, end: int, bound: nat, k: nat) {
    s.rounds + 2 * (end + 1 - s.since) - |s.stack| <= bound && (Done(s) || s.rounds == k)
  }

  /** A round uses up a second, or a split. */
  lemma RoundKeepsBudget(decide: Decide, idle: nat -> bool, s: State, end: int, bound: nat, k: nat)
    requires Stacked(s, end) && OnBudget(s, end, bound, k)
    ensures OnBudget(Round(decide, idle, s), end, bound, k + 1)
  {
  }

  lemma {:induction false} BudgetIsKept(decide: Decide, idle: nat -> bool, requests: nat, start: int, end: int, k: nat)
    requires Splittable(decide) && start <= end
    ensures OnBudget(After(decide, idle, Start(requests, start, end), k), end, Rounds(start, end), k)
  {
    if k > 0 {
      BudgetIsKept(decide, idle, requests, start, end, k - 1);
      StackStaysOrdered(decide, idle, requests, start, end, k - 1);
      RoundKeepsBudget(decide, idle, After(decide, idle, Start(requests, start, end), k - 1), end, Rounds(start, end),
          k - 1);
    }
  }

  lemma BudgetBoundsRounds(s: State, end: int, bound: nat, k: nat)
    requires Stacked(s, end) && OnBudget(s, end, bound, k)
    ensures s.rounds <= bound && (Done(s) || (s.rounds == k < bound))
  {
    if s.stack != [] {
      assert s.stack[0] <= s.stack[|s.stack| - 1];
    }
    AscendingStackIsShort(s.stack, s.since, end);
  }

  lemma RoundBudget(decide: Decide, idle: nat -> bool, requests: nat, start: int, end: int, k: nat)
    requires Splittable(decide) && start <= end
    ensures var s := After(decide, idle, Start(requests, start, end), k);
            s.rounds <= Rounds(start, end) && (Done(s) || (s.rounds == k < Rounds(start, end)))
  {
    BudgetIsKept(decide, idle, requests, start, end, k);
    StackStaysOrdered(decide, idle, requests, start, end, k);
    BudgetBoundsRounds(After(decide, idle, Start(requests, start, end), k), end, Rounds(start, end), k);
  }

  /** The loop ends within `2n - 1` rounds on a range of `n` seconds, whatever the relay answers. */
  lemma Terminates(ctx: Context, idle: nat -> bool, requests: nat, start: int, end: int)
    ensures Done(Final(ctx, idle, requests, start, end))
    ensures Final(ctx, idle, requests, start, end).rounds <= Rounds(start, end)
  {
    PolicyIsSplittable(ctx);
    if start <= end {
      RoundBudget(Policy(ctx), idle, requests, start, end, Rounds(start, end));
    }
  }

  // ----- Abandonment -----

  /** A timeout that never expires. */
  function Never(): nat -> bool { (k: nat) => false }

  /** The run without a timeout, after `k` rounds. */
  function Unhurried(ctx: Context, requests: nat, start: int, end: int, k: nat): State {
    After(Policy(ctx), Never(), Start(requests, start, end), k)
  }

  /** At the head of round `k`, windows are left and the timeout has expired. */
  predicate ExpiresAt(ctx: Context, idle: nat -> bool, requests: nat, start: int, end: int, k: nat) {
    idle(k) && Unhurried(ctx, requests, start, end, k).stack != []
  }

  ghost predicate Expires(ctx: Context, idle: nat -> bool, requests: nat, start: int, end: int) {
    exists k: nat :: ExpiresAt(ctx, idle, requests, start, end, k)
  }

  /** The timeout does not expire, or only after the last window. */
  ghost predicate Patient(ctx: Context, idle: nat -> bool, requests: nat, start: int, end: int) {
    (forall k: nat :: !idle(k)) || !Expires(ctx, idle, requests, start, end)
  }

  ghost predicate FirstExpiresAt(ctx: Context, idle: nat -> bool, requests: nat, start: int, end: int, k: nat) {
    && ExpiresAt(ctx, idle, requests, start, end, k)
    && (forall i: nat :: i < k ==> !ExpiresAt(ctx, idle, requests, start, end, i))
  }

  /** Up to its first expired timeout, a run is the run without a timeout. */
  lemma {:induction false} UntilExpired(ctx: Context, idle: nat -> bool, requests: nat, start: int, end: int, k: nat)
    requires forall i: nat :: i < k ==> !ExpiresAt(ctx, idle, requests, start, end, i)
    ensures After(Policy(ctx), idle, Start(requests, start, end), k) == Unhurried(ctx, requests, start, end, k)
    ensures !Unhurried(ctx, requests, start, end, k).idled
    ensures Unhurried(ctx, requests, start, end, k).stack != [] ==> Unhurried(ctx, requests, start, end, k).rounds == k
    decreases k
  {
    if k > 0 {
      UntilExpired(ctx, idle, requests, start, end, k - 1);
      assert !ExpiresAt(ctx, idle, requests, start, end, k - 1);
    }
  }

  lemma {:induction false} FirstExpiry(ctx: Context, idle: nat -> bool, requests: nat, start: int, end: int, n: nat)
    returns (k: nat)
    requires ExpiresAt(ctx, idle, requests, start, end, n)
    ensures FirstExpiresAt(ctx, idle, requests, start, end, k)
    decreases n
  {
    if i: nat :| i < n && ExpiresAt(ctx, idle, requests, start, end, i) {
      k := FirstExpiry(ctx, idle, requests, start, end, i);
    } else {
      k := n;
    }
  }

  lemma ExpiredRound(decide: Decide, idle: nat -> bool, s0: State, k: nat, s: State)
    requires s == After(decide, idle, s0, k) && !Done(s) && idle(s.rounds)
    ensures After(decide, idle, s0, k + 1) == s.(idled := true)
  {
  }

  /** The first expired timeout ends the stream, in the state it has reached. */
  lemma ExpiryEnds(ctx: Context, idle: nat -> bool, requests: nat, start: int, end: int, k: nat)
    requires FirstExpiresAt(ctx, idle, requests, start, end, k)
    ensures Final(ctx, idle, requests, start, end) == Unhurried(ctx, requests, start, end, k).(idled := true)
  {
    var s0, s := Start(requests, start, end), Unhurried(ctx, requests, start, end, k);
    PolicyIsSplittable(ctx);
    WindowsAreLeft(Policy(ctx), requests, start, end, k);
    UntilExpired(ctx, idle, requests, start, end, k);
    RoundBudget(Policy(ctx), idle, requests, start, end, k);
    ExpiryIsFinal(Policy(ctx), idle, s0, k, s, Rounds(start, end));
  }

  /** An empty range has no windows. */
  lemma WindowsAreLeft(decide: Decide, requests: nat, start: int, end: int, k: nat)
    requires After(decide, Never(), Start(requests, start, end), k).stack != []
    ensures start <= end
  {
    if start > end {
      DoneIsStable(decide, Never(), Start(requests, start, end), 0, k);
      assert false;
    }
  }

  lemma ExpiryIsFinal(decide: Decide, idle: nat -> bool, s0: State, k: nat, s: State, n: nat)
    requires s == After(decide, idle, s0, k) && !Done(s) && idle(s.rounds) && k < n
    ensures After(decide, idle, s0, n) == s.(idled := true)
  {
    ExpiredRound(decide, idle, s0, k, s);
    DoneIsStable(decide, idle, s0, k + 1, n);
  }

  /**
   A stream is abandoned exactly when the timeout has expired at the head of a
   round that the run without a timeout reaches with windows left. It then ends
   in the state of that run, and otherwise it ends like that run.
   */
  lemma AbandonedIffExpired(ctx: Context, idle: nat -> bool, requests: nat, start: int, end: int)
    ensures Final(ctx, idle, requests, start, end).idled <==> Expires(ctx, idle, requests, start, end)
    ensures Expires(ctx, idle, requests, start, end) ==>
              exists k: nat :: FirstExpiresAt(ctx, idle, requests, start, end, k)
                && Final(ctx, idle, requests, start, end) == Unhurried(ctx, requests, start, end, k).(idled := true)
    ensures !Expires(ctx, idle, requests, start, end) ==>
              Final(ctx, idle, requests, start, end) == Unhurried(ctx, requests, start, end, Rounds(start, end))
  {
    if Expires(ctx, idle, requests, start, end) {
      var n: nat :| ExpiresAt(ctx, idle, requests, start, end, n);
      var k := FirstExpiry(ctx, idle, requests, start, end, n);
      ExpiryEnds(ctx, idle, requests, start, end, k);
    } else {
      UntilExpired(ctx, idle, requests, start, end, Rounds(start, end));
    }
  }

  /** A patient stream is not abandoned. */
  lemma PatientIsNotAbandoned(ctx: Context, idle: nat -> bool, requests: nat, start: int, end: int)
    requires Patient(ctx, idle, requests, start, end)
    ensures !Final(ctx, idle, requests, start, end).idled
  {
    AbandonedIffExpired(ctx, idle, requests, start, end);
  }
}
