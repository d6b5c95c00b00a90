/** The validator: the database calls of a page, and the loop over the pages of a run. */
module Validator {
  import opened CursorStore
  import opened Candidates
  import opened Batches
  import opened Networks
  import opened Nostr
  import Arith
  import Keyset
  import Merge = ConcurrentStream
  import MergeOrder

  /** Fewest failures first, then oldest attempt. */
  predicate Precedes(a: Candidate, b: Candidate) {
    a.failures < b.failures || (a.failures == b.failures && a.timestamp < b.timestamp)
  }

  ghost predicate InOrder(page: seq<Fetched>) {
    forall i, j :: 0 <= i < j < |page| ==> !Precedes(page[j].value, page[i].value)
  }

  lemma OrderGrows(page: seq<Fetched>, row: Fetched)
    requires InOrder(page) && forall r :: r in page ==> !Precedes(row.value, r.value)
    ensures InOrder(page + [row])
  {
    var longer := page + [row];
    forall i, j | 0 <= i < j < |longer| ensures !Precedes(longer[j].value, longer[i].value) {
      if j == |page| {
        assert longer[i] == page[i] && page[i] in page;
      } else {
        assert longer[i] == page[i] && longer[j] == page[j];
      }
    }
  }

  /** The rows an ordered, limited query may return: ties are broken in any way. */
  ghost predicate IsPage(t: Tables, networks: set<Network>, before: int, limit: nat, page: seq<Fetched>) {
    var eligible := Eligible(t, networks, before);
    && Current(t, page)
    && Keys(page) <= eligible
    && |page| == Min(limit, |eligible|)
    && InOrder(page)
    && NoneBefore(t, page, eligible - Keys(page))
  }

  /** No row of the set comes before it. */
  ghost predicate IsFirst(t: Tables, urls: set<Url>, first: Url)
    requires urls <= t.candidates.Keys
  {
    first in urls && forall url :: url in urls ==> !Precedes(t.candidates[url], t.candidates[first])
  }

  lemma FirstOfMore(t: Tables, urls: set<Url>, url: Url, other: Url)
    requires urls <= t.candidates.Keys && url in urls && IsFirst(t, urls - {url}, other)
    ensures IsFirst(t, urls, if Precedes(t.candidates[other], t.candidates[url]) then other else url)
  {
    var first := if Precedes(t.candidates[other], t.candidates[url]) then other else url;
    forall u | u in urls ensures !Precedes(t.candidates[u], t.candidates[first]) {
      if u != url {
        assert u in urls - {url} && !Precedes(t.candidates[u], t.candidates[other]);
      }
    }
  }

  lemma {:induction false} FirstExists(t: Tables, urls: set<Url>) returns (first: Url)
    requires urls != {} && urls <= t.candidates.Keys
    ensures IsFirst(t, urls, first)
    decreases |urls|
  {
    var url :| url in urls;
    var rest := urls - {url};
    if rest == {} {
      first := url;
      forall u | u in urls ensures u == url {
        assert u != url ==> u in rest;
      }
    } else {
      assert |rest| == |urls| - 1;
      var other := FirstExists(t, rest);
      FirstOfMore(t, urls, url, other);
      first := if Precedes(t.candidates[other], t.candidates[url]) then other else url;
    }
  }

  /** The first rows of the order, with the URLs of the others. */
  ghost predicate IsSelection(t: Tables, eligible: set<Url>, page: seq<Fetched>, rest: set<Url>) {
    && Current(t, page) && eligible <= t.candidates.Keys
    && Keys(page) !! rest && eligible == Keys(page) + rest && |page| + |rest| == |eligible|
    && InOrder(page) && NoneBefore(t, page, rest)
  }

  /** No row of the set comes before one of the page. */
  ghost predicate NoneBefore(t: Tables, page: seq<Fetched>, urls: set<Url>)
    requires urls <= t.candidates.Keys
  {
    forall r, url :: r in page && url in urls ==> !Precedes(t.candidates[url], r.value)
  }

  lemma NoneBeforeMore(t: Tables, page: seq<Fetched>, rest: set<Url>, url: Url)
    requires rest <= t.candidates.Keys && NoneBefore(t, page, rest) && IsFirst(t, rest, url)
    ensures NoneBefore(t, page + [Fetched(url, t.candidates[url])], rest - {url})
  {
  }

  lemma CurrentGrows(t: Tables, page: seq<Fetched>, url: Url)
    requires Current(t, page) && url in t.candidates && url !in Keys(page)
    ensures Current(t, page + [Fetched(url, t.candidates[url])])
  {
    OneMore(page, Fetched(url, t.candidates[url]));
  }

  lemma OneMore(page: seq<Fetched>, row: Fetched)
    ensures Keys(page + [row]) == Keys(page) + {row.key}
    ensures forall r :: r in page + [row] <==> r in page || r == row
    ensures DistinctKeys(page) && row.key !in Keys(page) ==> DistinctKeys(page + [row])
  {
    var longer := page + [row];
    assert forall r :: r in longer <==> r in page || r == row;
    assert forall i :: 0 <= i < |page| ==> page[i] in page && page[i].key in Keys(page);
  }

  lemma SelectionGrows(t: Tables, eligible: set<Url>, page: seq<Fetched>, rest: set<Url>, url: Url)
    requires IsSelection(t, eligible, page, rest)
    requires IsFirst(t, rest, url)
    ensures IsSelection(t, eligible, page + [Fetched(url, t.candidates[url])], rest - {url})
  {
    var row := Fetched(url, t.candidates[url]);
    CurrentGrows(t, page, url);
    OneMore(page, row);
    OrderGrows(page, row);
    NoneBeforeMore(t, page, rest, url);
  }

  /** At most as many failures, and with as many no later an attempt. */
  predicate NoLater(a: Candidate, b: Candidate) {
    a.failures < b.failures || (a.failures == b.failures && a.timestamp <= b.timestamp)
  }

  /** On one of the networks, and never attempted or before the time. */
  predicate IsDue(t: Tables, networks: set<Network>, before: int, url: Url) {
    && url in t.candidates && t.candidates[url].network in networks
    && (t.candidates[url].failures == 0 || t.candidates[url].timestamp < before)
  }

  predicate NothingDue(t: Tables, networks: set<Network>, before: int) {
    forall url :: url in t.candidates ==> !IsDue(t, networks, before, url)
  }

  lemma NothingIsDue(t: Tables, networks: set<Network>, before: int)
    ensures Eligible(t, networks, before) == {} <==> NothingDue(t, networks, before)
  {
    if NothingDue(t, networks, before) {
      forall url | url in Eligible(t, networks, before) ensures false {
        assert IsDue(t, networks, before, url);
      }
    }
    forall url | url in t.candidates && IsDue(t, networks, before, url) ensures url in Eligible(t, networks, before) {
    }
  }

  /**
   A page has `limit` rows, or all that are on one of the networks and were never
   attempted or before the time. The rows are ordered by failures and then by attempt,
   and those left out do not come before any of them.
   */
  lemma PageIsFairest(t: Tables, networks: set<Network>, before: int, limit: nat, page: seq<Fetched>)
    requires IsPage(t, networks, before, limit, page)
    ensures |page| <= limit
    ensures forall r :: r in page ==> IsDue(t, networks, before, r.key) && r.value == t.candidates[r.key]
    ensures forall i, j :: 0 <= i < j < |page| ==>
              page[i].key != page[j].key && NoLater(page[i].value, page[j].value)
    ensures forall url :: IsDue(t, networks, before, url) && url !in Keys(page) ==>
              |page| == limit && forall r :: r in page ==> NoLater(r.value, t.candidates[url])
  {
    var eligible := Eligible(t, networks, before);
    forall r | r in page ensures r.key in Keys(page) {
    }
    forall url | IsDue(t, networks, before, url) && url !in Keys(page)
      ensures |page| >= limit && forall r :: r in page ==> NoLater(r.value, t.candidates[url])
    {
      assert url in eligible && url in eligible - Keys(page);
      if |page| < limit {
        ShortPageIsLast(t, networks, before, limit, page);
        assert false;
      }
    }
  }

  /** A page that is not full has all the rows. */
  lemma ShortPageIsLast(t: Tables, networks: set<Network>, before: int, limit: nat, page: seq<Fetched>)
    requires IsPage(t, networks, before, limit, page) && |page| < limit
    ensures Keys(page) == Eligible(t, networks, before)
  {
    DistinctKeysCount(page);
    Keyset.SubsetSize(Keys(page), Eligible(t, networks, before));
  }

  class Brotr {
    const maxBatch: nat
    var tables: Tables
    ghost var history: seq<Tables>

    constructor (maxBatch: nat, tables: Tables)
      ensures this.maxBatch == maxBatch && this.tables == tables && history == []
    {
      this.maxBatch := maxBatch;
      this.tables := tables;
      history := [];
    }

    /** Counts the rows of the table that the filter lets through. */
    method CountCandidates(networks: set<Network>, attemptedBefore: int) returns (count: nat)
      ensures count == |Eligible(tables, networks, attemptedBefore)|
    {
      count := 0;
      var rest := tables.candidates.Keys;
      ghost var counted: set<Url> := {};
      while rest != {}
        invariant rest <= tables.candidates.Keys && count == |counted|
        invariant forall url :: url in counted <==> url in Eligible(tables, networks, attemptedBefore) && url !in rest
        decreases rest
      {
        var url :| url in rest;
        rest := rest - {url};
        if IsEligible(tables.candidates[url], networks, attemptedBefore) {
          counted := counted + {url};
          count := count + 1;
        }
      }
      assert counted == Eligible(tables, networks, attemptedBefore);
    }

    method FetchCandidates(networks: set<Network>, attemptedBefore: int, limit: nat) returns (page: seq<Fetched>)
      ensures IsPage(tables, networks, attemptedBefore, limit, page)
    {
      page := [];
      var rest := Eligible(tables, networks, attemptedBefore);
      ghost var eligible := rest;
      while |page| < limit && rest != {}
        invariant IsSelection(tables, eligible, page, rest) && |page| <= limit
        decreases rest
      {
        ghost var first := FirstExists(tables, rest);
        assert exists url :: IsFirst(tables, rest, url);
        var url :| url in rest && forall u :: u in rest ==> !Precedes(tables.candidates[u], tables.candidates[url]);
        SelectionGrows(tables, eligible, page, rest, url);
        page := page + [Fetched(url, tables.candidates[url])];
        rest := rest - {url};
      }
    }

    method InsertRelay(chunk: seq<Fetched>) returns (inserted: nat)
      modifies this
      ensures tables == Inserted(old(tables), chunk)
      ensures history == old(history) + [tables]
      ensures inserted == |tables.relays| - |old(tables).relays|
    {
      var absent := Keys(chunk) - tables.relays;
      assert tables.relays + Keys(chunk) == tables.relays + absent;
      inserted := |absent|;
      tables := RelaysInserted(tables, Keys(chunk));
      history := history + [tables];
    }

    method DeleteServiceState(chunk: seq<Fetched>)
      modifies this
      ensures tables == Deleted(old(tables), chunk)
      ensures history == old(history) + [tables]
    {
      tables := CandidatesDeleted(tables, Keys(chunk));
      history := history + [tables];
    }

    /** Upserts the rows and counts them; a key that occurs twice in the chunk is one row. */
    method UpsertServiceState(chunk: seq<Fetched>, now: int) returns (count: nat)
      modifies this
      ensures tables == Failed(old(tables), chunk, now)
      ensures history == old(history) + [tables]
      ensures count == |Keys(chunk)|
    {
      count := |Keys(chunk)|;
      tables := Failed(tables, chunk, now);
      history := history + [tables];
    }

    method InsertRelays(candidates: seq<Fetched>) returns (inserted: nat)
      requires maxBatch >= 1
      modifies this
      ensures tables == Inserted(old(tables), candidates)
      ensures history == old(history) + InsertTrace(old(tables), candidates, maxBatch)
      ensures inserted == |tables.relays| - |old(tables).relays|
    {
      inserted := 0;
      var i := 0;
      while i < |candidates|
        invariant i <= |candidates|
        invariant Chunked(Inserted, tables, history, candidates, i, maxBatch)
               == Chunked(Inserted, old(tables), old(history), candidates, 0, maxBatch)
        invariant inserted == |tables.relays| - |old(tables).relays|
      {
        var end := Min(i + maxBatch, |candidates|);
        var n := InsertRelay(candidates[i..end]);
        inserted := inserted + n;
        i := end;
      }
      AllInserted(old(tables), old(history), candidates, maxBatch);
    }

    method DeleteCandidates(candidates: seq<Fetched>)
      requires maxBatch >= 1
      modifies this
      ensures tables == Deleted(old(tables), candidates)
      ensures history == old(history) + DeleteTrace(old(tables), candidates, maxBatch)
    {
      var i := 0;
      while i < |candidates|
        invariant i <= |candidates|
        invariant Chunked(Deleted, tables, history, candidates, i, maxBatch)
               == Chunked(Deleted, old(tables), old(history), candidates, 0, maxBatch)
      {
        var end := Min(i + maxBatch, |candidates|);
        DeleteServiceState(candidates[i..end]);
        i := end;
      }
      AllDeleted(old(tables), old(history), candidates, maxBatch);
    }

    /** All relays are inserted chunk by chunk before the candidates are deleted chunk by chunk. */
    method PromoteCandidates(candidates: seq<Fetched>) returns (inserted: nat)
      requires maxBatch >= 1
      modifies this
      ensures tables == CandidatesDeleted(RelaysInserted(old(tables), Keys(candidates)), Keys(candidates))
      ensures history == old(history) + PromotionTrace(old(tables), candidates, maxBatch)
      ensures inserted == |tables.relays| - |old(tables).relays|
    {
      inserted := InsertRelays(candidates);
      ghost var promoted := tables;
      DeleteCandidates(candidates);
      Regroup(old(history), InsertTrace(old(tables), candidates, maxBatch),
          DeleteTrace(promoted, candidates, maxBatch));
    }

    /** Writes one more failure for each candidate, chunk by chunk, and counts the rows. */
    method FailCandidates(candidates: seq<Fetched>, now: int) returns (count: nat)
      requires maxBatch >= 1
      modifies this
      ensures tables == Failed(old(tables), candidates, now)
      ensures history == old(history) + FailTrace(old(tables), candidates, now, maxBatch)
      ensures DistinctKeys(candidates) ==> count == |candidates|
    {
      count := 0;
      var i := 0;
      while i < |candidates|
        invariant i <= |candidates|
        invariant Chunked(FailWrite(now), tables, history, candidates, i, maxBatch)
               == Chunked(FailWrite(now), old(tables), old(history), candidates, 0, maxBatch)
        invariant DistinctKeys(candidates) ==> count == i
      {
        var end := Min(i + maxBatch, |candidates|);
        var n := UpsertServiceState(candidates[i..end], now);
        if DistinctKeys(candidates) {
          DistinctKeysCount(candidates[i..end]);
        }
        count := count + n;
        i := end;
      }
      AllFailed(old(tables), old(history), candidates, now, maxBatch);
    }

    /** Removes the promoted candidates and, if enabled, those with too many failures. */
    method Cleanup(enabled: bool, maxFailures: nat) returns (removed: nat)
      modifies this
      ensures tables.relays == old(tables).relays
      ensures forall url :: url in tables.candidates <==>
                && url in old(tables).candidates && url !in old(tables).relays
                && !(enabled && old(tables).candidates[url].failures >= maxFailures)
      ensures forall url :: url in tables.candidates ==> tables.candidates[url] == old(tables).candidates[url]
      ensures var separated := WithoutPromoted(old(tables));
              tables == if enabled then WithoutExhausted(separated, maxFailures) else separated
      ensures removed == |old(tables).candidates| - |tables.candidates|
    {
      ghost var before := tables;
      var promoted := tables.candidates.Keys * tables.relays;
      tables := WithoutPromoted(tables);
      SizeAfterDelete(before, before.relays);
      removed := |promoted|;
      if enabled {
        ghost var between := tables;
        var exhausted := Exhausted(tables, maxFailures);
        tables := WithoutExhausted(tables, maxFailures);
        SizeAfterDelete(between, exhausted);
        assert between.candidates.Keys * exhausted == exhausted;
        removed := removed + |exhausted|;
      }
    }
  }

  // ----- The states between the chunks -----

  function Inserted(t: Tables, chunk: seq<Fetched>): Tables { RelaysInserted(t, Keys(chunk)) }

  function Deleted(t: Tables, chunk: seq<Fetched>): Tables { CandidatesDeleted(t, Keys(chunk)) }

  function InsertTrace(t: Tables, records: seq<Fetched>, size: nat): seq<Tables>
    requires size >= 1
  {
    ChunkTrace(Inserted, t, records, size)
  }

  function DeleteTrace(t: Tables, records: seq<Fetched>, size: nat): seq<Tables>
    requires size >= 1
  {
    ChunkTrace(Deleted, t, records, size)
  }

  function FailWrite(now: int): (Tables, seq<Fetched>) -> Tables {
    (t: Tables, chunk: seq<Fetched>) => Failed(t, chunk, now)
  }

  function FailTrace(t: Tables, records: seq<Fetched>, now: int, size: nat): seq<Tables>
    requires size >= 1
  {
    ChunkTrace(FailWrite(now), t, records, size)
  }

  function PromotionTrace(t: Tables, records: seq<Fetched>, size: nat): seq<Tables>
    requires size >= 1
  {
    InsertTrace(t, records, size) + DeleteTrace(Inserted(t, records), records, size)
  }

  lemma KeysConcat(a: seq<Fetched>, b: seq<Fetched>)
    ensures Keys(a + b) == Keys(a) + Keys(b)
  {
  }

  lemma InsertionsCompose()
    ensures Composes(Inserted)
  {
    forall t: Tables, a, b ensures Inserted(Inserted(t, a), b) == Inserted(t, a + b) {
      KeysConcat(a, b);
    }
  }

  lemma DeletionsCompose()
    ensures Composes(Deleted)
  {
    forall t: Tables ensures Deleted(t, []) == t {
      NothingWritten(t);
    }
    forall t: Tables, a, b ensures Deleted(Deleted(t, a), b) == Deleted(t, a + b) {
      KeysConcat(a, b);
    }
  }

  lemma FailuresCompose(now: int)
    ensures Composes(FailWrite(now))
  {
    forall t: Tables, a, b ensures FailWrite(now)(FailWrite(now)(t, a), b) == FailWrite(now)(t, a + b) {
      FailuresConcat(t.candidates, a, b, now);
    }
  }

  lemma NothingWritten(t: Tables)
    ensures Inserted(t, []) == t && Deleted(t, []) == t
  {
    assert Keys([]) == {};
    assert t.candidates - {} == t.candidates;
  }

  lemma AllInserted(t: Tables, history: seq<Tables>, records: seq<Fetched>, size: nat)
    requires size >= 1
    ensures Chunked(Inserted, t, history, records, 0, size)
         == (Inserted(t, records), history + InsertTrace(t, records, size))
  {
    InsertionsCompose();
    ChunkedFromStart(Inserted, t, history, records, size);
  }

  lemma AllDeleted(t: Tables, history: seq<Tables>, records: seq<Fetched>, size: nat)
    requires size >= 1
    ensures Chunked(Deleted, t, history, records, 0, size)
         == (Deleted(t, records), history + DeleteTrace(t, records, size))
  {
    DeletionsCompose();
    ChunkedFromStart(Deleted, t, history, records, size);
  }

  lemma AllFailed(t: Tables, history: seq<Tables>, records: seq<Fetched>, now: int, size: nat)
    requires size >= 1
    ensures Chunked(FailWrite(now), t, history, records, 0, size)
         == (Failed(t, records, now), history + FailTrace(t, records, now, size))
  {
    FailuresCompose(now);
    ChunkedFromStart(FailWrite(now), t, history, records, size);
  }

  lemma {:induction false} DistinctKeysCount(records: seq<Fetched>)
    requires DistinctKeys(records)
    ensures |Keys(records)| == |records|
  {
    if records != [] {
      var first, rest := records[0], records[1..];
      assert DistinctKeys(rest);
      DistinctKeysCount(rest);
      assert records == [first] + rest;
      KeysConcat([first], rest);
      assert Keys([first]) == {first.key};
      assert first.key !in Keys(rest);
    }
  }

  /** A promotion cut short between any two chunks leaves no candidate out: it is still one, or a relay. */
  lemma PromotionLosesNothing(t: Tables, records: seq<Fetched>, size: nat, k: nat)
    requires size >= 1 && k < |PromotionTrace(t, records, size)|
    ensures var u := PromotionTrace(t, records, size)[k];
            t.relays <= u.relays && u.candidates.Keys <= t.candidates.Keys <= u.candidates.Keys + u.relays
  {
    var inserts := InsertTrace(t, records, size);
    if k < |inserts| {
      InsertionsCompose();
      ChunkTraceIsPrefixes(Inserted, t, records, size, k);
      InsertionsKeep(t, records[..Written(k, size, |records|)]);
    } else {
      DeletionsCompose();
      ChunkTraceIsPrefixes(Deleted, Inserted(t, records), records, size, k - |inserts|);
      DeletionsKeep(t, records, Written(k - |inserts|, size, |records|));
    }
  }

  lemma InsertionsKeep(t: Tables, chunk: seq<Fetched>)
    ensures t.relays <= Inserted(t, chunk).relays && Inserted(t, chunk).candidates == t.candidates
  {
  }

  lemma DeletionsKeep(t: Tables, records: seq<Fetched>, n: nat)
    requires n <= |records|
    ensures var u := Deleted(Inserted(t, records), records[..n]);
            t.relays <= u.relays && u.candidates.Keys <= t.candidates.Keys <= u.candidates.Keys + u.relays
  {
    assert records == records[..n] + records[n..];
    KeysConcat(records[..n], records[n..]);
  }

  lemma {:induction false} FailuresConcat(candidates: map<Url, Candidate>, a: seq<Fetched>, b: seq<Fetched>, now: int)
    ensures FailuresWritten(candidates, a + b, now) == FailuresWritten(FailuresWritten(candidates, a, now), b, now)
    decreases |a|
  {
    if a == [] {
      assert a + b == b;
    } else {
      assert (a + b)[1..] == a[1..] + b;
      FailuresConcat(candidates[a[0].key := FailedValue(a[0].value, now)], a[1..], b, now);
    }
  }

  lemma SizeAfterDelete(t: Tables, urls: set<Url>)
    ensures |CandidatesDeleted(t, urls).candidates| == |t.candidates| - |t.candidates.Keys * urls|
  {
    var kept, gone := CandidatesDeleted(t, urls).candidates.Keys, t.candidates.Keys * urls;
    assert t.candidates.Keys == kept + gone && kept !! gone;
    assert |CandidatesDeleted(t, urls).candidates| == |kept|;
  }

  // ----- The page loop -----

  /** One attempt of a run. */
  datatype Attempt = Attempt(record: Fetched, valid: bool, now: int)

  /**
   What a run knows only by asking: how the event loop interleaves the probes of a
   page, the permits of each network, the verdict on a candidate, whether the service
   is still running, and the time when the failures of a page are written.
   */
  datatype World = World(
    pick: nat -> ((nat, Merge.State<Fetched>) -> Merge.Action), maxTasks: nat -> nat,
    verdict: (nat, Fetched) -> bool, running: nat -> bool, clock: nat -> int)

  function NetworkIndex(network: Network): nat {
    match network
    case Clearnet => 0
    case Tor => 1
    case I2p => 2
    case Loki => 3
    case _ => 4
  }

  /** One worker for each candidate of the page. */
  function PoolOf(w: World, page: seq<Fetched>): (pool: Merge.Pool)
    ensures |pool.network| == |page|
  {
    Merge.Pool(seq(|page|, i requires 0 <= i < |page| => NetworkIndex(page[i].value.network)), w.maxTasks)
  }

  /** The event loop runs what can run, and no worker lets an exception out. */
  ghost predicate ProbesAnswer(w: World) {
    && (forall n: nat, page: seq<Fetched> :: Merge.PicksEnabled(PoolOf(w, page), MergeOrder.Singles(page), w.pick(n)))
    && (forall n: nat, m: nat, s: Merge.State<Fetched> :: !w.pick(n)(m, s).Fail?)
  }

  /** The probes of a page run concurrently; every candidate yields exactly one result, in some order. */
  method ProbePage(w: World, n: nat, page: seq<Fetched>) returns (results: seq<Fetched>)
    requires ProbesAnswer(w)
    ensures multiset(results) == multiset(page)
  {
    var pool, outputs := PoolOf(w, page), MergeOrder.Singles(page);
    assert Merge.PicksEnabled(pool, outputs, w.pick(n));
    var yielded, _, log := Merge.IterConcurrent(pool, outputs, w.pick(n));
    MergeOrder.EveryItemArrives(pool, page, log);
    results := MergeOrder.Results(yielded);
  }

  ghost predicate ClockFrom(w: World, start: int) {
    forall n: nat :: start <= w.clock(n)
  }

  ghost predicate Attempted(log: seq<Attempt>, url: Url) {
    exists a :: a in log && a.record.key == url
  }

  /** The effect of the attempts on one URL: promoted, failed once more, or untouched. */
  ghost predicate EffectOn(t0: Tables, t: Tables, log: seq<Attempt>, url: Url) {
    && (forall a :: a in log && a.record.key == url ==> url in t0.candidates && t0.candidates[url] == a.record.value)
    && (forall a :: a in log && a.record.key == url && a.valid ==> url in t.relays && url !in t.candidates)
    && (forall a :: a in log && a.record.key == url && !a.valid ==>
          url in t.candidates
              && t.candidates[url] == Candidate(a.record.value.network, a.record.value.failures + 1, a.now)
              && (url in t.relays <==> url in t0.relays))
    && (!Attempted(log, url) ==>
          && (url in t.relays <==> url in t0.relays) && (url in t.candidates <==> url in t0.candidates)
          && (url in t.candidates ==> t.candidates[url] == t0.candidates[url]))
  }

  /** No candidate is attempted twice. */
  ghost predicate AttemptedOnce(log: seq<Attempt>) {
    forall i, j :: 0 <= i < j < |log| ==> log[i].record.key != log[j].record.key
  }

  ghost predicate RunInv(t0: Tables, t: Tables, log: seq<Attempt>, before: int) {
    && AttemptedOnce(log)
    && (forall url :: EffectOn(t0, t, log, url))
    && (forall a :: a in log ==> before <= a.now)
  }

  function Chosen(w: World, n: nat, results: seq<Fetched>, valid: bool): seq<Fetched> {
    if results == [] then []
    else (if w.verdict(n, results[0]) == valid then [results[0]] else []) + Chosen(w, n, results[1..], valid)
  }

  lemma {:induction false} ChosenElems(w: World, n: nat, results: seq<Fetched>, valid: bool)
    ensures forall r :: r in Chosen(w, n, results, valid) <==> r in results && w.verdict(n, r) == valid
  {
    if results != [] {
      var first, rest := results[0], results[1..];
      ChosenElems(w, n, rest, valid);
      assert results == [first] + rest;
      assert forall r :: r in results <==> r == first || r in rest;
    }
  }

  lemma {:induction false} ChosenDistinct(w: World, n: nat, results: seq<Fetched>, valid: bool)
    requires DistinctKeys(results)
    ensures DistinctKeys(Chosen(w, n, results, valid))
  {
    if results != [] {
      var first, rest := results[0], Chosen(w, n, results[1..], valid);
      ChosenDistinct(w, n, results[1..], valid);
      ChosenElems(w, n, results[1..], valid);
      forall j | 0 <= j < |rest| ensures rest[j].key != first.key {
        assert rest[j] in rest && rest[j] in results[1..];
      }
    }
  }

  lemma {:induction false} ChosenSizes(w: World, n: nat, results: seq<Fetched>)
    ensures |Chosen(w, n, results, true)| + |Chosen(w, n, results, false)| == |results|
  {
    if results != [] {
      ChosenSizes(w, n, results[1..]);
    }
  }

  /** A rearrangement of a page has the same rows, each once. */
  lemma Rearranged(t: Tables, page: seq<Fetched>, results: seq<Fetched>)
    requires Current(t, page) && multiset(results) == multiset(page)
    ensures Current(t, results) && Keys(results) == Keys(page) && |results| == |page|
  {
    assert forall r :: r in results <==> r in multiset(results);
    assert forall r :: r in page <==> r in multiset(page);
    assert |multiset(results)| == |results| && |multiset(page)| == |page|;
    forall i, j | 0 <= i < j < |results| ensures results[i].key != results[j].key {
      if results[i] == results[j] {
        TwiceInMultiset(results, i, j);
        OnceInMultiset(page, results[i]);
      } else {
        assert results[i] in page && results[j] in page;
      }
    }
  }

  lemma TwiceInMultiset(s: seq<Fetched>, i: nat, j: nat)
    requires i < j < |s| && s[i] == s[j]
    ensures multiset(s)[s[i]] >= 2
  {
    assert s == s[..i] + [s[i]] + s[i + 1..j] + [s[j]] + s[j + 1..];
  }

  lemma {:induction false} OnceInMultiset(s: seq<Fetched>, r: Fetched)
    requires DistinctKeys(s)
    ensures multiset(s)[r] <= 1
  {
    if s != [] {
      OnceInMultiset(s[1..], r);
      assert s == [s[0]] + s[1..];
      if r == s[0] {
        assert r !in s[1..];
      }
    }
  }

  function Attempts(records: seq<Fetched>, valid: bool, now: int): seq<Attempt> {
    seq(|records|, i requires 0 <= i < |records| => Attempt(records[i], valid, now))
  }

  function AfterPage(t: Tables, valid: seq<Fetched>, invalid: seq<Fetched>, now: int): Tables {
    Failed(CandidatesDeleted(RelaysInserted(t, Keys(valid)), Keys(valid)), invalid, now)
  }

  /** The two parts of a page of eligible rows. */
  ghost predicate IsSplit(t: Tables, networks: set<Network>, before: int, valid: seq<Fetched>, invalid: seq<Fetched>) {
    && Current(t, valid) && Current(t, invalid) && Keys(valid) !! Keys(invalid)
    && Keys(valid) + Keys(invalid) <= Eligible(t, networks, before)
  }

  lemma PageEffect(t: Tables, networks: set<Network>, before: int, valid: seq<Fetched>, invalid: seq<Fetched>,
          now: int, url: Url)
    requires IsSplit(t, networks, before, valid, invalid) && before <= now
    ensures var u := AfterPage(t, valid, invalid, now);
            && (url in Keys(valid) ==> url in u.relays && url !in u.candidates)
            && (url in Keys(invalid) ==>
                  && url in u.candidates && url in t.candidates
                  && u.candidates[url] == Candidate(t.candidates[url].network, t.candidates[url].failures + 1, now))
            && (url !in Keys(valid) ==> (url in u.relays <==> url in t.relays))
            && (url !in Keys(valid) + Keys(invalid) ==>
                  && (url in u.candidates <==> url in t.candidates)
                  && (url in u.candidates ==> u.candidates[url] == t.candidates[url]))
            && (url in Eligible(u, networks, before) <==>
                  url in Eligible(t, networks, before) && url !in Keys(valid) + Keys(invalid))
  {
    var between := CandidatesDeleted(RelaysInserted(t, Keys(valid)), Keys(valid));
    FailuresEffect(between.candidates, invalid, now, url);
    if url in Keys(invalid) {
      var r :| r in invalid && r.key == url;
    }
  }

  /** Each page takes its candidates out of the eligible ones, which is why the loop ends. */
  lemma PageShrinks(t: Tables, networks: set<Network>, before: int, valid: seq<Fetched>, invalid: seq<Fetched>,
          now: int)
    requires IsSplit(t, networks, before, valid, invalid) && before <= now
    ensures Eligible(AfterPage(t, valid, invalid, now), networks, before)
         == Eligible(t, networks, before) - Keys(valid) - Keys(invalid)
  {
    forall url
      ensures url in Eligible(AfterPage(t, valid, invalid, now), networks, before)
         <==> url in Eligible(t, networks, before) && url !in Keys(valid) + Keys(invalid)
    {
      PageEffect(t, networks, before, valid, invalid, now, url);
    }
  }

  lemma NewAttempts(log: seq<Attempt>, valid: seq<Fetched>, invalid: seq<Fetched>, now: int, log': seq<Attempt>)
    requires log' == log + Attempts(valid, true, now) + Attempts(invalid, false, now)
    ensures forall a :: a in log' <==>
              a in log || (a.now == now && (if a.valid then a.record in valid else a.record in invalid))
  {
    var v, i := Attempts(valid, true, now), Attempts(invalid, false, now);
    forall a ensures a in v <==> a.now == now && a.valid && a.record in valid {
      if a.now == now && a.valid && a.record in valid {
        var k :| 0 <= k < |valid| && valid[k] == a.record;
        assert v[k] == a;
      }
    }
    forall a ensures a in i <==> a.now == now && !a.valid && a.record in invalid {
      if a.now == now && !a.valid && a.record in invalid {
        var k :| 0 <= k < |invalid| && invalid[k] == a.record;
        assert i[k] == a;
      }
    }
  }

  /** What is eligible has not been attempted in this run. */
  lemma EligibleIsFresh(t0: Tables, t: Tables, log: seq<Attempt>, networks: set<Network>, before: int, url: Url)
    requires RunInv(t0, t, log, before) && url in Eligible(t, networks, before)
    ensures !Attempted(log, url)
  {
    assert EffectOn(t0, t, log, url);
    assert forall a :: a in log && a.record.key == url ==>
        before <= a.now && (a.valid || t.candidates[url].failures > 0);
  }

  lemma PageKeepsEffect(t0: Tables, t: Tables, log: seq<Attempt>, networks: set<Network>, before: int,
          valid: seq<Fetched>, invalid: seq<Fetched>, now: int, log': seq<Attempt>, url: Url)
    requires RunInv(t0, t, log, before) && IsSplit(t, networks, before, valid, invalid) && before <= now
    requires log' == log + Attempts(valid, true, now) + Attempts(invalid, false, now)
    ensures EffectOn(t0, AfterPage(t, valid, invalid, now), log', url)
  {
    NewAttempts(log, valid, invalid, now, log');
    PageEffect(t, networks, before, valid, invalid, now, url);
    assert EffectOn(t0, t, log, url);
    if url in Keys(valid) {
      EligibleIsFresh(t0, t, log, networks, before, url);
      AttemptIsLogged(log, valid, invalid, now, log', url);
    } else if url in Keys(invalid) {
      EligibleIsFresh(t0, t, log, networks, before, url);
      AttemptIsLogged(log, valid, invalid, now, log', url);
    } else {
      assert forall a :: a in log' && a.record.key == url ==> a in log;
      assert Attempted(log', url) <==> Attempted(log, url);
    }
  }

  /** The one attempt at a URL of the page. */
  lemma AttemptIsLogged(log: seq<Attempt>, valid: seq<Fetched>, invalid: seq<Fetched>, now: int, log': seq<Attempt>,
          url: Url)
    requires log' == log + Attempts(valid, true, now) + Attempts(invalid, false, now)
    requires !Attempted(log, url) && url in Keys(valid) + Keys(invalid) && Keys(valid) !! Keys(invalid)
    ensures Attempted(log', url)
    ensures forall a :: a in log' && a.record.key == url ==>
              a.now == now && a.valid == (url in Keys(valid)) && a.record in if a.valid then valid else invalid
  {
    NewAttempts(log, valid, invalid, now, log');
    assert forall r :: r in valid ==> r.key in Keys(valid);
    assert forall r :: r in invalid ==> r.key in Keys(invalid);
    if url in Keys(valid) {
      var r :| r in valid && r.key == url;
      assert Attempt(r, true, now) in log';
    } else {
      var r :| r in invalid && r.key == url;
      assert Attempt(r, false, now) in log';
    }
  }

  lemma PageKeepsOnce(t0: Tables, t: Tables, log: seq<Attempt>, networks: set<Network>, before: int,
          valid: seq<Fetched>, invalid: seq<Fetched>, now: int, log': seq<Attempt>)
    requires RunInv(t0, t, log, before) && IsSplit(t, networks, before, valid, invalid)
    requires log' == log + Attempts(valid, true, now) + Attempts(invalid, false, now)
    ensures AttemptedOnce(log')
  {
    var n, m := |log|, |log| + |valid|;
    forall k | n <= k < |log'|
      ensures log'[k].record == if k < m then valid[k - n] else invalid[k - m]
      ensures log'[k].record.key in Eligible(t, networks, before)
    {
      if k < m {
        assert valid[k - n].key in Keys(valid);
      } else {
        assert invalid[k - m].key in Keys(invalid);
      }
    }
    forall i, j | 0 <= i < j < |log'| ensures log'[i].record.key != log'[j].record.key {
      if i < n <= j {
        EligibleIsFresh(t0, t, log, networks, before, log'[j].record.key);
        assert log[i] in log;
      } else if n <= i < m <= j {
        assert valid[i - n].key in Keys(valid) && invalid[j - m].key in Keys(invalid);
      }
    }
  }

  lemma PageKeepsInv(t0: Tables, t: Tables, log: seq<Attempt>, networks: set<Network>, before: int,
          valid: seq<Fetched>, invalid: seq<Fetched>, now: int, log': seq<Attempt>)
    requires RunInv(t0, t, log, before) && IsSplit(t, networks, before, valid, invalid) && before <= now
    requires log' == log + Attempts(valid, true, now) + Attempts(invalid, false, now)
    ensures RunInv(t0, AfterPage(t, valid, invalid, now), log', before)
  {
    NewAttempts(log, valid, invalid, now, log');
    PageKeepsOnce(t0, t, log, networks, before, valid, invalid, now, log');
    forall url ensures EffectOn(t0, AfterPage(t, valid, invalid, now), log', url) {
      PageKeepsEffect(t0, t, log, networks, before, valid, invalid, now, log', url);
    }
  }

  lemma SplitOfPage(w: World, n: nat, t: Tables, networks: set<Network>, before: int, limit: nat,
          page: seq<Fetched>, results: seq<Fetched>)
    requires IsPage(t, networks, before, limit, page) && multiset(results) == multiset(page)
    ensures var valid, invalid := Chosen(w, n, results, true), Chosen(w, n, results, false);
            && IsSplit(t, networks, before, valid, invalid)
            && Keys(valid) + Keys(invalid) == Keys(page)
            && |valid| + |invalid| == |page|
            && (forall r :: r in valid ==> w.verdict(n, r))
            && (forall r :: r in invalid ==> !w.verdict(n, r))
  {
    Rearranged(t, page, results);
    ChosenElems(w, n, results, true);
    ChosenElems(w, n, results, false);
    ChosenDistinct(w, n, results, true);
    ChosenDistinct(w, n, results, false);
    ChosenSizes(w, n, results);
    var valid, invalid := Chosen(w, n, results, true), Chosen(w, n, results, false);
    assert forall r :: r in results ==> r in valid || r in invalid;
  }

  ghost predicate JudgedAt(w: World, a: Attempt, n: nat) {
    a.valid == w.verdict(n, a.record) && a.now == w.clock(n)
  }

  /** Every outcome is the verdict of one of the first pages, at the time of its writes. */
  ghost predicate Judged(w: World, log: seq<Attempt>, pages: nat) {
    forall a :: a in log ==> exists n: nat :: n < pages && JudgedAt(w, a, n)
  }

  lemma PageIsJudged(w: World, log: seq<Attempt>, n: nat, valid: seq<Fetched>, invalid: seq<Fetched>,
          log': seq<Attempt>)
    requires Judged(w, log, n)
    requires forall r :: r in valid ==> w.verdict(n, r)
    requires forall r :: r in invalid ==> !w.verdict(n, r)
    requires log' == log + Attempts(valid, true, w.clock(n)) + Attempts(invalid, false, w.clock(n))
    ensures Judged(w, log', n + 1)
  {
    NewAttempts(log, valid, invalid, w.clock(n), log');
    forall a | a in log' ensures exists m: nat :: m < n + 1 && JudgedAt(w, a, m) {
      if a in log {
        var m: nat :| m < n && JudgedAt(w, a, m);
      } else {
        assert JudgedAt(w, a, n);
      }
    }
  }

  /** The whole seconds of a clock time: towards zero, as Python's `int` does. */
  function PyInt(x: real): int {
    if x >= 0.0 then x.Floor else -((-x).Floor)
  }

  lemma PyIntTruncates(x: real)
    ensures x >= 0.0 ==> PyInt(x) as real <= x < PyInt(x) as real + 1.0
    ensures x <= 0.0 ==> PyInt(x) as real - 1.0 < x <= PyInt(x) as real
  {
  }

  /** One page: the probes, the promotion of the valid candidates, one more failure for the others. */
  method ValidatePage(db: Brotr, networks: set<Network>, attemptedBefore: int, limit: nat, candidates: seq<Fetched>,
          n: nat, w: World, ghost t0: Tables, ghost log: seq<Attempt>)
    returns (count: nat, ghost longer: seq<Attempt>)
    requires db.maxBatch >= 1 && ProbesAnswer(w) && attemptedBefore <= w.clock(n)
    requires IsPage(db.tables, networks, attemptedBefore, limit, candidates) && candidates != []
    requires RunInv(t0, db.tables, log, attemptedBefore) && Judged(w, log, n)
    modifies db
    ensures RunInv(t0, db.tables, longer, attemptedBefore) && Judged(w, longer, n + 1)
    ensures count == |candidates| && |longer| == |log| + count
    ensures |Eligible(db.tables, networks, attemptedBefore)| < |Eligible(old(db.tables), networks, attemptedBefore)|
    ensures count <= limit && (count < limit ==> Eligible(db.tables, networks, attemptedBefore) == {})
  {
    var results := ProbePage(w, n, candidates);
    var chunkValid, chunkInvalid := Classify(w, n, results);
    SplitOfPage(w, n, db.tables, networks, attemptedBefore, limit, candidates, results);
    ghost var before := db.tables;
    var _ := db.PromoteCandidates(chunkValid);
    var now := w.clock(n);
    var _ := db.FailCandidates(chunkInvalid, now);
    longer := log + Attempts(chunkValid, true, now) + Attempts(chunkInvalid, false, now);
    PageKeepsInv(t0, before, log, networks, attemptedBefore, chunkValid, chunkInvalid, now, longer);
    PageIsJudged(w, log, n, chunkValid, chunkInvalid, longer);
    EligibleDrops(before, networks, attemptedBefore, chunkValid, chunkInvalid, now);
    count := |chunkValid| + |chunkInvalid|;
    if count < limit {
      ShortPageIsLast(before, networks, attemptedBefore, limit, candidates);
      PageShrinks(before, networks, attemptedBefore, chunkValid, chunkInvalid, now);
    }
  }

  /**
   One run. It ends; each candidate is attempted at most once and `maxCandidates`
   bounds the attempts; each outcome is the verdict of the page it was attempted in;
   all pages but the last are full; and unless the service was stopped or the budget used up, no eligible candidate
   is left.
   */
  method Validate(db: Brotr, networks: set<Network>, startTime: real, interval: real, chunkSize: nat,
          maxCandidates: Option<nat>, w: World)
    returns (processed: nat, ghost log: seq<Attempt>, ghost pages: nat)
    requires db.maxBatch >= 1 && chunkSize >= 1 && interval >= 0.0
    requires ProbesAnswer(w) && ClockFrom(w, PyInt(startTime))
    modifies db
    ensures RunInv(old(db.tables), db.tables, log, PyInt(startTime - interval))
    ensures processed == |log| && (maxCandidates.Some? ==> processed <= maxCandidates.value)
    ensures Judged(w, log, pages)
    ensures pages <= processed && forall n: nat :: n < pages ==> w.running(n)
    ensures processed <= pages * chunkSize && (pages > 0 ==> (pages - 1) * chunkSize < processed)
    ensures networks == {} ==> processed == 0
    ensures networks != {} ==>
              NothingDue(db.tables, networks, PyInt(startTime - interval))
              || (maxCandidates.Some? && processed == maxCandidates.value)
              || !w.running(pages)
  {
    processed, log, pages := 0, [], 0;
    NoAttempts(db.tables, PyInt(startTime - interval));
    if networks == {} {
      return;
    }
    var attemptedBefore := PyInt(startTime - interval);
    assert attemptedBefore <= PyInt(startTime);
    var n := 0;
    while w.running(n)
      invariant RunInv(old(db.tables), db.tables, log, attemptedBefore)
      invariant processed == |log| && (maxCandidates.Some? ==> processed <= maxCandidates.value)
      invariant Judged(w, log, n) && pages == n <= processed && forall m: nat :: m < n ==> w.running(m)
      invariant n > 0 ==> (n - 1) * chunkSize < processed <= n * chunkSize
      invariant n == 0 ==> processed == 0
      invariant || processed == n * chunkSize || Eligible(db.tables, networks, attemptedBefore) == {}
                || (maxCandidates.Some? && processed == maxCandidates.value)
      decreases |Eligible(db.tables, networks, attemptedBefore)|
    {
      var limit := chunkSize;
      if maxCandidates.Some? {
        var budget := maxCandidates.value - processed;
        if budget <= 0 {
          break;
        }
        limit := Min(chunkSize, budget);
      }
      var candidates := db.FetchCandidates(networks, attemptedBefore, limit);
      if candidates == [] {
        break;
      }
      var count;
      count, log := ValidatePage(db, networks, attemptedBefore, limit, candidates, n, w, old(db.tables), log);
      Arith.Distributes(n, 1, chunkSize);
      processed := processed + count;
      n := n + 1;
      pages := n;
    }
    NothingIsDue(db.tables, networks, attemptedBefore);
  }

  method Classify(w: World, n: nat, results: seq<Fetched>) returns (valid: seq<Fetched>, invalid: seq<Fetched>)
    ensures valid == Chosen(w, n, results, true) && invalid == Chosen(w, n, results, false)
  {
    valid, invalid := [], [];
    for i := 0 to |results|
      invariant valid + Chosen(w, n, results[i..], true) == Chosen(w, n, results, true)
      invariant invalid + Chosen(w, n, results[i..], false) == Chosen(w, n, results, false)
    {
      assert results[i..][1..] == results[i + 1..];
      if w.verdict(n, results[i]) {
        valid := valid + [results[i]];
      } else {
        invalid := invalid + [results[i]];
      }
    }
  }

  lemma NoAttempts(t: Tables, before: int)
    ensures RunInv(t, t, [], before)
  {
  }

  lemma SmallerWithout(all: set<Url>, some: set<Url>, others: set<Url>, url: Url)
    requires url in all && url in some + others
    ensures |all - some - others| < |all|
  {
    Keyset.SubsetSize(all - some - others, all - {url});
  }

  lemma EligibleDrops(t: Tables, networks: set<Network>, before: int, valid: seq<Fetched>, invalid: seq<Fetched>,
          now: int)
    requires IsSplit(t, networks, before, valid, invalid) && before <= now && |valid| + |invalid| > 0
    ensures |Eligible(AfterPage(t, valid, invalid, now), networks, before)| < |Eligible(t, networks, before)|
  {
    PageShrinks(t, networks, before, valid, invalid, now);
    var url := if valid != [] then valid[0].key else invalid[0].key;
    assert url in Keys(valid) + Keys(invalid);
    SmallerWithout(Eligible(t, networks, before), Keys(valid), Keys(invalid), url);
  }
}
