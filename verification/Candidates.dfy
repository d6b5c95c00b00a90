/** The relay table, the validation candidates, and the database calls on them. */
module Candidates {
  import opened CursorStore
  import opened Networks

  /** The value stored for a candidate URL. */
  datatype Candidate = Candidate(network: Network, failures: nat, timestamp: int)

  /** A candidate as fetched: the key and the value it had then. */
  datatype Fetched = Fetched(key: Url, value: Candidate)

  datatype Tables = Tables(relays: set<Url>, candidates: map<Url, Candidate>)

  function Keys(records: seq<Fetched>): set<Url> {
    set r | r in records :: r.key
  }

  ghost predicate DistinctKeys(records: seq<Fetched>) {
    forall i, j :: 0 <= i < j < |records| ==> records[i].key != records[j].key
  }

  /** What the filter lets through: URLs that are neither relays nor candidates. */
  function Unseen(t: Tables, found: map<Url, Network>): map<Url, Network> {
    found - t.relays - t.candidates.Keys
  }

  /** The upsert writes a first row for each of the URLs, over whatever row there is. */
  function Registered(t: Tables, found: map<Url, Network>, urls: set<Url>, now: int): Tables
    requires urls <= found.Keys
  {
    t.(candidates := map url | url in t.candidates.Keys + urls ::
         if url in urls then Candidate(found[url], 0, now) else t.candidates[url])
  }

  /** Filter and upsert with nothing in between: known URLs keep their state. */
  function Discovered(t: Tables, found: map<Url, Network>, now: int): Tables {
    Registered(t, found, Unseen(t, found).Keys, now)
  }

  function RelaysInserted(t: Tables, urls: set<Url>): Tables {
    t.(relays := t.relays + urls)
  }

  function CandidatesDeleted(t: Tables, urls: set<Url>): Tables {
    t.(candidates := t.candidates - urls)
  }

  function FailedValue(value: Candidate, now: int): Candidate {
    Candidate(value.network, value.failures + 1, now)
  }

  function FailuresWritten(candidates: map<Url, Candidate>, records: seq<Fetched>, now: int): map<Url, Candidate>
    decreases |records|
  {
    if records == [] then candidates
    else FailuresWritten(candidates[records[0].key := FailedValue(records[0].value, now)], records[1..], now)
  }

  function Failed(t: Tables, records: seq<Fetched>, now: int): Tables {
    t.(candidates := FailuresWritten(t.candidates, records, now))
  }

  /** Cleanup of candidates whose deletion after promotion did not happen. */
  function WithoutPromoted(t: Tables): Tables {
    CandidatesDeleted(t, t.relays)
  }

  function Exhausted(t: Tables, maxFailures: nat): set<Url> {
    set url | url in t.candidates && t.candidates[url].failures >= maxFailures
  }

  function WithoutExhausted(t: Tables, maxFailures: nat): Tables {
    CandidatesDeleted(t, Exhausted(t, maxFailures))
  }

  /** Never attempted, or last attempted before `before`. */
  predicate IsEligible(value: Candidate, networks: set<Network>, before: int) {
    value.network in networks && (value.failures == 0 || value.timestamp < before)
  }

  function Eligible(t: Tables, networks: set<Network>, before: int): set<Url> {
    set url | url in t.candidates && IsEligible(t.candidates[url], networks, before)
  }

  /** The records are rows of the table, each once. */
  ghost predicate Current(t: Tables, records: seq<Fetched>) {
    && DistinctKeys(records)
    && forall r :: r in records ==> r.key in t.candidates && t.candidates[r.key] == r.value
  }

  /** A write of failures touches the given keys only, and adds one failure to each. */
  lemma {:induction false} FailuresEffect(candidates: map<Url, Candidate>, records: seq<Fetched>, now: int, url: Url)
    requires DistinctKeys(records)
    ensures var m := FailuresWritten(candidates, records, now);
            && (forall r :: r in records && r.key == url ==>
                  url in m && m[url] == Candidate(r.value.network, r.value.failures + 1, now))
            && (url !in Keys(records) ==> (url in m <==> url in candidates) && (url in m ==> m[url] == candidates[url]))
    decreases |records|
  {
    if records != [] {
      assert forall r :: r in records <==> r == records[0] || r in records[1..];
      assert forall r :: r in records[1..] ==> r.key != records[0].key;
      FailuresEffect(candidates[records[0].key := FailedValue(records[0].value, now)], records[1..], now, url);
    }
  }
}
