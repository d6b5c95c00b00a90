/**
 The life of a candidate over whole runs of the validator service, with the
 discovery of new candidates and the direct insertion of relays at any time, and a
 crash between any two database calls. A discovery is a filter query and, later, upserts of what it let through. One
 cycle is a cleanup of one or two calls and then a run of pages; for each page the
 valid relays are inserted, their candidates deleted and the failures written, in
 this order and chunk by chunk.
 */
module Lifecycle {
  import opened CursorStore
  import opened Candidates
  import opened Networks

  datatype Config = Config(networks: set<Network>, interval: nat, cleanupEnabled: bool, maxFailures: nat)

  /** In a run, what is still to be written for the current page. */
  datatype Phase =
    | Stopped
    | HalfCleaned
    | Cleaned
    | Running(toInsert: seq<Fetched>, toDelete: seq<Fetched>, toFail: seq<Fetched>)

  /** What a discovery is about to register, and what others have registered since its filter query. */
  datatype Discovery = Discovery(unseen: map<Url, Network>, clashes: set<Url>)

  /**
   `discovered` and `exhausted` record what has ever been registered and what has
   been removed for its failures; `attempted` what the current run has fetched;
   `before` is the cut-off time of the current run; `discoveries` those under way.
   */
  datatype State = State(
    tables: Tables, phase: Phase, now: int, before: int, attempted: set<Url>,
    discoveries: map<nat, Discovery>, discovered: set<Url>, exhausted: set<Url>)

  datatype Action =
    | Filter(id: nat, found: map<Url, Network>)
    | Register(id: nat, urls: set<Url>)
    | AddRelays(urls: set<Url>)
    | Tick(seconds: nat)
    | CleanPromoted
    | CleanExhausted
    | BeginRun
    | FetchPage(valid: seq<Fetched>, invalid: seq<Fetched>)
    | InsertChunk(n: nat)
    | DeleteChunk(n: nat)
    | FailChunk(n: nat)
    | EndRun
    | Crash

  /** A page of eligible rows, split by the verdict of the probes. */
  ghost predicate IsPage(cfg: Config, s: State, valid: seq<Fetched>, invalid: seq<Fetched>) {
    && Current(s.tables, valid) && Current(s.tables, invalid) && Keys(valid) !! Keys(invalid)
    && Keys(valid) + Keys(invalid) <= Eligible(s.tables, cfg.networks, s.before)
  }

  predicate PageDone(p: Phase) {
    p.Running? && p.toInsert == [] && p.toDelete == [] && p.toFail == []
  }

  ghost predicate Enabled(cfg: Config, s: State, a: Action) {
    match a
    case Filter(id, _) => id !in s.discoveries
    case Register(id, urls) => id in s.discoveries && urls <= s.discoveries[id].unseen.Keys
    case AddRelays(_) => true
    case Tick(_) => true
    case CleanPromoted => s.phase == Stopped
    case CleanExhausted => cfg.cleanupEnabled && s.phase == HalfCleaned
    case BeginRun => s.phase == if cfg.cleanupEnabled then Cleaned else HalfCleaned
    case FetchPage(valid, invalid) => PageDone(s.phase) && IsPage(cfg, s, valid, invalid)
    case InsertChunk(n) => s.phase.Running? && n <= |s.phase.toInsert|
    case DeleteChunk(n) => s.phase.Running? && s.phase.toInsert == [] && n <= |s.phase.toDelete|
    case FailChunk(n) => s.phase.Running? && s.phase.toInsert == [] && s.phase.toDelete == [] && n <= |s.phase.toFail|
    case EndRun => PageDone(s.phase)
    case Crash => true
  }

  /** The URLs leave the discovery that registers them, and clash with every other one. */
  function AfterRegister(discoveries: map<nat, Discovery>, id: nat, urls: set<Url>): map<nat, Discovery> {
    map i | i in discoveries ::
      if i == id then Discovery(discoveries[i].unseen - urls, discoveries[i].clashes)
      else Discovery(discoveries[i].unseen, discoveries[i].clashes + urls)
  }

  ghost function Filtered(s: State, id: nat, found: map<Url, Network>): State {
    s.(discoveries := s.discoveries[id := Discovery(Unseen(s.tables, found), {})],
       discovered := s.discovered + (found.Keys - Unseen(s.tables, found).Keys))
  }

  ghost function RegisteredBy(s: State, id: nat, urls: set<Url>): State
    requires id in s.discoveries && urls <= s.discoveries[id].unseen.Keys
  {
    s.(tables := Registered(s.tables, s.discoveries[id].unseen, urls, s.now),
       discoveries := AfterRegister(s.discoveries, id, urls), discovered := s.discovered + urls)
  }

  /** An action that is not enabled changes nothing. */
  ghost function Step(cfg: Config, s: State, a: Action): State {
    if !Enabled(cfg, s, a) then s
    else
      match a
      case Filter(id, found) => Filtered(s, id, found)
      case Register(id, urls) => RegisteredBy(s, id, urls)
      case AddRelays(added) => s.(tables := RelaysInserted(s.tables, added), discovered := s.discovered + added)
      case Tick(seconds) => s.(now := s.now + seconds)
      case CleanPromoted => s.(tables := WithoutPromoted(s.tables), phase := HalfCleaned)
      case CleanExhausted =>
        s.(tables := WithoutExhausted(s.tables, cfg.maxFailures), phase := Cleaned,
           exhausted := s.exhausted + Exhausted(s.tables, cfg.maxFailures))
      case BeginRun => s.(phase := Running([], [], []), before := s.now - cfg.interval, attempted := {})
      case FetchPage(valid, invalid) =>
        s.(phase := Running(valid, valid, invalid), attempted := s.attempted + Keys(valid) + Keys(invalid))
      case InsertChunk(n) =>
        s.(tables := RelaysInserted(s.tables, Keys(s.phase.toInsert[..n])),
           phase := s.phase.(toInsert := s.phase.toInsert[n..]))
      case DeleteChunk(n) =>
        s.(tables := CandidatesDeleted(s.tables, Keys(s.phase.toDelete[..n])),
           phase := s.phase.(toDelete := s.phase.toDelete[n..]))
      case FailChunk(n) =>
        s.(tables := Failed(s.tables, s.phase.toFail[..n], s.now), phase := s.phase.(toFail := s.phase.toFail[n..]))
      case EndRun => s.(phase := Stopped)
      case Crash => s.(phase := Stopped)
  }

  ghost function Run(cfg: Config, s: State, actions: seq<Action>): State
    decreases |actions|
  {
    if actions == [] then s
    else Step(cfg, Run(cfg, s, actions[..|actions| - 1]), actions[|actions| - 1])
  }

  /** The service starts stopped, on tables that account for all that was discovered. */
  ghost predicate IsStart(cfg: Config, s: State) {
    s.phase == Stopped && s.discoveries == map[] && Conserved(s) && Bounded(cfg, s)
  }

  // ----- What every step keeps -----

  /** A discovered URL is a relay, a candidate, or was removed for its failures. */
  ghost predicate Conserved(s: State) {
    forall url :: url in s.discovered ==> url in s.tables.relays || url in s.tables.candidates || url in s.exhausted
  }

  /** Still to be written for the current page. */
  ghost predicate Pending(p: Phase, url: Url) {
    p.Running? && (url in Keys(p.toDelete) || url in Keys(p.toFail))
  }

  /** A pending failure is that of a candidate, whose counter may have been reset but not grown since it was fetched. */
  ghost predicate FailuresPending(s: State) {
    s.phase.Running? ==>
      forall r :: r in s.phase.toFail ==>
          r.key in s.tables.candidates && s.tables.candidates[r.key].failures <= r.value.failures
  }

  /** Candidates are deleted only after they became relays. */
  ghost predicate InFlight(s: State) {
    s.phase.Running? ==>
      && Keys(s.phase.toDelete) <= s.tables.relays + Keys(s.phase.toInsert)
      && DistinctKeys(s.phase.toFail)
      && Keys(s.phase.toDelete) !! Keys(s.phase.toFail)
  }

  /** What the run has attempted is a relay or a candidate. */
  ghost predicate Attempts(s: State) {
    s.phase.Running? ==>
      && s.before <= s.now
      && (forall url :: Pending(s.phase, url) ==> url in s.attempted)
      && (forall url :: url in s.attempted ==> url in s.tables.candidates || url in s.tables.relays)
  }

  /** Attempted in this run, written, and a candidate: out of reach until the next run unless it was reset. */
  ghost predicate Settled(s: State, url: Url) {
    s.phase.Running? && url in s.attempted && url in s.tables.candidates && !Pending(s.phase, url)
  }

  ghost predicate SettledOrReset(cfg: Config, s: State) {
    forall url :: Settled(s, url) && IsEligible(s.tables.candidates[url], cfg.networks, s.before)
      ==> s.tables.candidates[url].failures == 0
  }

  /** May fail once more before the next cleanup. */
  ghost predicate HasAttemptLeft(s: State, url: Url) {
    s.phase == Cleaned || (s.phase.Running? && (url !in s.attempted || Pending(s.phase, url)))
  }

  ghost predicate Bounded(cfg: Config, s: State) {
    cfg.cleanupEnabled ==>
      && (forall url :: url in s.tables.candidates ==>
            && s.tables.candidates[url].failures <= cfg.maxFailures
            && (HasAttemptLeft(s, url) ==> s.tables.candidates[url].failures < cfg.maxFailures))
      && (s.phase.Running? ==> forall r :: r in s.phase.toFail ==> r.value.failures < cfg.maxFailures)
  }

  ghost predicate Inv(cfg: Config, s: State) {
    && Conserved(s) && InFlight(s) && FailuresPending(s) && Attempts(s)
    && SettledOrReset(cfg, s) && Bounded(cfg, s)
  }

  lemma KeysSplit(records: seq<Fetched>, n: nat)
    requires n <= |records|
    ensures Keys(records) == Keys(records[..n]) + Keys(records[n..])
    ensures DistinctKeys(records) ==>
              DistinctKeys(records[..n]) && DistinctKeys(records[n..]) && Keys(records[..n]) !! Keys(records[n..])
  {
    assert records == records[..n] + records[n..];
    assert forall r :: r in records <==> r in records[..n] || r in records[n..];
  }

  lemma RegisterKeepsInv(cfg: Config, s: State, id: nat, urls: set<Url>)
    requires cfg.maxFailures >= 1 && Inv(cfg, s) && Enabled(cfg, s, Register(id, urls))
    ensures Inv(cfg, Step(cfg, s, Register(id, urls)))
  {
  }

  lemma InsertKeepsInv(cfg: Config, s: State, n: nat)
    requires Inv(cfg, s) && Enabled(cfg, s, InsertChunk(n))
    ensures Inv(cfg, Step(cfg, s, InsertChunk(n)))
  {
    KeysSplit(s.phase.toInsert, n);
  }

  lemma DeleteKeepsInv(cfg: Config, s: State, n: nat)
    requires Inv(cfg, s) && Enabled(cfg, s, DeleteChunk(n))
    ensures Inv(cfg, Step(cfg, s, DeleteChunk(n)))
  {
    KeysSplit(s.phase.toDelete, n);
    var t := Step(cfg, s, DeleteChunk(n));
    assert Keys(s.phase.toInsert) == {};
    assert forall url :: Pending(s.phase, url) && !Pending(t.phase, url) ==>
        url !in t.tables.candidates && url in t.tables.relays;
    forall r | r in t.phase.toFail ensures r.key in t.tables.candidates {
      assert r.key in Keys(s.phase.toFail);
    }
  }

  /** A written failure is one more than was fetched, and recent. */
  lemma FailEffect(cfg: Config, s: State, n: nat, url: Url)
    requires Inv(cfg, s) && Enabled(cfg, s, FailChunk(n))
    ensures var chunk, t := s.phase.toFail[..n], Step(cfg, s, FailChunk(n)).tables;
            && (url in t.candidates <==> url in s.tables.candidates)
            && (url in Keys(chunk) ==> url in s.tables.candidates)
            && (forall r :: r in chunk && r.key == url ==> t.candidates[url] == FailedValue(r.value, s.now))
            && (url !in Keys(chunk) && url in t.candidates ==> t.candidates[url] == s.tables.candidates[url])
  {
    var toFail := s.phase.toFail;
    KeysSplit(toFail, n);
    FailuresEffect(s.tables.candidates, toFail[..n], s.now, url);
    if url in Keys(toFail[..n]) {
      var r :| r in toFail[..n] && r.key == url;
      assert r in toFail;
    }
  }

  /** What the invariant needs to know of one URL when failures are written. */
  lemma FailSettles(cfg: Config, s: State, n: nat, url: Url)
    requires Inv(cfg, s) && Enabled(cfg, s, FailChunk(n)) && url in s.tables.candidates
    ensures var chunk, t := s.phase.toFail[..n], Step(cfg, s, FailChunk(n)).tables;
            && url in t.candidates
            && (url in Keys(chunk) ==>
                  && !IsEligible(t.candidates[url], cfg.networks, s.before)
                  && (cfg.cleanupEnabled ==> t.candidates[url].failures <= cfg.maxFailures))
            && (url !in Keys(chunk) ==> t.candidates[url] == s.tables.candidates[url])
  {
    FailEffect(cfg, s, n, url);
    if url in Keys(s.phase.toFail[..n]) {
      var r :| r in s.phase.toFail[..n] && r.key == url;
      assert r in s.phase.toFail;
    }
  }

  lemma StillToFail(cfg: Config, s: State, n: nat, r: Fetched)
    requires Inv(cfg, s) && Enabled(cfg, s, FailChunk(n)) && r in s.phase.toFail[n..]
    ensures var t := Step(cfg, s, FailChunk(n)).tables;
            r.key in t.candidates && t.candidates[r.key].failures <= r.value.failures
  {
    KeysSplit(s.phase.toFail, n);
    assert r in s.phase.toFail && r.key in Keys(s.phase.toFail[n..]);
    FailEffect(cfg, s, n, r.key);
  }

  lemma FailKeepsSettled(cfg: Config, s: State, n: nat)
    requires Inv(cfg, s) && Enabled(cfg, s, FailChunk(n))
    ensures SettledOrReset(cfg, Step(cfg, s, FailChunk(n)))
  {
    var t := Step(cfg, s, FailChunk(n));
    KeysSplit(s.phase.toFail, n);
    forall url | Settled(t, url) && IsEligible(t.tables.candidates[url], cfg.networks, t.before)
      ensures t.tables.candidates[url].failures == 0
    {
      FailEffect(cfg, s, n, url);
      FailSettles(cfg, s, n, url);
      assert url !in Keys(s.phase.toFail[..n]) && Settled(s, url);
    }
  }

  lemma FailKeepsBounded(cfg: Config, s: State, n: nat)
    requires Inv(cfg, s) && Enabled(cfg, s, FailChunk(n))
    ensures Bounded(cfg, Step(cfg, s, FailChunk(n)))
  {
    var t := Step(cfg, s, FailChunk(n));
    var toFail := s.phase.toFail;
    KeysSplit(toFail, n);
    if cfg.cleanupEnabled {
      forall url | url in t.tables.candidates
        ensures t.tables.candidates[url].failures <= cfg.maxFailures
        ensures HasAttemptLeft(t, url) ==> t.tables.candidates[url].failures < cfg.maxFailures
      {
        FailEffect(cfg, s, n, url);
        FailSettles(cfg, s, n, url);
        assert HasAttemptLeft(t, url) ==> url !in Keys(toFail[..n]) && HasAttemptLeft(s, url);
      }
      assert forall r :: r in toFail[n..] ==> r in toFail;
    }
  }

  lemma FailKeepsInv(cfg: Config, s: State, n: nat)
    requires Inv(cfg, s) && Enabled(cfg, s, FailChunk(n))
    ensures Inv(cfg, Step(cfg, s, FailChunk(n)))
  {
    var t := Step(cfg, s, FailChunk(n));
    KeysSplit(s.phase.toFail, n);
    FailKeepsSettled(cfg, s, n);
    FailKeepsBounded(cfg, s, n);
    forall url ensures url in t.tables.candidates <==> url in s.tables.candidates {
      FailEffect(cfg, s, n, url);
    }
    forall r | r in s.phase.toFail[n..]
      ensures r.key in t.tables.candidates && t.tables.candidates[r.key].failures <= r.value.failures
    {
      StillToFail(cfg, s, n, r);
    }
  }

  lemma FetchKeepsInv(cfg: Config, s: State, valid: seq<Fetched>, invalid: seq<Fetched>)
    requires cfg.maxFailures >= 1 && Inv(cfg, s) && Enabled(cfg, s, FetchPage(valid, invalid))
    ensures Inv(cfg, Step(cfg, s, FetchPage(valid, invalid)))
  {
    assert Keys(s.phase.toDelete) == {} && Keys(s.phase.toFail) == {};
    forall url | url in Keys(valid) + Keys(invalid)
      ensures url in s.tables.candidates && (cfg.cleanupEnabled ==> s.tables.candidates[url].failures < cfg.maxFailures)
    {
      assert url in Eligible(s.tables, cfg.networks, s.before);
      assert Settled(s, url) || url !in s.attempted;
    }
    forall r | r in invalid ensures cfg.cleanupEnabled ==> r.value.failures < cfg.maxFailures {
      assert r.key in Keys(invalid);
    }
  }

  lemma StepKeepsInv(cfg: Config, s: State, a: Action)
    requires cfg.maxFailures >= 1 && Inv(cfg, s)
    ensures Inv(cfg, Step(cfg, s, a))
  {
    if Enabled(cfg, s, a) {
      match a {
        case Register(id, urls) => RegisterKeepsInv(cfg, s, id, urls);
        case FetchPage(valid, invalid) => FetchKeepsInv(cfg, s, valid, invalid);
        case InsertChunk(n) => InsertKeepsInv(cfg, s, n);
        case DeleteChunk(n) => DeleteKeepsInv(cfg, s, n);
        case FailChunk(n) => FailKeepsInv(cfg, s, n);
        case BeginRun => assert Keys([]) == {};
        case _ =>
      }
    }
  }

  /** The invariant holds over every interleaving of discovery, cycles and crashes. */
  lemma {:induction false} EveryRunKeepsInv(cfg: Config, s: State, actions: seq<Action>)
    requires cfg.maxFailures >= 1 && IsStart(cfg, s)
    ensures Inv(cfg, Run(cfg, s, actions))
    decreases |actions|
  {
    if actions != [] {
      var rest := actions[..|actions| - 1];
      EveryRunKeepsInv(cfg, s, rest);
      StepKeepsInv(cfg, Run(cfg, s, rest), actions[|actions| - 1]);
    }
  }

  /** A discovered URL is not lost: it stays a relay or a candidate until removed with too many failures. */
  lemma CandidatesAreConserved(cfg: Config, s: State, actions: seq<Action>, url: Url)
    requires cfg.maxFailures >= 1 && IsStart(cfg, s)
    ensures var t := Run(cfg, s, actions);
            url in t.discovered ==> url in t.tables.relays || url in t.tables.candidates || url in t.exhausted
  {
    EveryRunKeepsInv(cfg, s, actions);
  }

  /** With the cleanup of exhausted candidates, no counter of failures ever exceeds the limit. */
  lemma FailuresAreBounded(cfg: Config, s: State, actions: seq<Action>, url: Url)
    requires cfg.maxFailures >= 1 && cfg.cleanupEnabled && IsStart(cfg, s)
    requires url in Run(cfg, s, actions).tables.candidates
    ensures Run(cfg, s, actions).tables.candidates[url].failures <= cfg.maxFailures
  {
    EveryRunKeepsInv(cfg, s, actions);
  }

  /** No step removes a relay, a discovered URL from the record, or an exhausted one. */
  lemma {:induction false} RelaysAreKept(cfg: Config, s: State, actions: seq<Action>, n: nat)
    requires n <= |actions|
    ensures var t, u := Run(cfg, s, actions[..n]), Run(cfg, s, actions);
            t.tables.relays <= u.tables.relays && t.discovered <= u.discovered && t.exhausted <= u.exhausted
    decreases |actions|
  {
    if n < |actions| {
      var rest := actions[..|actions| - 1];
      assert rest[..n] == actions[..n];
      RelaysAreKept(cfg, s, rest, n);
    } else {
      assert actions[..n] == actions;
    }
  }

  /** The first call of a cleanup leaves no candidate that is a relay, and removes no other. */
  lemma CleanupSeparates(cfg: Config, s: State)
    requires s.phase == Stopped
    ensures var t := Step(cfg, s, CleanPromoted).tables;
            && t.relays !! t.candidates.Keys && t.relays == s.tables.relays
            && t.candidates.Keys == s.tables.candidates.Keys - s.tables.relays
  {
  }
}
