/**
 What a discovery can undo. Its filter query and its upserts are separate calls, so a
 URL that was let through may have become a candidate, and been attempted, before it
 is registered; the upsert then starts its counter again. Here are the exact
 conditions under which that does no harm.
 */
module Rediscovery {
  import opened Candidates
  import opened CursorStore
  import opened Lifecycle
  import opened Networks

  lemma RunMore(cfg: Config, s: State, actions: seq<Action>, k: nat)
    requires k < |actions|
    ensures Run(cfg, s, actions[..k + 1]) == Step(cfg, Run(cfg, s, actions[..k]), actions[k])
  {
    assert actions[..k + 1][..k] == actions[..k];
  }

  // ----- One attempt in a run -----

  /** Nothing that the run has attempted and written is within its reach. */
  ghost predicate OneAttempt(cfg: Config, s: State) {
    forall url :: Settled(s, url) ==> !IsEligible(s.tables.candidates[url], cfg.networks, s.before)
  }

  /**
   The discovery registers nothing that the current run has attempted, unless it is pending
   or on a network left out.
   */
  ghost predicate RegistersUnattempted(cfg: Config, s: State, a: Action) {
    a.Register? && Enabled(cfg, s, a) && s.phase.Running? ==>
      forall url :: url in a.urls && url in s.attempted && !Pending(s.phase, url) ==>
        s.discoveries[a.id].unseen[url] !in cfg.networks
  }

  /** Between pages, nothing is fetched twice exactly when nothing settled is within reach. */
  lemma NoRefetchIffOneAttempt(cfg: Config, s: State)
    requires Inv(cfg, s) && PageDone(s.phase)
    ensures OneAttempt(cfg, s) <==>
              forall valid, invalid :: Enabled(cfg, s, FetchPage(valid, invalid)) ==>
                  Keys(valid) + Keys(invalid) !! s.attempted
  {
    assert Keys(s.phase.toDelete) == {} && Keys(s.phase.toFail) == {};
    if OneAttempt(cfg, s) {
      forall valid, invalid | Enabled(cfg, s, FetchPage(valid, invalid))
        ensures Keys(valid) + Keys(invalid) !! s.attempted
      {
        forall url | url in Keys(valid) + Keys(invalid) ensures url !in s.attempted {
          assert url in Eligible(s.tables, cfg.networks, s.before);
          assert !Settled(s, url);
        }
      }
    } else {
      var url :| Settled(s, url) && IsEligible(s.tables.candidates[url], cfg.networks, s.before);
      var page := [Fetched(url, s.tables.candidates[url])];
      assert Keys(page) == {url} && Keys([]) == {};
      assert Enabled(cfg, s, FetchPage(page, []));
      assert url in Keys(page) + Keys([]) && url in s.attempted;
    }
  }

  lemma RegisterOnOne(cfg: Config, s: State, id: nat, urls: set<Url>, url: Url)
    requires Enabled(cfg, s, Register(id, urls))
    ensures var t := Step(cfg, s, Register(id, urls));
            && t.phase == s.phase && t.attempted == s.attempted && t.before == s.before
            && (url in t.tables.candidates <==> url in s.tables.candidates || url in urls)
            && (url in urls ==> t.tables.candidates[url] == Candidate(s.discoveries[id].unseen[url], 0, s.now))
            && (url !in urls && url in s.tables.candidates ==> t.tables.candidates[url] == s.tables.candidates[url])
  {
  }

  lemma RegisterKeepsOneAttempt(cfg: Config, s: State, id: nat, urls: set<Url>)
    requires Inv(cfg, s) && OneAttempt(cfg, s) && Enabled(cfg, s, Register(id, urls))
    ensures OneAttempt(cfg, Step(cfg, s, Register(id, urls))) <==> RegistersUnattempted(cfg, s, Register(id, urls))
  {
    var t := Step(cfg, s, Register(id, urls));
    forall url ensures Settled(t, url) && IsEligible(t.tables.candidates[url], cfg.networks, t.before) <==>
                         (url in urls && s.phase.Running? && url in s.attempted && !Pending(s.phase, url)
                          && s.discoveries[id].unseen[url] in cfg.networks)
    {
      RegisterOnOne(cfg, s, id, urls, url);
      assert url !in urls ==> (Settled(t, url) <==> Settled(s, url));
    }
  }

  lemma OthersKeepOneAttempt(cfg: Config, s: State, a: Action)
    requires Inv(cfg, s) && OneAttempt(cfg, s) && !a.Register?
    ensures OneAttempt(cfg, Step(cfg, s, a))
  {
    if Enabled(cfg, s, a) {
      match a {
        case DeleteChunk(n) =>
          KeysSplit(s.phase.toDelete, n);
          assert Keys(s.phase.toInsert) == {};
        case FailChunk(n) => FailKeepsOneAttempt(cfg, s, n);
        case _ =>
      }
    }
  }

  lemma FailKeepsOneAttempt(cfg: Config, s: State, n: nat)
    requires Inv(cfg, s) && OneAttempt(cfg, s) && Enabled(cfg, s, FailChunk(n))
    ensures OneAttempt(cfg, Step(cfg, s, FailChunk(n)))
  {
    var t := Step(cfg, s, FailChunk(n));
    KeysSplit(s.phase.toFail, n);
    forall url | Settled(t, url) ensures !IsEligible(t.tables.candidates[url], cfg.networks, t.before) {
      FailEffect(cfg, s, n, url);
      FailSettles(cfg, s, n, url);
      assert url !in Keys(s.phase.toFail[..n]) ==> Settled(s, url);
    }
  }

  /** A step keeps the single attempt exactly when it registers nothing attempted. */
  lemma StepKeepsOneAttempt(cfg: Config, s: State, a: Action)
    requires Inv(cfg, s) && OneAttempt(cfg, s)
    ensures OneAttempt(cfg, Step(cfg, s, a)) <==> RegistersUnattempted(cfg, s, a)
  {
    if !a.Register? {
      OthersKeepOneAttempt(cfg, s, a);
    } else if Enabled(cfg, s, a) {
      RegisterKeepsOneAttempt(cfg, s, a.id, a.urls);
    }
  }

  ghost predicate OneAttemptAt(cfg: Config, s: State, actions: seq<Action>, k: nat)
    requires k <= |actions|
  {
    OneAttempt(cfg, Run(cfg, s, actions[..k]))
  }

  ghost predicate UnattemptedAt(cfg: Config, s: State, actions: seq<Action>, k: nat)
    requires k < |actions|
  {
    RegistersUnattempted(cfg, Run(cfg, s, actions[..k]), actions[k])
  }

  lemma {:induction false} UnattemptedKeepsOneAttempt(cfg: Config, s: State, actions: seq<Action>, k: nat)
    requires cfg.maxFailures >= 1 && IsStart(cfg, s) && k <= |actions|
    requires forall j: nat :: j < |actions| ==> UnattemptedAt(cfg, s, actions, j)
    ensures OneAttemptAt(cfg, s, actions, k)
  {
    if k > 0 {
      UnattemptedKeepsOneAttempt(cfg, s, actions, k - 1);
      assert UnattemptedAt(cfg, s, actions, k - 1);
      RunMore(cfg, s, actions, k - 1);
      EveryRunKeepsInv(cfg, s, actions[..k - 1]);
      StepKeepsOneAttempt(cfg, Run(cfg, s, actions[..k - 1]), actions[k - 1]);
    }
  }

  /**
   Over a whole run, nothing comes within reach of a second attempt in the same run of
   the validator exactly when no discovery registers what the current run has attempted.
   */
  lemma OneAttemptIffUnattempted(cfg: Config, s: State, actions: seq<Action>)
    requires cfg.maxFailures >= 1 && IsStart(cfg, s)
    ensures (forall k: nat :: k <= |actions| ==> OneAttemptAt(cfg, s, actions, k))
       <==> (forall k: nat :: k < |actions| ==> UnattemptedAt(cfg, s, actions, k))
  {
    if forall k: nat :: k < |actions| ==> UnattemptedAt(cfg, s, actions, k) {
      forall k: nat | k <= |actions| ensures OneAttemptAt(cfg, s, actions, k) {
        UnattemptedKeepsOneAttempt(cfg, s, actions, k);
      }
    }
    if forall k: nat :: k <= |actions| ==> OneAttemptAt(cfg, s, actions, k) {
      forall k: nat | k < |actions| ensures UnattemptedAt(cfg, s, actions, k) {
        assert OneAttemptAt(cfg, s, actions, k) && OneAttemptAt(cfg, s, actions, k + 1);
        RunMore(cfg, s, actions, k);
        EveryRunKeepsInv(cfg, s, actions[..k]);
        StepKeepsOneAttempt(cfg, Run(cfg, s, actions[..k]), actions[k]);
      }
    }
  }

  /** So a page holds nothing that the run has attempted. */
  lemma EachIsAttemptedOnce(cfg: Config, s: State, actions: seq<Action>, valid: seq<Fetched>, invalid: seq<Fetched>)
    requires cfg.maxFailures >= 1 && IsStart(cfg, s)
    requires forall k: nat :: k < |actions| ==> UnattemptedAt(cfg, s, actions, k)
    requires Enabled(cfg, Run(cfg, s, actions), FetchPage(valid, invalid))
    ensures Keys(valid) + Keys(invalid) !! Run(cfg, s, actions).attempted
  {
    UnattemptedKeepsOneAttempt(cfg, s, actions, |actions|);
    assert actions[..|actions|] == actions;
    EveryRunKeepsInv(cfg, s, actions);
    NoRefetchIffOneAttempt(cfg, Run(cfg, s, actions));
  }

  // ----- Counters -----

  /** The discovery registers no candidate that has failed. */
  ghost predicate RegistersUnfailed(cfg: Config, s: State, a: Action) {
    a.Register? && Enabled(cfg, s, a) ==>
      forall url :: url in a.urls && url in s.tables.candidates ==> s.tables.candidates[url].failures == 0
  }

  ghost predicate CountersGrow(s: State, t: State) {
    forall url :: url in s.tables.candidates && url in t.tables.candidates ==>
      s.tables.candidates[url].failures <= t.tables.candidates[url].failures
  }

  lemma FailOnOne(cfg: Config, s: State, n: nat, url: Url)
    requires Inv(cfg, s) && Enabled(cfg, s, FailChunk(n)) && url in s.tables.candidates
    ensures var t := Step(cfg, s, FailChunk(n));
            && url in t.tables.candidates
            && s.tables.candidates[url].failures <= t.tables.candidates[url].failures
            && (Unreset(s) ==> t.tables.candidates[url].failures <= s.tables.candidates[url].failures + 1)
  {
    FailEffect(cfg, s, n, url);
    if url in Keys(s.phase.toFail[..n]) {
      var r :| r in s.phase.toFail[..n] && r.key == url;
      assert r in s.phase.toFail;
    }
  }

  /** A step resets no counter exactly when it registers no candidate that has failed. */
  lemma CountersGrowIffUnfailed(cfg: Config, s: State, a: Action)
    requires Inv(cfg, s)
    ensures CountersGrow(s, Step(cfg, s, a)) <==> RegistersUnfailed(cfg, s, a)
  {
    if Enabled(cfg, s, a) {
      match a {
        case Register(id, urls) =>
          forall url | url in s.tables.candidates
            ensures s.tables.candidates[url].failures <= Step(cfg, s, a).tables.candidates[url].failures
               <==> url !in urls || s.tables.candidates[url].failures == 0
          {
            RegisterOnOne(cfg, s, id, urls, url);
          }
        case FailChunk(n) =>
          forall url | url in s.tables.candidates
            ensures var t := Step(cfg, s, a);
                    url in t.tables.candidates && s.tables.candidates[url].failures <= t.tables.candidates[url].failures
          {
            FailOnOne(cfg, s, n, url);
          }
        case _ =>
      }
    }
  }

  /** No counter was reset between the fetch of a page and the write of its failures. */
  ghost predicate Unreset(s: State) {
    s.phase.Running? ==>
      forall r :: r in s.phase.toFail ==>
          r.key in s.tables.candidates && s.tables.candidates[r.key].failures == r.value.failures
  }

  /** Then a counter stays or grows by one, and a candidate is removed as a relay or as exhausted only. */
  lemma StepChangesLittle(cfg: Config, s: State, a: Action, url: Url)
    requires Inv(cfg, s) && Unreset(s) && RegistersUnfailed(cfg, s, a) && url in s.tables.candidates
    ensures var t, failures := Step(cfg, s, a), s.tables.candidates[url].failures;
            if url in t.tables.candidates then failures <= t.tables.candidates[url].failures <= failures + 1
            else url in t.tables.relays || (failures >= cfg.maxFailures && url in t.exhausted)
  {
    if Enabled(cfg, s, a) {
      match a {
        case Register(id, urls) => RegisterOnOne(cfg, s, id, urls, url);
        case DeleteChunk(n) =>
          KeysSplit(s.phase.toDelete, n);
          assert Keys(s.phase.toInsert) == {};
        case FailChunk(n) => FailOnOne(cfg, s, n, url);
        case _ =>
      }
    }
  }

  lemma StepKeepsUnreset(cfg: Config, s: State, a: Action)
    requires Inv(cfg, s) && Unreset(s) && RegistersUnfailed(cfg, s, a)
    ensures Unreset(Step(cfg, s, a))
  {
    if Enabled(cfg, s, a) {
      var t := Step(cfg, s, a);
      match a {
        case Register(id, urls) =>
          if s.phase.Running? {
            forall r | r in s.phase.toFail
              ensures r.key in t.tables.candidates && t.tables.candidates[r.key].failures == r.value.failures
            {
              RegisterOnOne(cfg, s, id, urls, r.key);
            }
          }
        case DeleteChunk(n) =>
          KeysSplit(s.phase.toDelete, n);
          forall r | r in t.phase.toFail
            ensures r.key in t.tables.candidates && t.tables.candidates[r.key].failures == r.value.failures
          {
            assert r.key in Keys(s.phase.toFail);
          }
        case FailChunk(n) =>
          KeysSplit(s.phase.toFail, n);
          forall r | r in t.phase.toFail
            ensures r.key in t.tables.candidates && t.tables.candidates[r.key].failures == r.value.failures
          {
            assert r in s.phase.toFail && r.key in Keys(s.phase.toFail[n..]);
            FailEffect(cfg, s, n, r.key);
          }
        case _ =>
      }
    }
  }

  ghost predicate UnfailedAt(cfg: Config, s: State, actions: seq<Action>, k: nat)
    requires k < |actions|
  {
    RegistersUnfailed(cfg, Run(cfg, s, actions[..k]), actions[k])
  }

  ghost predicate CountersGrowAt(cfg: Config, s: State, actions: seq<Action>, k: nat)
    requires k < |actions|
  {
    CountersGrow(Run(cfg, s, actions[..k]), Run(cfg, s, actions[..k + 1]))
  }

  /** Over a whole run, no counter is ever reset exactly when no discovery registers a candidate that has failed. */
  lemma NeverResetIffUnfailed(cfg: Config, s: State, actions: seq<Action>)
    requires cfg.maxFailures >= 1 && IsStart(cfg, s)
    ensures (forall k: nat :: k < |actions| ==> CountersGrowAt(cfg, s, actions, k))
       <==> (forall k: nat :: k < |actions| ==> UnfailedAt(cfg, s, actions, k))
  {
    forall k: nat | k < |actions| ensures CountersGrowAt(cfg, s, actions, k) <==> UnfailedAt(cfg, s, actions, k) {
      EveryRunKeepsInv(cfg, s, actions[..k]);
      CountersGrowIffUnfailed(cfg, Run(cfg, s, actions[..k]), actions[k]);
      RunMore(cfg, s, actions, k);
    }
  }

  lemma {:induction false} RunsStayUnreset(cfg: Config, s: State, actions: seq<Action>, k: nat)
    requires cfg.maxFailures >= 1 && IsStart(cfg, s) && k <= |actions|
    requires forall j: nat :: j < |actions| ==> UnfailedAt(cfg, s, actions, j)
    ensures Unreset(Run(cfg, s, actions[..k]))
  {
    if k > 0 {
      RunsStayUnreset(cfg, s, actions, k - 1);
      assert UnfailedAt(cfg, s, actions, k - 1);
      RunMore(cfg, s, actions, k - 1);
      EveryRunKeepsInv(cfg, s, actions[..k - 1]);
      StepKeepsUnreset(cfg, Run(cfg, s, actions[..k - 1]), actions[k - 1]);
    }
  }

  /** And then every counter goes up one by one, over the whole run. */
  lemma CountersGoUpByOne(cfg: Config, s: State, actions: seq<Action>, k: nat, url: Url)
    requires cfg.maxFailures >= 1 && IsStart(cfg, s) && k < |actions|
    requires forall j: nat :: j < |actions| ==> UnfailedAt(cfg, s, actions, j)
    requires url in Run(cfg, s, actions[..k]).tables.candidates
    ensures var t, u := Run(cfg, s, actions[..k]), Run(cfg, s, actions[..k + 1]);
            var failures := t.tables.candidates[url].failures;
            if url in u.tables.candidates then failures <= u.tables.candidates[url].failures <= failures + 1
            else url in u.tables.relays || (failures >= cfg.maxFailures && url in u.exhausted)
  {
    RunsStayUnreset(cfg, s, actions, k);
    assert UnfailedAt(cfg, s, actions, k);
    EveryRunKeepsInv(cfg, s, actions[..k]);
    StepChangesLittle(cfg, Run(cfg, s, actions[..k]), actions[k], url);
    RunMore(cfg, s, actions, k);
  }

  // ----- A guard for both -----

  /** Nobody has registered the URLs since the filter query let them through. */
  ghost predicate Guarded(s: State, a: Action) {
    a.Register? && a.id in s.discoveries ==> a.urls !! s.discoveries[a.id].clashes
  }

  /** What nobody else has registered is still no candidate, and not attempted in the current run. */
  ghost predicate StillUnseen(s: State) {
    forall id, url :: id in s.discoveries && url in s.discoveries[id].unseen && url !in s.discoveries[id].clashes ==>
      url !in s.tables.candidates && (s.phase.Running? ==> url !in s.attempted)
  }

  lemma RegisterKeepsUnseen(cfg: Config, s: State, id: nat, urls: set<Url>)
    requires StillUnseen(s) && Enabled(cfg, s, Register(id, urls))
    ensures StillUnseen(Step(cfg, s, Register(id, urls)))
  {
    var t := Step(cfg, s, Register(id, urls));
    forall i, url | i in t.discoveries && url in t.discoveries[i].unseen && url !in t.discoveries[i].clashes
      ensures url !in t.tables.candidates && (t.phase.Running? ==> url !in t.attempted)
    {
      RegisterOnOne(cfg, s, id, urls, url);
    }
  }

  lemma StepKeepsUnseen(cfg: Config, s: State, a: Action)
    requires Inv(cfg, s) && StillUnseen(s)
    ensures StillUnseen(Step(cfg, s, a))
  {
    if Enabled(cfg, s, a) {
      match a {
        case Register(id, urls) => RegisterKeepsUnseen(cfg, s, id, urls);
        case FetchPage(valid, invalid) =>
          assert forall url :: url in Keys(valid) + Keys(invalid) ==> url in Eligible(s.tables, cfg.networks, s.before);
        case FailChunk(n) =>
          forall url ensures url in Step(cfg, s, a).tables.candidates <==> url in s.tables.candidates {
            FailEffect(cfg, s, n, url);
          }
        case _ =>
      }
    }
  }

  lemma {:induction false} EveryRunKeepsUnseen(cfg: Config, s: State, actions: seq<Action>)
    requires cfg.maxFailures >= 1 && IsStart(cfg, s)
    ensures StillUnseen(Run(cfg, s, actions))
    decreases |actions|
  {
    if actions != [] {
      var rest := actions[..|actions| - 1];
      EveryRunKeepsUnseen(cfg, s, rest);
      EveryRunKeepsInv(cfg, s, rest);
      StepKeepsUnseen(cfg, Run(cfg, s, rest), actions[|actions| - 1]);
    }
  }

  /** A discovery that nobody has overtaken resets no counter and repeats no attempt. */
  lemma GuardedDiscoveryIsHarmless(cfg: Config, s: State, actions: seq<Action>, a: Action)
    requires cfg.maxFailures >= 1 && IsStart(cfg, s)
    requires Guarded(Run(cfg, s, actions), a)
    ensures RegistersUnfailed(cfg, Run(cfg, s, actions), a) && RegistersUnattempted(cfg, Run(cfg, s, actions), a)
  {
    EveryRunKeepsUnseen(cfg, s, actions);
  }

  // ----- A run that loses both -----

  /** A service that has just started on empty tables. */
  function Fresh(now: int): State {
    State(Tables({}, map[]), Stopped, now, 0, {}, map[], {}, {})
  }

  function OneNetwork(): Config { Config({Clearnet}, 0, true, 3) }

  lemma RunThen(cfg: Config, s: State, actions: seq<Action>, a: Action)
    ensures Run(cfg, s, actions + [a]) == Step(cfg, Run(cfg, s, actions), a)
  {
    assert (actions + [a])[..|actions|] == actions;
  }

  /** The first discovery has let the URL through and not registered it yet. */
  ghost predicate IsOvertaken(s: State, url: Url) {
    && 0 in s.discoveries && url in s.discoveries[0].unseen
    && s.discoveries[0].unseen[url] == Clearnet && url in s.discoveries[0].clashes
  }

  /** Two discoveries find the URL, and the second registers it. */
  lemma FoundTwice(url: Url, now: int) returns (actions: seq<Action>, t: State)
    ensures Run(OneNetwork(), Fresh(now), actions) == t
    ensures t.phase == Stopped && t.now == now && IsOvertaken(t, url)
    ensures t.tables == Tables({}, map[url := Candidate(Clearnet, 0, now)])
  {
    var cfg, s := OneNetwork(), Fresh(now);
    var found := map[url := Clearnet];
    assert Unseen(s.tables, found) == found;
    var s1 := Step(cfg, s, Filter(0, found));
    var s2 := Step(cfg, s1, Filter(1, found));
    t := Step(cfg, s2, Register(1, {url}));
    assert t.tables == Tables({}, map[url := Candidate(Clearnet, 0, now)]);
    RunThen(cfg, s, [], Filter(0, found));
    RunThen(cfg, s, [] + [Filter(0, found)], Filter(1, found));
    actions := [] + [Filter(0, found)] + [Filter(1, found)] + [Register(1, {url})];
    RunThen(cfg, s, [] + [Filter(0, found)] + [Filter(1, found)], Register(1, {url}));
  }

  /** The validator cleans up and a run begins. */
  lemma RunBegun(url: Url, now: int) returns (actions: seq<Action>, t: State)
    ensures Run(OneNetwork(), Fresh(now), actions) == t
    ensures t.phase == Running([], [], []) && t.before == t.now == now && t.attempted == {} && IsOvertaken(t, url)
    ensures t.tables == Tables({}, map[url := Candidate(Clearnet, 0, now)])
  {
    var cfg, s := OneNetwork(), Fresh(now);
    var before, s0 := FoundTwice(url, now);
    var s1 := Step(cfg, s0, CleanPromoted);
    assert s1.tables == s0.tables;
    var s2 := Step(cfg, s1, CleanExhausted);
    assert s2.tables == s0.tables;
    t := Step(cfg, s2, BeginRun);
    RunThen(cfg, s, before, CleanPromoted);
    RunThen(cfg, s, before + [CleanPromoted], CleanExhausted);
    RunThen(cfg, s, before + [CleanPromoted] + [CleanExhausted], BeginRun);
    actions := before + [CleanPromoted] + [CleanExhausted] + [BeginRun];
  }

  /** The probe fails, and its failure is written. */
  lemma FailedOnce(url: Url, now: int) returns (actions: seq<Action>, t: State)
    ensures Run(OneNetwork(), Fresh(now), actions) == t
    ensures t.phase == Running([], [], []) && t.before == t.now == now && t.attempted == {url} && IsOvertaken(t, url)
    ensures t.tables == Tables({}, map[url := Candidate(Clearnet, 1, now)])
  {
    var cfg, s := OneNetwork(), Fresh(now);
    var before, s0 := RunBegun(url, now);
    var page := [Fetched(url, Candidate(Clearnet, 0, now))];
    assert Keys(page) == {url} && Keys([]) == {};
    assert Enabled(cfg, s0, FetchPage([], page));
    var s1 := Step(cfg, s0, FetchPage([], page));
    assert page[..1] == page && page[1..] == [];
    t := Step(cfg, s1, FailChunk(1));
    assert FailuresWritten(s0.tables.candidates, page, now) == map[url := Candidate(Clearnet, 1, now)];
    RunThen(cfg, s, before, FetchPage([], page));
    RunThen(cfg, s, before + [FetchPage([], page)], FailChunk(1));
    actions := before + [FetchPage([], page)] + [FailChunk(1)];
  }

  /**
   The first discovery now registers what it let through before all that: the counter
   goes back to zero, and the same run may attempt the candidate again.
   */
  lemma OvertakenDiscovery(url: Url, now: int) returns (actions: seq<Action>, a: Action)
    ensures IsStart(OneNetwork(), Fresh(now))
    ensures var cfg, t := OneNetwork(), Run(OneNetwork(), Fresh(now), actions);
            var u := Step(cfg, t, a);
            && Enabled(cfg, t, a) && !Guarded(t, a) && !RegistersUnfailed(cfg, t, a) && !RegistersUnattempted(cfg, t, a)
            && url in t.tables.candidates && url in u.tables.candidates
            && t.tables.candidates[url].failures == 1 && u.tables.candidates[url].failures == 0
            && url in u.attempted && Enabled(cfg, u, FetchPage([], [Fetched(url, u.tables.candidates[url])]))
  {
    var t;
    actions, t := FailedOnce(url, now);
    a := Register(0, {url});
    var cfg := OneNetwork();
    var u := Step(cfg, t, a);
    RegisterOnOne(cfg, t, 0, {url}, url);
    var page := [Fetched(url, u.tables.candidates[url])];
    assert Keys(page) == {url} && Keys([]) == {};
    assert u.tables.candidates[url] == Candidate(Clearnet, 0, now);
  }
}
