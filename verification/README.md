# Verification of BigBrotr

BigBrotr collects Nostr events from many relays and validates the relays it finds.
This project models the parts of it whose correctness is subtle, and proves what
they promise.

* **The event stream** (`Nostr`, `Fetching`, `Streaming`, `StreamLoop`): windows over a time
  range on a stack of upper bounds, each fetched, checked for truncation and
  emitted or halved. A relay is an arbitrary function of the requests sent so far,
  so safety, termination and cost (`StreamSafety`, `StreamBounds`) hold against any
  relay. `HonestRelay` adds a fixed store, a hidden cap and the `limit` rule of
  NIP-01 ("From client to relay: sending events and creating subscriptions"); with
  one filter the stream is then complete (`StreamCompleteness`), and with more than
  one it need not be (`SeveralFilters`).
* **Resumable synchronization** (`ConcurrentStream`, `MergeOrder`, `MergeFreedom`,
  `Batches`, `CursorStore`, `Synchronizer`, `SyncEffect`, `NoLoss`, `MergedSync`): workers merged through a
  queue with a sentinel, a buffer flushed before the cursors, crashes between any
  two database calls, restarts from the stored cursors.
* **The candidate lifecycle** (`Candidates`, `Validator`, `Lifecycle`, `Rediscovery`,
  `RunForever`): promotion, failure counting, exhaustion, the page loop, what a
  discovery can undo between its filter query and its upserts, and the cycle loop of
  a service.
* **Discovery** (`FinderScan`, `Finder`, `FinderCoverage`, `LateRows`, `FinderCycle`,
  `FinderProgress`):
  keyset pagination over rows that other services store meanwhile, cursors that never
  move back, and exactly when they do not run ahead of the URLs registered.
* **Canonical forms** (`Json`, `JsonMeaning`, `JsonReader`, `JsonText`, `Metadata`,
  `UrlPath`, `HostNames`, `UrlLaws`, `Idn`, `RelayUrl`, `SanitizedUrl`, `KvPairs`) and
  the bounded read (`BoundedRead`).
* `Arith`, `Decimal`, `Keyset`, `Networks` and `Strings` hold what these share.

Code that works step by step is a method or a class here, proved against a
specification function; the properties are lemmas about that function. A crash is
a cut of the sequence of database states that a cycle passes through, or a step of
a state machine.

What the model assumes of the world, by name: `HonestRelay.Honest`;
`ConcurrentStream.PicksEnabled` (the event loop runs something that can run) and
`Validator.ProbesAnswer` (the same for the probes of a page, whose failures are
verdicts); `Validator.ClockFrom` (a clock that does not go back during a run);
`FinderScan.OneRowPerEvent` (a primary key); `HostNames.IpLaws` (the parser of IP
addresses); `Idn.IdnaLaws` (the conversion of a host label, for labels of ASCII
characters and KELVIN SIGNs only). Time, the idle timeout, deadlines, shutdown requests, the order in which
results arrive and the verdict on a candidate are arbitrary. `MergeOrder` shows that
an order of workers describes every delivery of the merge.

Where the code and its documents differ, the code is followed. The specification
document describes sync cursors with a sentinel id that are saved every 50 relays
and windows that start one second after the cursor (`PROJECT_SPECIFICATION.md`,
lines 543 and 559); the code resumes at the timestamp of the cursor, saves the last
event of each relay, and saves at every flush. Sanitized URLs are canonical after one
pass only under the condition of `RelayUrl.FixpointIffPlainHost`: percent-decoding
comes after the normalization that lower-cases the host, so an upper-case letter stays;
a decoded bracket is ignored by the network detection but printed; and a decoded KELVIN
SIGN, the one character outside ASCII whose lower-case form is ASCII, is read as k by
the network detection but printed as it is.

Three promises of the code hold under a condition only, which the model states
exactly. Registering candidates is documented never to reset a counter
(`services/common/queries.py`, lines 101 to 104), but the filter query and the upserts
are separate calls: `Rediscovery.NeverResetIffUnfailed`. The scan for URLs resumes
above the last (seconds, id) it has seen, while rows of the same second may still be
stored: `FinderCoverage.CoveredIffOnTime`. The number of inserted candidates is
documented to be that of the records inserted, and counts a URL once for every chunk
that has it: `FinderCycle.CountIffOncePerChunk`.

`dafny verify dfyconfig.toml` checks the project.

## Model

| member | source | states |
|---|---|---|
| `Nostr.ToDomainEvents` | src/bigbrotr/utils/streaming.py:41-62 | Sorting by (created_at, id) and dropping oversized or unrepresentable events gives exactly the conversion of the sorted events. |
| `Nostr.ConvertElems` | src/bigbrotr/utils/streaming.py:52-62 | Every convertible raw event is yielded, and everything yielded comes from one. |
| `Nostr.ConvertedExactly` | src/bigbrotr/models/event.py:125-155 | The yielded events are those of the raw events within `max_event_size` whose content and tag values have no null character and tag values of at most 2048 characters, with id, time, kind, tags and content kept. |
| `Nostr.ConvertAscends` | src/bigbrotr/utils/streaming.py:52-62 | The converted events are strictly ascending whenever the raw ones are. |
| `Keyset.SortAscends` | src/bigbrotr/utils/streaming.py:52-53 | Sorting events without repeated keys gives a strictly ascending sequence. |
| `Keyset.AscendingIsUnique` | src/bigbrotr/utils/streaming.py:52-53 | The sorted form of a set of events is unique, so the order of arrival does not matter. |
| `Fetching.Client.StreamEvents` | src/bigbrotr/utils/streaming.py:106 | One request to the relay: any answer at all, which may depend on every request before it. |
| `Fetching.FetchValidated` | src/bigbrotr/utils/streaming.py:79-127 | The nested loops with the seen set and the shared budget send the requests of the specified fetch and keep the same events; what these are is `Fetching.FetchAsksInOrder`. |
| `Fetching.FetchAsksInOrder` | src/bigbrotr/utils/streaming.py:104-125 | Against any relay, a fetch below the limit has asked every filter once, in order, and every signed event of each answer that its filter matches inside the window has its id in the result; at the limit the filters asked are a prefix, the answers before the last are held whole and the last one up to the event that fills the limit; nothing in the result comes from elsewhere. |
| `Fetching.EmptyIffNothingWanted` | src/bigbrotr/utils/streaming.py:104-127 | A fetch is empty if and only if no filter is answered with a signed, matching event of the window, and then every filter was asked. |
| `Fetching.FetchIsSound` | src/bigbrotr/utils/streaming.py:84-94 | Against any relay a fetch returns at most `limit` events with distinct ids, each delivered, signed, matched by a filter and inside the window. |
| `Fetching.TryVerifyCompleteness` | src/bigbrotr/utils/streaming.py:130-171 | The boundary fetch, the checks on its newest and oldest second, the probe and the merge compute the specified verdict, with the same requests. |
| `Fetching.VerifiedIffNothingOlder` | src/bigbrotr/utils/streaming.py:142-171 | Against any relay the check succeeds if and only if the boundary fetch holds events of the oldest second and of no other, and no filter is answered with a wanted event before that second; it then yields those events and the fetched ones after it. |
| `Fetching.VerifyIsSound` | src/bigbrotr/utils/streaming.py:161-171 | Against any relay a verified window holds only genuine events of the window, without repetition, and costs at most two fetches. |
| `StreamLoop.FetchWindow` | src/bigbrotr/utils/streaming.py:237-268 | One pass of the loop decides to emit a window or to halve it, as the policy does. |
| `StreamLoop.StreamEvents` | src/bigbrotr/utils/streaming.py:174-268 | The loop over the stack of bounds yields exactly the conversion of what the round-by-round machine emits, with the same requests, for any relay, filters and idle timeouts; if the timeout never expires, no window is left. |
| `Streaming.AbandonedIffExpired` | src/bigbrotr/utils/streaming.py:232-235 | A stream is abandoned if and only if the timeout has expired at the head of a round that the run without a timeout reaches with windows left; it ends in the state of that run at the first such round, and otherwise like that run. |
| `Streaming.EmittedIffChecked` | src/bigbrotr/utils/streaming.py:239-268 | Against any relay a window of several seconds with events in it is emitted if and only if its check finds nothing older, with the events of the boundary fetch and the fetched ones after them; any other window is emitted as fetched. |
| `Streaming.StackStaysOrdered` | src/bigbrotr/utils/streaming.py:228-268 | In every round the bounds on the stack are strictly increasing, `current_since` is at most the first and the last one is the end of the range. |
| `Streaming.Terminates` | src/bigbrotr/utils/streaming.py:232-268 | Against any relay the loop ends within 2n-1 rounds on a range of n seconds. |
| `StreamBounds.CostAgainstAnyRelay` | src/bigbrotr/utils/streaming.py:239-268 | At most three fetches a round: no more than 3 * filters * (2n-1) requests, whatever the relay answers. |
| `StreamBounds.StackDepthIsLogarithmic` | src/bigbrotr/utils/streaming.py:266-268 | A stack of depth d >= 2 has 2^(d-2) <= n-1, in every round of every run. |
| `StreamSafety.OutputIsSafe` | src/bigbrotr/utils/streaming.py:185-195 | Against any relay and any filters the output is strictly ascending in (created_at, id) across all windows, and each event comes from a signed, matching, delivered event in the range. |
| `StreamSafety.NoIdIsRepeated` | src/bigbrotr/utils/streaming.py:89-91 | If an id names one signed event, no id is yielded twice, even across windows. |
| `HonestRelay.FetchIsHonest` | src/bigbrotr/utils/streaming.py:104-127 | With one filter, validation passes on the whole of an honest answer. |
| `HonestRelay.VerifyDetectsTruncation` | src/bigbrotr/utils/streaming.py:144-165 | Against an honest relay verification fails if and only if the window holds an event older than the oldest fetched second. |
| `HonestRelay.VerifiedIsExact` | src/bigbrotr/utils/streaming.py:167-171 | What verification returns holds, of every second, exactly min(c, stored) events, where c is the smaller of the limit and the hidden cap of the relay. |
| `HonestRelay.ExactJoin` | src/bigbrotr/utils/streaming.py:260-268 | Exactness of adjacent windows adds up. |
| `HonestRelay.ExactIsWhole` | src/bigbrotr/utils/streaming.py:246-253 | An exact second that is not overfull is complete. |
| `StreamCompleteness.StreamIsExact` | src/bigbrotr/utils/streaming.py:187-190 | Exact completeness for one filter: of every second below `current_since` exactly min(c, stored) events were emitted, and these are all seconds of the range if and only if the timeout does not expire before the last window; in particular if it never expires. |
| `StreamCompleteness.StreamIsComplete` | src/bigbrotr/utils/streaming.py:187-190 | If no second is overfull and the timeout does not expire, or only after the last window, the stream is the whole sorted answer. |
| `StreamCompleteness.OutputIsFaithful` | src/bigbrotr/utils/streaming.py:197-200 | Any prefix of an output, so also that of an abandoned stream, misses no due event older than its last one. |
| `StreamCompleteness.HalvingsAreBounded` | src/bigbrotr/utils/streaming.py:266-268 | With N stored events in n seconds at most floor(N / (c+1)) * Levels(n-1) windows are halved. |
| `StreamCompleteness.LevelsIsLog` | src/bigbrotr/utils/streaming.py:266-268 | Levels(n-1) is 1 + floor(log2(n-1)). |
| `SeveralFilters.SeveralFiltersLose` | src/bigbrotr/utils/streaming.py:104-125 | For any number of filters from two on there is an honest relay, with no overfull second, of whose events one is lost. |
| `SeveralFilters.CompleteIffOneFilter` | src/bigbrotr/utils/streaming.py:104-125 | Completeness against every honest relay holds if and only if there is one filter. |
| `ConcurrentStream.IterConcurrent` | src/bigbrotr/services/common/mixins.py:126-184 | The whole merge, with whatever enabled step the event loop picks next: it ends; the consumer gets of every worker a prefix of its output in order, and all of it unless the worker failed; the permit limits held after every step; what it did is a run of the steps. |
| `ConcurrentStream.StepsRunOut` | src/bigbrotr/services/common/mixins.py:152-179 | Every step that can be made brings the exit nearer, so no merge goes on for ever. |
| `ConcurrentStream.EverySchedule` | src/bigbrotr/services/common/mixins.py:152-184 | On every schedule: per worker, delivered, queued and still to produce are its output in order; nothing follows the sentinel and no worker is left when it is queued; the holders of a network never exceed its limit. |
| `ConcurrentStream.DeliversPrefixes` | src/bigbrotr/services/common/mixins.py:146-148 | Of every worker a prefix of its output is delivered, in order. |
| `ConcurrentStream.NormalExitDeliversAll` | src/bigbrotr/services/common/mixins.py:152-184 | When the loop exits normally every worker has ended, and all that an unfailing worker produces was delivered. |
| `ConcurrentStream.NoDeadlock` | src/bigbrotr/services/common/mixins.py:165-179 | Until the exit some step is possible, if every network has a permit. |
| `MergeFreedom.PermitsCanAllBeHeld` | src/bigbrotr/services/common/mixins.py:143-148 | Any set of workers with no more on a network than it has permits can hold a permit at the same time. |
| `MergeFreedom.EveryOrderIsPossible` | src/bigbrotr/services/common/mixins.py:146-184 | With permits for all workers every interleaving of their outputs, or of prefixes of them, is delivered on some schedule: nobody waits for the consumer. |
| `MergeOrder.DeliveredIsDealt` | src/bigbrotr/services/common/mixins.py:146-184 | At any time the consumer has taken the next results of the workers in some order, so an order of workers describes every delivery. |
| `MergeOrder.EveryItemArrives` | src/bigbrotr/services/common/mixins.py:146-184 | Workers with one result each, none failing: at the exit the results are exactly the items, each as often as it was given. |
| `Batches.ChunkTraceIsPrefixes` | src/bigbrotr/services/common/queries.py:32-45 | After k chunks exactly the records of the first k chunks are written. |
| `Batches.ChunkTraceEnds` | src/bigbrotr/services/common/queries.py:32-45 | The last chunk ends with all of the records written. |
| `CursorStore.PutElems` | src/bigbrotr/services/synchronizer/service.py:180-184 | The dictionary of pending cursors keeps one cursor a relay, the latest. |
| `CursorStore.UpsertEffect` | src/bigbrotr/services/common/queries.py:48-68 | An upsert writes the given positions and no other key. |
| `Synchronizer.Brotr.InsertEventRelays` | src/bigbrotr/services/synchronizer/queries.py:104-121 | Inserts the records not yet stored, chunk by chunk; the history records the state after every chunk, and the total is the number of new records. |
| `Synchronizer.Brotr.UpsertSyncCursors` | src/bigbrotr/services/synchronizer/queries.py:124-147 | Upserts all cursors chunk by chunk, with the state after each. |
| `Synchronizer.Brotr.DeleteStaleCursors` | src/bigbrotr/services/synchronizer/queries.py:75-101 | The loop over the cursors removes exactly those without a relay and keeps the others as they are, as one write, and the result is the number of removed ones. |
| `Synchronizer.FlushBatch` | src/bigbrotr/services/synchronizer/service.py:187-190 | A flush writes the events first and the cursors after them. |
| `Synchronizer.Synchronize` | src/bigbrotr/services/synchronizer/service.py:144-204 | The whole cycle, with the buffer, the pending cursors, the deadline and the final flush: every database state on the way is that of the specified cycle, and the result counts the new records; what the cycle stores is `SyncEffect.CycleStores`. |
| `SyncEffect.CycleStores` | src/bigbrotr/services/synchronizer/service.py:178-198 | A cycle takes the rows up to the first full batch after which the deadline has passed, or else all of them. At its end exactly these rows have been added to the stored ones, the cursor of each of their relays is at its last row, and no other cursor has changed; for every full batch some state on the way has just the rows up to there and their cursors. |
| `NoLoss.CycleIsSafe` | src/bigbrotr/services/synchronizer/service.py:178-198 | In every database state of a cycle, so after a crash between any two calls, each due event older than the stored cursor of its relay is stored, and cursor timestamps only grow. |
| `NoLoss.RunCycle` | src/bigbrotr/services/synchronizer/service.py:138-204 | The cleanup and then the synchronization: the writes to the database are the states of one cycle of the run theorems, in their order; the rows up to the first stop are stored and the cursors of their relays are at their last rows; the results count the removed cursors and the new records. |
| `NoLoss.EveryRunIsCovered` | src/bigbrotr/services/synchronizer/service.py:144-204 | No loss over whole runs: after any sequence of cycles, cleanups, crashes and restarts, every convertible event of a second within the cap and strictly older than the stored cursor of its relay is in the database. |
| `NoLoss.EveryRunMovesForward` | src/bigbrotr/services/synchronizer/service.py:180-198 | Over any part of a run nothing stored disappears and no cursor timestamp decreases. |
| `MergedSync.MergeIsLegal` | src/bigbrotr/services/synchronizer/service.py:178-184 | Whatever any schedule of the merged workers delivers, wherever the consumer stops, is an arrival sequence the run theorems allow. |
| `Candidates.FailuresEffect` | src/bigbrotr/services/validator/queries.py:227-241 | Writing failures adds one to the counters of the given candidates, stamps them with the current time and touches no other. |
| `Validator.Brotr.CountCandidates` | src/bigbrotr/services/validator/queries.py:97-121 | The loop over the candidates counts exactly the eligible ones. |
| `Validator.Brotr.FetchCandidates` | src/bigbrotr/services/validator/queries.py:124-178 | Returns rows of the table that are eligible, as many as the limit allows, fewest failures first and then oldest attempt, none of which a row left out precedes. |
| `Validator.PageIsFairest` | src/bigbrotr/services/validator/queries.py:87-94 | Such a page holds rows of the given networks with no failure or an attempt before the time, ordered by failures and then by attempt; a row of that kind is left out only if the page is full, and then has no fewer failures and no older attempt than any row of the page. |
| `Validator.Brotr.PromoteCandidates` | src/bigbrotr/services/validator/queries.py:181-207 | Every chunk of relays is inserted before the first chunk of candidates is deleted, with the state after each in the history; together exactly the given ones, and the result is the number of new relays. |
| `Validator.PromotionLosesNothing` | src/bigbrotr/services/validator/queries.py:181-207 | A promotion cut short between any two chunks leaves every candidate a candidate or a relay. |
| `Validator.Brotr.FailCandidates` | src/bigbrotr/services/validator/queries.py:210-241 | The chunks together write one more failure for each given candidate, with the state after each chunk in the history; the result is the number of rows, that of the candidates if none is given twice. |
| `Validator.Brotr.Cleanup` | src/bigbrotr/services/validator/service.py:120-127 | Removes exactly the candidates that are relays and, if enabled, those with at least `max_failures` failures, and counts them; all others stay as they are. |
| `Validator.PageShrinks` | src/bigbrotr/services/validator/queries.py:87-94 | A processed page leaves the eligible set: promoted candidates are gone, failed ones have a failure and a recent timestamp. |
| `Validator.EligibleIsFresh` | src/bigbrotr/services/validator/service.py:160-178 | What is eligible during a run was not attempted in it. |
| `Validator.ProbePage` | src/bigbrotr/services/validator/service.py:173-176 | The probes of a page run through the merge, in any order; every candidate of the page yields one result. |
| `Validator.ValidatePage` | src/bigbrotr/services/validator/service.py:173-188 | One page: every result is classified once, the valid candidates are promoted and the others get one more failure; the eligible set shrinks. |
| `Validator.Validate` | src/bigbrotr/services/validator/service.py:129-197 | The page loop ends; each candidate is attempted at most once, with the verdict of its page, and is then promoted or has exactly one more failure, all others are untouched; the total is the number of attempts and within `max_candidates`; all pages but the last have `chunk_size` candidates; no candidate is due unless the budget or a shutdown stopped it. |
| `Lifecycle.CandidatesAreConserved` | src/bigbrotr/services/common/queries.py:118-136 | Over any interleaving of filter queries, registrations, relays inserted directly, cleanups, pages written chunk by chunk and crashes, with the cleanup of exhausted candidates on or off, a discovered URL is a relay, a candidate, or was removed with too many failures. |
| `Lifecycle.FailuresAreBounded` | src/bigbrotr/services/validator/service.py:120-127 | With the cleanup of exhausted candidates enabled, no failure counter ever exceeds `max_failures`. |
| `Rediscovery.OneAttemptIffUnattempted` | src/bigbrotr/services/common/queries.py:118-136 | Over a whole run nothing comes within reach of a second attempt in the same run of the validator if and only if no discovery registers, on a network that is validated, what this run has attempted and written. |
| `Rediscovery.NoRefetchIffOneAttempt` | src/bigbrotr/services/validator/service.py:160-178 | Between two pages: no page that can be fetched repeats an attempt if and only if nothing attempted and written is within reach. |
| `Rediscovery.EachIsAttemptedOnce` | src/bigbrotr/services/validator/service.py:145-178 | Under that condition no run fetches a candidate it has attempted. |
| `Rediscovery.NeverResetIffUnfailed` | src/bigbrotr/services/common/queries.py:118-136 | Over a whole run no counter of failures ever goes down if and only if no discovery registers a candidate that has failed. |
| `Rediscovery.StepChangesLittle` | src/bigbrotr/services/validator/queries.py:39-46 | Under that condition a step leaves a counter or adds one to it, and removes a candidate only if it is a relay or exhausted. |
| `Rediscovery.CountersGoUpByOne` | src/bigbrotr/services/validator/queries.py:227-241 | And so does every step of a whole run. |
| `Rediscovery.GuardedDiscoveryIsHarmless` | src/bigbrotr/services/common/queries.py:118-136 | If nobody has registered the URLs since the filter query let them through, registering them resets no counter and repeats no attempt. |
| `Rediscovery.OvertakenDiscovery` | src/bigbrotr/services/common/queries.py:118-136 | A run in which it does: two discoveries let a URL through, one registers it, its probe fails, and the other registers it; the counter is zero again and the same run may fetch the candidate again. |
| `Lifecycle.RelaysAreKept` | src/bigbrotr/services/validator/queries.py:196-206 | No relay is ever removed, and what was discovered or exhausted stays recorded. |
| `Lifecycle.CleanupSeparates` | src/bigbrotr/services/validator/queries.py:39-46 | After the first call of a cleanup no candidate is a relay, and only relays were removed from the candidates. |
| `RunForever.TrailingFailuresCount` | src/bigbrotr/core/base_service.py:273-280 | The counter is at least k if and only if the last k cycles all failed. |
| `RunForever.OneCycle` | src/bigbrotr/core/base_service.py:258-264 | The run is called directly after the cleanup, and only if that succeeded; the outcome is that of the last call. |
| `RunForever.RunForever` | src/bigbrotr/core/base_service.py:253-308 | The loop stops for failures exactly when the last `max_consecutive_failures` cycles all failed, at the first such cycle and never for a limit of zero; other exceptions propagate, a shutdown stops it between cycles, and every run comes directly after a successful cleanup of its own cycle. |
| `FinderScan.QueryRows` | src/bigbrotr/services/finder/queries.py:92-108 | The simple query returns exactly the rows of the relay above the position, strictly ascending. |
| `FinderScan.QueryResumes` | src/bigbrotr/services/finder/queries.py:98-101 | Resuming after any row of a result continues that result. |
| `FinderScan.StreamEventRelays` | src/bigbrotr/services/finder/utils.py:86-120 | For any page size the page loop ends and yields exactly the rows of the simple query, in order and once each. |
| `FinderScan.AfterColonSplits` | src/bigbrotr/services/finder/utils.py:148 | `partition(":")` gives what follows the first colon, and nothing without one. |
| `FinderScan.UrlFollowsColon` | src/bigbrotr/services/finder/utils.py:145-151 | The URL of a tag value is what follows its first colon, if that parses to one; a value that is no string has none. |
| `FinderScan.ExtractRelays` | src/bigbrotr/services/finder/utils.py:123-154 | The list holds every URL some string tag value yields after its first colon, and each once. |
| `FinderCycle.CountIffOncePerChunk` | src/bigbrotr/services/common/queries.py:32-45 | What the upserts count, chunk by chunk, is at least the number of distinct URLs, and equals it if and only if no URL occurs in two chunks. |
| `FinderCycle.Brotr.InsertRelaysAsCandidates` | src/bigbrotr/services/common/queries.py:98-136 | A list of URLs, repeats included, is filtered and upserted chunk by chunk, each call a step of its own: exactly the URLs that are neither relays nor candidates are added, with no failures, and known ones keep their state; the result is at least the number of new candidates, and equals it if and only if no new URL occurs in two chunks. |
| `FinderCycle.Brotr.UpsertFinderCursors` | src/bigbrotr/services/finder/queries.py:175-198 | Cursors at the default timestamp are left out; the chunks together save all others, each chunk a step of its own. |
| `FinderCycle.Flush` | src/bigbrotr/services/finder/service.py:274-280 | A flush registers the buffered URLs and then saves the cursors that are not at the default timestamp. |
| `FinderCycle.FindFromEvents` | src/bigbrotr/services/finder/service.py:235-290 | The cycle, for any order in which workers read pages, the consumer takes rows and other services store rows, promote candidates, remove or add some, so also for those orders that the semaphore and the time limits leave: what it does to the database is a run of the steps of the finder; at its end every row that was taken is consumed, buffer and pending cursors are empty, and the result is at least the number of URLs it registered, which is that of the new candidates if others leave these alone, and exactly the sum over the upserted chunks of their different URLs. |
| `FinderProgress.ScanIsCounted` | src/bigbrotr/services/finder/service.py:269-287 | Without rows stored meanwhile, the position and the rows read ahead of each relay are the slices of its query that counting pages and turns gives: a page reads up to the page size more, a turn takes one row if one is there. |
| `FinderProgress.CycleTakesAll` | src/bigbrotr/services/finder/service.py:269-287 | With pages and turns enough, a cycle has taken every row of a relay above its saved cursor. |
| `FinderCoverage.CoveredIffOnTime` | src/bigbrotr/services/finder/service.py:270-287 | Over a whole run, with crashes, restarts, other services at work and rows arriving at any time, every URL named by a row at or below a saved cursor, or at or below a position that the consumer will reach with what was read ahead, is known or about to be registered, throughout the run if and only if every row arrives on time. |
| `FinderCoverage.CoveredIffArrivesOnTime` | src/bigbrotr/services/finder/service.py:270-287 | The same for one step: a row is on time if it is above the saved cursor and above what the worker of its relay has read, or names only URLs that are known there. |
| `FinderCoverage.CursorsIffOnTime` | src/bigbrotr/services/finder/queries.py:92-108 | For the saved cursors alone: an arriving row leaves them covered if and only if it is above the saved cursor of its relay or names only URLs that have been relays or candidates. |
| `FinderCoverage.AboveIsOnTime` | src/bigbrotr/services/finder/queries.py:92-108 | A row above the saved cursor and above what its worker has read is on time, whatever it names. |
| `FinderCoverage.CursorsNeverRunAhead` | src/bigbrotr/services/finder/service.py:270-287 | If every row of a run arrives on time, every URL named by a row at or below a saved cursor has been a relay or a candidate. |
| `LateRows.LateRow` | src/bigbrotr/services/finder/queries.py:98-99 | A late row: from an empty database row (100, 7) is stored, scanned and its cursor saved, every row on time so far; then row (100, 3) arrives, which names an unknown URL; it lies below the cursor, and no scan from there returns it. |
| `Finder.StepAdvances` | src/bigbrotr/services/finder/queries.py:175-198 | A step advances a saved (timestamp, id) strictly or leaves it; only the cleanup removes one, and only without its relay. |
| `Finder.CursorsNeverMoveBack` | src/bigbrotr/services/finder/service.py:270-287 | Over any run, whatever rows arrive, the saved position of a relay never moves back. |
| `Finder.EndLosesNothing` | src/bigbrotr/services/finder/service.py:282-287 | When a scan ends, whatever rows have arrived, the consumed position of every relay is saved unless it is still at the default timestamp. |
| `Metadata.SanitizeData` | src/bigbrotr/models/_validation.py:55-119 | The recursion with its loops over sorted keys and list items computes the specified result, errors included. |
| `Json.SortedAscends` | src/bigbrotr/models/_validation.py:97-98 | The string keys, and only they, are visited in strictly ascending order. |
| `Json.BeforeIsLexicographic` | src/bigbrotr/models/_validation.py:97 | The order of the keys is by the first character in which they differ, or by length if one is the start of the other. |
| `Json.SanitizedIsNormal` | src/bigbrotr/models/_validation.py:63-78 | A sanitized value has ascending string keys, no null bytes, nothing unserializable, and no null or empty container below the root. |
| `Json.SanitizeIsIdempotent` | src/bigbrotr/models/_validation.py:55-119 | Sanitizing twice is sanitizing once, and the result is at most `max_depth` levels deep. |
| `JsonMeaning.FailsExactly` | src/bigbrotr/models/_validation.py:91-117 | Sanitizing fails exactly on a null byte or a tuple within reach. |
| `JsonMeaning.ErrorsAreJustified` | src/bigbrotr/models/_validation.py:91-117 | A TypeError is due to a tuple within reach, a ValueError to a null byte. |
| `JsonMeaning.SanitizeKeepsMeaning` | src/bigbrotr/models/_validation.py:63-66 | Sanitizing changes nothing but order, nulls, empty containers and what is too deep or unserializable. |
| `JsonMeaning.SameDocument` | src/bigbrotr/models/_validation.py:63-66 | Two values are sanitized to the same document if and only if they mean the same. |
| `JsonMeaning.OrderAndNullsDoNotMatter` | src/bigbrotr/models/_validation.py:63-66 | Key order, null members and keys that are not strings do not matter. |
| `JsonText.ValueIsReadBack` | src/bigbrotr/models/metadata.py:172-177 | A reader of JSON with the escapes, words, numbers, arrays and objects of RFC 8259, sections 3 to 7, reads the text of every printable value back to that value, and stops where it ends. |
| `JsonText.CharsAreReadBack` | src/bigbrotr/models/metadata.py:172-177 | In particular an escaped string is read back to its characters, with what follows its closing quote left. |
| `JsonText.EscapesAreShort` | src/bigbrotr/models/metadata.py:172-177 | Only quotes, backslashes and control characters are escaped, by two characters where there is a short form and else by six, with lower-case hexadecimal digits. |
| `JsonText.CharsAreReadable` | src/bigbrotr/models/metadata.py:172-177 | So two escaped strings that are equal, with what follows, are of the same characters and end at the same place. |
| `JsonText.TextIsInjective` | src/bigbrotr/models/metadata.py:172-177 | Different values have different compact texts. |
| `Metadata.CanonicalTextIsReadBack` | src/bigbrotr/models/metadata.py:166-181 | A document has a canonical text exactly if it is a mapping without a null byte or a tuple within 50 levels; read as JSON, the text is a document in normal form that means the same. |
| `Metadata.SameTextSameMeaning` | src/bigbrotr/models/metadata.py:166-181 | Two documents have the same canonical JSON, the text that is hashed, if and only if they mean the same. |
| `Metadata.FrozenDataIsAccepted` | src/bigbrotr/models/_validation.py:129-135 | The frozen data of a document is accepted as data again exactly when it holds no list, and then has the same canonical JSON; a list was frozen to a tuple, which is rejected. |
| `UrlPath.ReplaceKeepsCollapse` | src/bigbrotr/models/relay.py:472-473 | One `replace` keeps the collapsed form and shortens a path that has a slash run. |
| `UrlPath.SanitizePath` | src/bigbrotr/models/relay.py:461-486 | The replace loop ends and the result is the path with slash runs collapsed and trailing slashes removed, or nothing if a segment is not allowed. |
| `UrlPath.NoDotsAreRemoved` | src/bigbrotr/models/relay.py:464-465 | The removal of dot segments leaves a path without them alone. |
| `UrlPath.SanitizedPathIsFixed` | src/bigbrotr/models/relay.py:461-486 | An accepted path has no dot segment, slash run or trailing slash, is valid and in normal form, and is sanitized to itself. |
| `UrlLaws.SanitizedPathIsItsSegments` | src/bigbrotr/models/relay.py:461-486 | A sanitized path consists of the segments of the raw one that are not empty, in order, each after a slash; it is empty if a decoded segment has a character other than letters, digits, and - . _ ~ : inside. |
| `UrlLaws.DotSegments` | src/bigbrotr/models/relay.py:464-465 | A segment and the two dots after it disappear together, and one dot disappears alone, wherever they are. |
| `UrlLaws.DecodingIsInverse` | src/bigbrotr/models/relay.py:478 | Percent-decoding inverts the percent-encoding of UTF-8 for every string of Unicode. |
| `UrlPath.DecodedIsValid` | src/bigbrotr/models/relay.py:479-484 | A path whose decoded form, as UTF-8, has allowed characters only is a valid path: every percent sign in it starts an encoding. |
| `Idn.PreprocessIdn` | src/bigbrotr/models/relay.py:407-443 | The loop converts exactly the labels of the host that are not ASCII, and fails if one of them cannot be converted; an ASCII URL and one without a host outside ASCII are left alone. |
| `Idn.LabelsAreConverted` | src/bigbrotr/models/relay.py:432-441 | Each label is kept if it is ASCII and is what the codec gives if not; they all fail exactly if the codec fails on one. |
| `Idn.HostIsConverted` | src/bigbrotr/models/relay.py:422-443 | Only the host between "://" and the next slash, colon, question mark or hash is converted. |
| `RelayUrl.StripTakesSpaces` | src/bigbrotr/models/relay.py:517 | Stripping takes white space off both ends of a raw URL and nothing else. |
| `Idn.NearName` | src/bigbrotr/models/relay.py:407-443 | A host of ASCII characters and KELVIN SIGNs becomes ASCII and keeps its lower-case form; that fails only if a label is too long. |
| `HostNames.AcceptedHasShortLabels` | src/bigbrotr/models/relay.py:149-206 | Every label of an accepted name has between one and 63 characters. |
| `UrlLaws.ValidIffDnsName` | src/bigbrotr/models/relay.py:148-171 | A host name is valid exactly if it is two labels or more joined by dots, at most 253 characters long, of 1 to 63 characters a-z, 0-9, _ and inner hyphens, the last with something else than digits in it. |
| `UrlLaws.NetworkIsItsForm` | src/bigbrotr/models/relay.py:107-206 | A host is classified as Tor, I2P or Lokinet exactly by the hashes of 56 or 16, 52 and 52 base-32 characters and the names the networks allow, as local exactly if it is one of two names or a local address, and as clearnet exactly if it is another address or a valid name without an overlay ending. |
| `HostNames.AcceptedIsNameOrIp` | src/bigbrotr/models/relay.py:107-206 | A host of an accepted network is a name of label characters and dots, or an address. |
| `HostNames.AcceptedIsHost` | src/bigbrotr/models/relay.py:107-145 | The lower-case canonical form of an accepted host is of the same network and canonical. |
| `SanitizedUrl.SanitizedIffAcceptable` | src/bigbrotr/models/relay.py:489-569 | A parsed URL is sanitized exactly if its scheme is ws or wss, its host is clean and on an accepted network, its port is absent or a number from 1 to 65535, and the canonical form has at most 2048 characters; that form is the scheme of the network, the host, the number of the port unless it is 443 for wss or 80 for ws, and the segments of the path. |
| `SanitizedUrl.CanonicalFormIsReadBack` | src/bigbrotr/models/relay.py:555-562 | Parsing the canonical form gives back the scheme of the network, the host in lower case, the path, and the number of the port, unless the raw URL had none or had 443 for wss or 80 for ws. |
| `SanitizedUrl.TrailingDotsAreDropped` | src/bigbrotr/models/relay.py:532-533 | Dots after a host do not count. |
| `SanitizedUrl.QueryAndFragmentAreDropped` | src/bigbrotr/models/relay.py:505 | A query or a fragment changes nothing in what a URL is parsed to. |
| `RelayUrl.PrintedIsReadable` | src/bigbrotr/models/relay.py:555-562 | Parsing a printed URL gives back scheme, host, printed port and path, the host in lower case and a KELVIN SIGN as k, if its labels are short enough to be converted. |
| `RelayUrl.PrintedIsSanitized` | src/bigbrotr/models/relay.py:489-569 | Sanitizing a printed URL makes its host lower-case and changes nothing else. |
| `RelayUrl.BracketsAreRejected` | src/bigbrotr/models/relay.py:533-556 | A printed URL whose host kept a bracket is rejected on the next pass. |
| `RelayUrl.FixpointIffPlainHost` | src/bigbrotr/models/relay.py:325-329 | For any raw URL, sanitizing its result again changes nothing if and only if the decoded host has no brackets and nothing outside ASCII, and the canonical host no upper-case letter; then the canonical check of the constructor passes. |
| `RelayUrl.TwoPassesReachAFixpoint` | src/bigbrotr/models/relay.py:489-569 | Without brackets in the decoded host, two passes always reach a fixpoint. |
| `RelayUrl.EncodedUpperCase` | src/bigbrotr/models/relay.py:532-536 | A concrete URL, wss://%58.y, is not canonical after one pass. |
| `RelayUrl.EncodedBracket` | src/bigbrotr/models/relay.py:532-556 | A concrete URL, wss://%5Bx.y, is accepted and printed as wss://[x.y, which is rejected. |
| `RelayUrl.EncodedKelvin` | src/bigbrotr/models/relay.py:532-543 | A concrete URL, wss://%E2%84%AA.x.y, is accepted and printed with the KELVIN SIGN that it encodes, and the next pass prints wss://k.x.y. |
| `RelayUrl.FieldsPrintBack` | src/bigbrotr/models/relay.py:312-374 | A fixpoint is accepted by the constructor; the network of its record is that of its host, the scheme that of the network, and scheme, host, port and path print back to it. |
| `KvPairs.FormatKvPairs` | src/bigbrotr/core/logger.py:49-91 | The loop with truncation, quoting and escaping prints the specified text. |
| `KvPairs.LongValuesAreCut` | src/bigbrotr/core/logger.py:82-83 | A value longer than a limit that is not zero is cut there and followed by the number of characters left out, in decimals; every other value is whole. |
| `KvPairs.QuotedIfNeeded` | src/bigbrotr/core/logger.py:85-89 | A value is quoted exactly if it is empty or has a space, an equals sign or a quote in it, and in quotes only quotes and backslashes have a backslash added; otherwise it is printed as it is. |
| `KvPairs.PairsAreSpaced` | src/bigbrotr/core/logger.py:91 | The text is the prefix and the texts of the pairs, one space apart. |
| `KvPairs.UnquoteEscaped` | src/bigbrotr/core/logger.py:86-87 | Unescaping a quoted value gives it back and stops at its closing quote, for all strings. |
| `KvPairs.ParseIsInverse` | src/bigbrotr/core/logger.py:79-91 | A parser for the format recovers the pairs from the text, for keys without "=" and values of any characters; with truncation on, the truncated values. |
| `BoundedRead.Content.Read` | src/bigbrotr/utils/http.py:86 | A read returns between one byte and the requested number, and none only at the end of the body; a request for none is never made. |
| `BoundedRead.ReadBounded` | src/bigbrotr/utils/http.py:65-93 | However the body is cut into chunks, the result is the whole body if it has at most `max_size` bytes and a failure otherwise, after at most one byte more. |

## Left out

- Event identifiers are natural numbers: hexadecimal text of a fixed width orders like the number it denotes. The size of an event in JSON and the outcome of its signature check are fields of the event.
- StreamCompleteness.StreamIsExact: request timeouts are not part of an honest relay, because a timeout shortens an answer without a trace; the idle timeout is.
- NoLoss.EveryRunIsCovered: the stores of the relays are fixed, since an event that arrives with an old timestamp is out of reach by design; the filter of each relay is a single one, for the reason proved in `SeveralFilters`.
- RelayUrl.FixpointIffPlainHost: a host whose decoded form has a percent sign is excluded, which only an address with a zone identifier can have and be accepted. Lower case is written out for ASCII and the KELVIN SIGN; every other character outside ASCII keeps one in lower case, which no network accepts.
- The parser of IP addresses is a parameter with stated laws, and the RFC 3986 library is a parser written out from the standard; IPvFuture literals are rejected at parsing instead of later.
- The IDNA codec is a parameter; beyond the labels of `Idn.IdnaLaws` nothing is assumed of what it returns.
- SHA-256: equality of canonical texts is proved, not the absence of collisions.
- JsonText.ValueIsReadBack: the reader takes no white space between tokens, for the canonical text has none.
- Floats are known by the token they print as; two floats that compare equal but print differently are different values here.
- Candidate rows that are not well-formed, and are skipped when fetched.
- Discovery through HTTP APIs: its checkpoints are saved before its relays are inserted, and a retry is only delayed.
- Lifecycle.FailuresAreBounded: only with the cleanup of exhausted candidates enabled; without it counters grow without bound.
- In `Lifecycle` a page is any set of eligible rows, whatever its order and size; `Validator.Brotr.FetchCandidates` fixes both.
- In `FinderCycle.FindFromEvents` other services act between the events of the cycle, not between the calls of one flush; the lemmas about runs of `Finder` allow both.
- FinderCoverage.CoveredIffOnTime: rows are stored one by one; the removal of rows is not part of this model.
- The pacing of cycles in `run_forever`, retry delays and log output.
- The client pool, WebSocket, SSL, DNS and GeoIP probes, NIP-11 and NIP-66 documents, the monitor, dashboards, the API service and the DVM: calls into foreign code, or shallow next to the parts above.
- The SQL text and the stored procedures: tables are sets and maps with insert-if-absent, upsert and delete.
