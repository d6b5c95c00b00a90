/** The discovery cycle of the finder, as a run of its steps. */
module FinderCycle {
  import opened Arith
  import opened Batches
  import opened Candidates
  import opened CursorStore
  import opened Finder
  import opened FinderScan
  import opened Keyset

  // ----- What the upserts count -----

  /** A call counts a URL once, however often it is in its chunk. */
  function DistinctCount(urls: seq<Url>): nat {
    if urls == [] then 0
    else (if urls[0] in urls[1..] then 0 else 1) + DistinctCount(urls[1..])
  }

  lemma {:induction false} DistinctCountIsSize(urls: seq<Url>)
    ensures DistinctCount(urls) == |Elems(urls)|
  {
    if urls == [] {
      assert Elems(urls) == {};
    } else {
      DistinctCountIsSize(urls[1..]);
      assert urls == [urls[0]] + urls[1..];
      assert Elems(urls) == {urls[0]} + Elems(urls[1..]);
    }
  }

  /** A URL in two calls counts twice. */
  function ChunkCount(urls: seq<Url>, size: nat): nat
    requires size >= 1
  {
    if urls == [] then 0
    else
      var n := Min(size, |urls|);
      DistinctCount(urls[..n]) + ChunkCount(urls[n..], size)
  }

  /** No URL occurs in two chunks. */
  ghost predicate OncePerChunk(urls: seq<Url>, size: nat)
    requires size >= 1
  {
    forall i, j :: 0 <= i < j < |urls| && urls[i] == urls[j] ==> SameChunk(i, j, size)
  }

  predicate SameChunk(i: nat, j: nat, size: nat)
    requires size >= 1
  {
    i / size == j / size
  }

  lemma NextChunk(i: nat, size: nat)
    requires size >= 1
    ensures (i + size) / size == i / size + 1
  {
    var q, p := i / size, (i + size) / size;
    assert q * size <= i && p * size <= i + size;
    Distributes(q, 1, size);
    Distributes(p - 1, 1, size);
    MultipleFits(q + 1, i + size, size);
    MultipleFits(p - 1, i, size);
  }

  lemma FirstChunk(i: nat, size: nat)
    requires size >= 1
    ensures i < size <==> i / size == 0
  {
    assert i / size * size <= i;
    if i < size {
      LessThanOnce(i / size, size);
    } else {
      MultipleFits(1, i, size);
    }
  }

  lemma ChunksInRest(urls: seq<Url>, size: nat)
    requires size >= 1 && size < |urls|
    requires OncePerChunk(urls, size)
    ensures Elems(urls[..size]) !! Elems(urls[size..]) && OncePerChunk(urls[size..], size)
  {
    var rest := urls[size..];
    forall i, j | 0 <= i < j < |rest| && rest[i] == rest[j] ensures SameChunk(i, j, size) {
      assert urls[i + size] == urls[j + size] && SameChunk(i + size, j + size, size);
      NextChunk(i, size);
      NextChunk(j, size);
    }
    forall i, j | 0 <= i < size && 0 <= j < |rest| ensures urls[i] != rest[j] {
      FirstChunk(i, size);
      FirstChunk(j + size, size);
      assert rest[j] == urls[j + size] && !SameChunk(i, j + size, size);
    }
  }

  lemma ChunksTogether(urls: seq<Url>, size: nat)
    requires size >= 1 && size < |urls|
    requires Elems(urls[..size]) !! Elems(urls[size..]) && OncePerChunk(urls[size..], size)
    ensures OncePerChunk(urls, size)
  {
    var rest := urls[size..];
    forall i, j | 0 <= i < size && size <= j < |urls| ensures urls[i] != urls[j] {
      assert urls[..size][i] in Elems(urls[..size]) && rest[j - size] in Elems(rest);
    }
    forall i, j | 0 <= i < j < |urls| && urls[i] == urls[j] ensures SameChunk(i, j, size) {
      if j < size {
        FirstChunk(i, size);
        FirstChunk(j, size);
      } else {
        assert i >= size && rest[i - size] == rest[j - size] && SameChunk(i - size, j - size, size);
        NextChunk(i - size, size);
        NextChunk(j - size, size);
      }
    }
  }

  /** The first chunk shares no URL with the others, and those share none among themselves. */
  lemma OncePerChunkSplits(urls: seq<Url>, size: nat)
    requires size >= 1 && size < |urls|
    ensures OncePerChunk(urls, size) <==> Elems(urls[..size]) !! Elems(urls[size..]) && OncePerChunk(urls[size..], size)
  {
    if OncePerChunk(urls, size) {
      ChunksInRest(urls, size);
    } else if Elems(urls[..size]) !! Elems(urls[size..]) && OncePerChunk(urls[size..], size) {
      ChunksTogether(urls, size);
    }
  }

  lemma UnionSize<T>(a: set<T>, b: set<T>)
    ensures |a + b| <= |a| + |b|
    ensures |a + b| == |a| + |b| <==> a !! b
  {
    assert a + b == a + (b - a) && |a + (b - a)| == |a| + |b - a|;
    assert b == (b - a) + (b * a) && |b| == |b - a| + |b * a|;
    assert a !! b <==> b * a == {};
  }

  /** The count is at least the number of URLs, and equals it exactly when none occurs in two chunks. */
  lemma {:induction false} CountIffOncePerChunk(urls: seq<Url>, size: nat)
    requires size >= 1
    ensures ChunkCount(urls, size) >= |Elems(urls)|
    ensures ChunkCount(urls, size) == |Elems(urls)| <==> OncePerChunk(urls, size)
    decreases |urls|
  {
    if urls == [] {
      assert Elems(urls) == {};
    } else if |urls| <= size {
      assert urls[..|urls|] == urls;
      DistinctCountIsSize(urls);
      assert ChunkCount(urls[|urls|..], size) == 0;
      forall i, j | 0 <= i < j < |urls| ensures SameChunk(i, j, size) {
        FirstChunk(i, size);
        FirstChunk(j, size);
      }
    } else {
      CountIffOncePerChunk(urls[size..], size);
      OncePerChunkSplits(urls, size);
      DistinctCountIsSize(urls[..size]);
      assert urls == urls[..size] + urls[size..];
      assert Elems(urls) == Elems(urls[..size]) + Elems(urls[size..]);
      UnionSize(Elems(urls[..size]), Elems(urls[size..]));
    }
  }

  // ----- Runs of the steps -----

  /** A run of these actions from `s` ends in `t`. */
  ghost predicate Reaches(w: World, s: State, log: seq<Action>, t: State) {
    Run(w, s, log) == t
  }

  /** From `t` to `u` the chunks have `count` different URLs each by itself, so at most `count` more are registered. */
  ghost predicate Enters(t: State, u: State, count: nat) {
    |u.entered| <= |t.entered| + count && u.counted == t.counted + count
  }

  lemma OneStep(w: World, s: State, log: seq<Action>, t: State, a: Action)
    requires Reaches(w, s, log, t) && Enabled(t, a, w)
    ensures Reaches(w, s, log + [a], Noted(Effect(w, t, a)))
  {
    var longer := log + [a];
    assert longer[..|longer| - 1] == log;
  }

  /** The state with this table, these tables and cursors, in this phase. */
  ghost predicate Shows(t: State, table: seq<Row>, tables: Tables, cursors: map<Url, Key>, phase: Phase) {
    t.table == table && t.tables == tables && t.cursors == cursors && t.phase == phase
  }

  lemma {:induction false} FirstRowsTwice(w: World, candidates: map<Url, Candidate>, a: seq<Url>, b: seq<Url>, now: int)
    ensures WithFirstRows(w, WithFirstRows(w, candidates, a, now), b, now) == WithFirstRows(w, candidates, a + b, now)
    decreases |a|
  {
    if a == [] {
      assert a + b == b;
    } else {
      assert (a + b)[1..] == a[1..] + b;
      FirstRowsTwice(w, candidates[a[0] := Candidate(w.network(a[0]), 0, now)], a[1..], b, now);
    }
  }

  /** Filter and upserts, with nothing of others in between: known URLs keep their state. */
  lemma EnteredIsDiscovered(w: World, t: Tables, urls: seq<Url>, now: int)
    ensures Entered(w, t, NewUrls(t, urls), now) == Discovered(t, Found(w, urls), now)
  {
    var unseen, discovered := NewUrls(t, urls), Discovered(t, Found(w, urls), now).candidates;
    forall url
      ensures url in WithFirstRows(w, t.candidates, unseen, now) <==> url in discovered
      ensures url in discovered ==> WithFirstRows(w, t.candidates, unseen, now)[url] == discovered[url]
    {
      FirstRowsEffect(w, t.candidates, unseen, now, url);
    }
    assert WithFirstRows(w, t.candidates, unseen, now) == discovered;
  }

  lemma EnteredSize(w: World, t: Tables, urls: seq<Url>, now: int)
    requires forall url :: url in urls ==> url !in t.candidates
    ensures |Entered(w, t, urls, now).candidates| == |t.candidates| + |Elems(urls)|
  {
    var after := Entered(w, t, urls, now).candidates;
    forall url ensures url in after.Keys <==> url in t.candidates.Keys + Elems(urls) {
      FirstRowsEffect(w, t.candidates, urls, now, url);
    }
    assert after.Keys == t.candidates.Keys + Elems(urls) && t.candidates.Keys !! Elems(urls);
    assert |t.candidates| == |t.candidates.Keys| && |after| == |after.Keys|;
  }

  /** The upsert calls for the chunks from index `i` on: the tables and the count they leave. */
  function ChunksEntered(w: World, t: Tables, urls: seq<Url>, i: nat, size: nat, now: int, count: nat): (Tables, nat)
    requires size >= 1
    decreases |urls| - i
  {
    if i >= |urls| then (t, count)
    else
      var end := Min(i + size, |urls|);
      ChunksEntered(w, Entered(w, t, urls[i..end], now), urls, end, size, now, count + DistinctCount(urls[i..end]))
  }

  lemma {:induction false} ChunksEnterAll(w: World, t: Tables, urls: seq<Url>, i: nat, size: nat, now: int, count: nat)
    requires size >= 1 && i <= |urls|
    ensures ChunksEntered(w, t, urls, i, size, now, count)
         == (Entered(w, t, urls[i..], now), count + ChunkCount(urls[i..], size))
    decreases |urls| - i
  {
    if i < |urls| {
      var end := Min(i + size, |urls|);
      var chunk := urls[i..end];
      ChunksEnterAll(w, Entered(w, t, chunk, now), urls, end, size, now, count + DistinctCount(chunk));
      assert urls[i..] == chunk + urls[end..];
      FirstRowsTwice(w, t.candidates, chunk, urls[end..], now);
      ChunkCountStep(urls, i, size);
    }
  }

  lemma ChunkCountStep(urls: seq<Url>, i: nat, size: nat)
    requires size >= 1 && i < |urls|
    ensures var end := Min(i + size, |urls|);
            ChunkCount(urls[i..], size) == DistinctCount(urls[i..end]) + ChunkCount(urls[end..], size)
  {
    var end := Min(i + size, |urls|);
    SlicesOfRest(urls, i, end);
  }

  /** What the calls write and count, against the candidates that are new. */
  lemma CountsNewCandidates(w: World, t: Tables, relays: seq<Url>, now: int, size: nat)
    requires size >= 1
    ensures var (after, count) := ChunksEntered(w, t, NewUrls(t, relays), 0, size, now, 0);
            && after == Discovered(t, Found(w, relays), now)
            && |after.candidates| <= |t.candidates| + count
            && (|after.candidates| == |t.candidates| + count <==> OncePerChunk(NewUrls(t, relays), size))
  {
    var unseen := NewUrls(t, relays);
    ChunksEnterAll(w, t, unseen, 0, size, now, 0);
    assert unseen[0..] == unseen;
    EnteredIsDiscovered(w, t, relays, now);
    EnteredSize(w, t, unseen, now);
    CountIffOncePerChunk(unseen, size);
  }

  lemma FilterStep(w: World, s: State, log: seq<Action>, t: State) returns (u: State)
    requires Reaches(w, s, log, t) && t.phase.Active? && t.phase.work.Collecting?
    ensures Reaches(w, s, log + [Filter], u) && Enters(t, u, 0)
    ensures Shows(u, t.table, t.tables, t.cursors,
              t.phase.(work := Registering(NewUrls(t.tables, t.phase.work.buffer), t.phase.work.pending)))
  {
    OneStep(w, s, log, t, Filter);
    u := Noted(Effect(w, t, Filter));
  }

  lemma RegisterStep(w: World, s: State, log: seq<Action>, t: State, urls: seq<Url>, i: nat, end: nat, now: int)
    returns (u: State)
    requires Reaches(w, s, log, t) && t.phase.Active? && t.phase.work.Registering?
    requires i <= end <= |urls| && t.phase.work.unseen == urls[i..]
    ensures Reaches(w, s, log + [RegisterChunk(end - i, now)], u)
    ensures Enters(t, u, DistinctCount(urls[i..end]))
    ensures Shows(u, t.table, Entered(w, t.tables, urls[i..end], now), t.cursors,
              t.phase.(work := Registering(urls[end..], t.phase.work.pending)))
  {
    var a := RegisterChunk(end - i, now);
    SlicesOfRest(urls, i, end);
    OneStep(w, s, log, t, a);
    u := Noted(Effect(w, t, a));
    DistinctCountIsSize(urls[i..end]);
    UnionSize(t.entered, Elems(urls[i..end]));
  }

  lemma BeginSaveStep(w: World, s: State, log: seq<Action>, t: State) returns (u: State)
    requires Reaches(w, s, log, t) && Enabled(t, BeginSave, w)
    ensures Reaches(w, s, log + [BeginSave], u) && Enters(t, u, 0)
    ensures Shows(u, t.table, t.tables, t.cursors, t.phase.(work := Saving(Persistable(t.phase.work.pending))))
  {
    OneStep(w, s, log, t, BeginSave);
    u := Noted(Effect(w, t, BeginSave));
  }

  lemma ResumeStep(w: World, s: State, log: seq<Action>, t: State) returns (u: State)
    requires Reaches(w, s, log, t) && Enabled(t, Resume, w)
    ensures Reaches(w, s, log + [Resume], u) && Enters(t, u, 0)
    ensures Shows(u, t.table, t.tables, t.cursors, t.phase.(work := Collecting([], [])))
  {
    OneStep(w, s, log, t, Resume);
    u := Noted(Effect(w, t, Resume));
  }

  lemma SaveStep(w: World, s: State, log: seq<Action>, t: State, records: seq<Cursor>, i: nat, end: nat)
    returns (u: State)
    requires Reaches(w, s, log, t) && t.phase.Active? && i <= end <= |records| && t.phase.work == Saving(records[i..])
    ensures Reaches(w, s, log + [SaveChunk(end - i)], u) && Enters(t, u, 0)
    ensures Shows(u, t.table, t.tables, Upsert(t.cursors, records[i..end]), t.phase.(work := Saving(records[end..])))
  {
    var a := SaveChunk(end - i);
    SlicesOfRest(records, i, end);
    OneStep(w, s, log, t, a);
    u := Noted(Effect(w, t, a));
  }

  class Brotr {
    const maxBatch: nat
    var table: seq<Row>
    var tables: Tables
    var cursors: map<Url, Key>

    constructor (maxBatch: nat, table: seq<Row>, tables: Tables, cursors: map<Url, Key>)
      ensures this.maxBatch == maxBatch && this.table == table && this.tables == tables && this.cursors == cursors
    {
      this.maxBatch := maxBatch;
      this.table := table;
      this.tables := tables;
      this.cursors := cursors;
    }

    ghost predicate IsShownBy(t: State, phase: Phase)
      reads this
    {
      Shows(t, table, tables, cursors, phase)
    }

    /** One upsert call: `urls[i..end]` become candidates, and each of them is counted once. */
    method UpsertServiceState(w: World, urls: seq<Url>, i: nat, end: nat, now: int, ghost s: State,
            ghost start: seq<Action>, ghost t: State)
      returns (count: nat, ghost log: seq<Action>, ghost u: State)
      requires i <= end <= |urls| && Reaches(w, s, start, t) && t.phase.Active? && t.phase.work.Registering?
      requires t.phase.work.unseen == urls[i..] && IsShownBy(t, t.phase)
      modifies this`tables
      ensures Reaches(w, s, log, u) && Enters(t, u, count)
      ensures IsShownBy(u, t.phase.(work := Registering(urls[end..], t.phase.work.pending)))
      ensures tables == Entered(w, old(tables), urls[i..end], now) && count == DistinctCount(urls[i..end])
    {
      u := RegisterStep(w, s, start, t, urls, i, end, now);
      log := start + [RegisterChunk(end - i, now)];
      tables := Entered(w, tables, urls[i..end], now);
      count := DistinctCount(urls[i..end]);
    }

    /** One call per chunk, each a step of its own. The result adds up what the calls counted. */
    method BatchedInsert(w: World, urls: seq<Url>, now: int, ghost s: State, ghost start: seq<Action>, ghost t: State)
      returns (total: nat, ghost log: seq<Action>, ghost u: State)
      requires maxBatch >= 1 && Reaches(w, s, start, t) && t.phase.Active? && t.phase.work.Registering?
      requires t.phase.work.unseen == urls && IsShownBy(t, t.phase)
      modifies this`tables
      ensures Reaches(w, s, log, u) && IsShownBy(u, t.phase.(work := Registering([], t.phase.work.pending)))
      ensures Enters(t, u, total)
      ensures (tables, total) == ChunksEntered(w, old(tables), urls, 0, maxBatch, now, 0)
    {
      log, u, total := start, t, 0;
      var i := 0;
      assert urls[i..] == urls;
      while i < |urls|
        invariant i <= |urls| && Reaches(w, s, log, u) && Enters(t, u, total)
        invariant IsShownBy(u, t.phase.(work := Registering(urls[i..], t.phase.work.pending)))
        invariant ChunksEntered(w, tables, urls, i, maxBatch, now, total)
               == ChunksEntered(w, old(tables), urls, 0, maxBatch, now, 0)
      {
        var end := Min(i + maxBatch, |urls|);
        var count;
        count, log, u := UpsertServiceState(w, urls, i, end, now, s, log, u);
        total := total + count;
        i := end;
      }
      assert urls[i..] == [];
    }

    /** The filter, then the upserts: known URLs keep their state, new ones become candidates. */
    method InsertRelaysAsCandidates(w: World, relays: seq<Url>, now: int, ghost s: State, ghost start: seq<Action>,
            ghost t: State)
      returns (found: nat, ghost log: seq<Action>, ghost u: State)
      requires maxBatch >= 1 && Reaches(w, s, start, t) && t.phase.Active? && t.phase.work.Collecting?
      requires t.phase.work.buffer == relays && IsShownBy(t, t.phase)
      modifies this`tables
      ensures Reaches(w, s, log, u) && IsShownBy(u, t.phase.(work := Registering([], t.phase.work.pending)))
      ensures Enters(t, u, found)
      ensures tables == Discovered(old(tables), Found(w, relays), now)
      ensures |tables.candidates| <= |old(tables).candidates| + found
      ensures |tables.candidates| == |old(tables).candidates| + found
         <==> OncePerChunk(NewUrls(old(tables), relays), maxBatch)
    {
      var unseen := NewUrls(tables, relays);
      CountsNewCandidates(w, tables, relays, now, maxBatch);
      u := FilterStep(w, s, start, t);
      found, log, u := BatchedInsert(w, unseen, now, s, start + [Filter], u);
    }

    /** One call per chunk, each a step of its own. */
    method UpsertServiceStates(w: World, records: seq<Cursor>, ghost s: State, ghost start: seq<Action>, ghost t: State)
      returns (ghost log: seq<Action>, ghost u: State)
      requires maxBatch >= 1 && Reaches(w, s, start, t) && t.phase.Active? && t.phase.work == Saving(records)
      requires IsShownBy(t, t.phase)
      modifies this`cursors
      ensures Reaches(w, s, log, u) && IsShownBy(u, t.phase.(work := Saving([]))) && Enters(t, u, 0)
      ensures cursors == Upsert(old(cursors), records)
    {
      log, u := start, t;
      var i := 0;
      while i < |records|
        invariant i <= |records|
        invariant Reaches(w, s, log, u) && IsShownBy(u, t.phase.(work := Saving(records[i..]))) && Enters(t, u, 0)
        invariant Upsert(cursors, records[i..]) == Upsert(old(cursors), records)
      {
        var end := Min(i + maxBatch, |records|);
        assert records[i..] == records[i..end] + records[end..];
        UpsertConcat(cursors, records[i..end], records[end..]);
        u := SaveStep(w, s, log, u, records, i, end);
        log := log + [SaveChunk(end - i)];
        cursors := Upsert(cursors, records[i..end]);
        i := end;
      }
    }

    /** Cursors at the default timestamp are left out, the others are saved chunk by chunk. */
    method UpsertFinderCursors(w: World, pending: seq<Cursor>, ghost s: State, ghost start: seq<Action>, ghost t: State)
      returns (ghost log: seq<Action>, ghost u: State)
      requires maxBatch >= 1 && Reaches(w, s, start, t) && t.phase.Active? && t.phase.work == Registering([], pending)
      requires IsShownBy(t, t.phase)
      modifies this`cursors
      ensures Reaches(w, s, log, u) && IsShownBy(u, t.phase.(work := Saving([]))) && Enters(t, u, 0)
      ensures cursors == Upsert(old(cursors), Persistable(pending))
    {
      u := BeginSaveStep(w, s, start, t);
      log, u := UpsertServiceStates(w, Persistable(pending), s, start + [BeginSave], u);
    }
  }

  /** One flush: the URLs first, then the cursors that are not at the default timestamp. */
  method Flush(w: World, db: Brotr, buffer: seq<Url>, pending: seq<Cursor>, now: int, ghost s: State,
          ghost start: seq<Action>, ghost t: State)
    returns (found: nat, ghost log: seq<Action>, ghost u: State)
    requires db.maxBatch >= 1 && Reaches(w, s, start, t) && t.phase.Active?
    requires t.phase.work == Collecting(buffer, pending) && db.IsShownBy(t, t.phase)
    modifies db`tables, db`cursors
    ensures Reaches(w, s, log, u) && db.IsShownBy(u, t.phase.(work := Collecting([], [])))
    ensures Enters(t, u, found)
    ensures db.tables == Discovered(old(db.tables), Found(w, buffer), now)
    ensures db.cursors == Upsert(old(db.cursors), Persistable(pending))
    ensures |db.tables.candidates| <= |old(db.tables).candidates| + found
  {
    found, log, u := db.InsertRelaysAsCandidates(w, buffer, now, s, start, t);
    log, u := db.UpsertFinderCursors(w, pending, s, log, u);
    u := ResumeStep(w, s, log, u);
    log := log + [Resume];
  }

  // ----- The cycle -----

  /**
   A worker reads a page, the consumer takes the next row of a relay, another service
   stores a row, or changes the relays and candidates.
   */
  datatype Event = Page(relay: Url) | Next(relay: Url) | Commit(row: Row) | Change(tables: Tables)

  datatype Progress = Progress(table: seq<Row>, at: map<Url, Key>, ahead: map<Url, seq<Row>>)

  function AfterEvent(p: Progress, e: Event, scanSize: nat): Progress {
    match e
    case Page(relay) =>
      if relay !in p.at || relay !in p.ahead then p
      else
        var page := Scan(p.table, relay, Reach(p.at[relay], p.ahead[relay]), scanSize);
        p.(ahead := p.ahead[relay := p.ahead[relay] + page])
    case Next(relay) =>
      if relay !in p.at || relay !in p.ahead || p.ahead[relay] == [] then p
      else p.(at := p.at[relay := RowKey(p.ahead[relay][0])], ahead := p.ahead[relay := p.ahead[relay][1..]])
    case Commit(row) => p.(table := Stored(p.table, row))
    case Change(_) => p
  }

  /** Other services remove no relay. */
  function AfterChange(t: Tables, e: Event): Tables {
    if e.Change? && t.relays <= e.tables.relays then e.tables else t
  }

  function AfterEvents(p: Progress, events: seq<Event>, scanSize: nat): Progress
    decreases |events|
  {
    if events == [] then p
    else
      var n := |events| - 1;
      AfterEvent(AfterEvents(p, events[..n], scanSize), events[n], scanSize)
  }

  function NotBegun(table: seq<Row>, cursors: map<Url, Key>, relays: set<Url>): Progress {
    Progress(table, Start(cursors, relays), NothingRead(relays))
  }

  lemma OneMoreEvent(p: Progress, events: seq<Event>, i: nat, scanSize: nat)
    requires i < |events|
    ensures AfterEvents(p, events[..i + 1], scanSize)
         == AfterEvent(AfterEvents(p, events[..i], scanSize), events[i], scanSize)
  {
    assert events[..i + 1][..i] == events[..i];
  }

  /** An event that is no consumption is one step of the run. */
  lemma EventStep(w: World, s: State, log: seq<Action>, t: State, p: Progress, e: Event, scanSize: nat)
    returns (longer: seq<Action>, u: State)
    requires Reaches(w, s, log, t) && scanSize >= 1 && !e.Next?
    requires t.table == p.table && t.phase.Active? && t.phase.at == p.at && t.phase.ahead == p.ahead
    ensures Reaches(w, s, longer, u) && Enters(t, u, 0)
    ensures var q := AfterEvent(p, e, scanSize);
            q.at == p.at && Shows(u, q.table, AfterChange(t.tables, e), t.cursors, Active(p.at, q.ahead, t.phase.work))
  {
    longer, u := log, t;
    match e {
      case Page(relay) =>
        if relay in p.at && relay in p.ahead {
          OneStep(w, s, log, t, ReadPage(relay, scanSize));
          longer, u := log + [ReadPage(relay, scanSize)], Noted(Effect(w, t, ReadPage(relay, scanSize)));
        }
      case Commit(row) =>
        OneStep(w, s, log, t, Arrive(row));
        longer, u := log + [Arrive(row)], Noted(Effect(w, t, Arrive(row)));
      case Change(tables) =>
        if t.tables.relays <= tables.relays {
          OneStep(w, s, log, t, Others(tables));
          longer, u := log + [Others(tables)], Noted(Effect(w, t, Others(tables)));
        }
    }
  }

  lemma ConsumeStep(w: World, s: State, log: seq<Action>, t: State, p: Progress, relay: Url, found: seq<Url>)
    returns (longer: seq<Action>, u: State)
    requires Reaches(w, s, log, t) && t.table == p.table
    requires t.phase.Active? && t.phase.at == p.at && t.phase.ahead == p.ahead && t.phase.work.Collecting?
    requires relay in p.at && relay in p.ahead && p.ahead[relay] != [] && Lists(w, p.ahead[relay][0], found)
    ensures Reaches(w, s, longer, u) && Enters(t, u, 0)
    ensures var q, row := AfterEvent(p, Next(relay), 1), p.ahead[relay][0];
            var work := Collecting(t.phase.work.buffer + found, Put(t.phase.work.pending, CursorAt(relay, row)));
            Shows(u, q.table, t.tables, t.cursors, Active(q.at, q.ahead, work))
  {
    OneStep(w, s, log, t, Consume(relay, found));
    longer, u := log + [Consume(relay, found)], Noted(Effect(w, t, Consume(relay, found)));
  }

  /** The consumer takes the next row of a relay, and flushes when the buffer is full. */
  method TakeRow(w: World, db: Brotr, relay: Url, at: map<Url, Key>, ahead: map<Url, seq<Row>>, buffer: seq<Url>,
          pending: seq<Cursor>, batchSize: nat, now: int, ghost s: State, ghost start: seq<Action>, ghost t: State)
    returns (found: nat, kept: seq<Url>, left: seq<Cursor>, ghost log: seq<Action>, ghost u: State)
    requires db.maxBatch >= 1 && batchSize >= 1 && Reaches(w, s, start, t)
    requires db.IsShownBy(t, Active(at, ahead, Collecting(buffer, pending)))
    requires relay in at && relay in ahead && ahead[relay] != []
    modifies db`tables, db`cursors
    ensures Reaches(w, s, log, u) && Enters(t, u, found)
    ensures db.IsShownBy(u,
        Active(at[relay := RowKey(ahead[relay][0])], ahead[relay := ahead[relay][1..]], Collecting(kept, left)))
    ensures |kept| < batchSize && |db.tables.candidates| <= |old(db.tables).candidates| + found
  {
    var row := ahead[relay][0];
    var relays := ExtractRelays(w.parse, [row]);
    log, u := ConsumeStep(w, s, start, t, Progress(db.table, at, ahead), relay, relays);
    found, kept, left := 0, buffer + relays, Put(pending, CursorAt(relay, row));
    if |kept| >= batchSize {
      found, log, u := Flush(w, db, kept, left, now, s, log, u);
      kept, left := [], [];
    }
  }

  /** One event: other services store a row or change the tables, a page is read, or the consumer takes a row. */
  method HandleEvent(w: World, db: Brotr, e: Event, at: map<Url, Key>, ahead: map<Url, seq<Row>>, buffer: seq<Url>,
          pending: seq<Cursor>, batchSize: nat, scanSize: nat, now: int, ghost s: State, ghost start: seq<Action>,
          ghost t: State)
    returns (found: nat, at': map<Url, Key>, ahead': map<Url, seq<Row>>, kept: seq<Url>, left: seq<Cursor>,
          ghost log: seq<Action>, ghost u: State)
    requires db.maxBatch >= 1 && batchSize >= 1 && scanSize >= 1 && Reaches(w, s, start, t)
    requires db.IsShownBy(t, Active(at, ahead, Collecting(buffer, pending)))
    modifies db
    ensures Reaches(w, s, log, u) && db.IsShownBy(u, Active(at', ahead', Collecting(kept, left)))
    ensures Progress(db.table, at', ahead') == AfterEvent(Progress(old(db.table), at, ahead), e, scanSize)
    ensures Enters(t, u, found)
    ensures !e.Change? ==> |db.tables.candidates| <= |old(db.tables).candidates| + found
  {
    found, at', ahead', kept, left, log, u := 0, at, ahead, buffer, pending, start, t;
    match e {
      case Commit(row) =>
        log, u := EventStep(w, s, start, t, Progress(db.table, at, ahead), e, scanSize);
        db.table := Stored(db.table, row);
      case Change(tables) =>
        log, u := EventStep(w, s, start, t, Progress(db.table, at, ahead), e, scanSize);
        if db.tables.relays <= tables.relays {
          db.tables := tables;
        }
      case Page(relay) =>
        if relay in at && relay in ahead {
          log, u := EventStep(w, s, start, t, Progress(db.table, at, ahead), e, scanSize);
          var rows := Scan(db.table, relay, Reach(at[relay], ahead[relay]), scanSize);
          ahead' := ahead[relay := ahead[relay] + rows];
        }
      case Next(relay) =>
        if relay in at && relay in ahead && ahead[relay] != [] {
          found, kept, left, log, u := TakeRow(w, db, relay, at, ahead, buffer, pending, batchSize, now, s, start, t);
          at', ahead' := at[relay := RowKey(ahead[relay][0])], ahead[relay := ahead[relay][1..]];
        }
    }
  }

  lemma BeginStep(w: World, s: State) returns (u: State)
    requires s.phase.Stopped?
    ensures Reaches(w, s, [Begin], u) && Enters(s, u, 0)
    ensures Shows(u, s.table, s.tables, s.cursors,
              Active(Start(s.cursors, s.tables.relays), NothingRead(s.tables.relays), Collecting([], [])))
  {
    OneStep(w, s, [], s, Begin);
    assert [] + [Begin] == [Begin];
    u := Noted(Effect(w, s, Begin));
  }

  lemma EndStep(w: World, s: State, log: seq<Action>, t: State) returns (u: State)
    requires Reaches(w, s, log, t) && Enabled(t, End, w)
    ensures Reaches(w, s, log + [End], u) && Shows(u, t.table, t.tables, t.cursors, Stopped)
    ensures Enters(t, u, 0)
    ensures (log + [End])[..|log|] == log
  {
    OneStep(w, s, log, t, End);
    u := Noted(Effect(w, t, End));
  }

  /** A run that ended after its consumer had saved all of what it took. */
  ghost predicate EndsAt(w: World, s: State, log: seq<Action>, p: Progress) {
    && log != [] && log[|log| - 1] == End
    && Run(w, s, log[..|log| - 1]).phase == Active(p.at, p.ahead, Collecting([], []))
  }

  /** No event changes the relays and candidates. */
  ghost predicate NoChange(events: seq<Event>) {
    forall e :: e in events ==> !e.Change?
  }

  lemma NoChangeBefore(events: seq<Event>, i: nat)
    requires i < |events| && NoChange(events[..i + 1])
    ensures NoChange(events[..i]) && !events[i].Change?
  {
    assert events[..i + 1] == events[..i] + [events[i]];
    assert events[i] in events[..i + 1];
  }

  /** What was found: at least what was registered, and what is new if others leave the candidates alone. */
  ghost predicate Counts(t: State, u: State, events: seq<Event>, before: Tables, after: Tables, found: nat) {
    && Enters(t, u, found)
    && (NoChange(events) ==> |after.candidates| <= |before.candidates| + found)
  }

  lemma CountsMore(t: State, u: State, v: State, events: seq<Event>, i: nat, before: Tables, between: Tables,
          after: Tables, found: nat, more: nat)
    requires i < |events| && Counts(t, u, events[..i], before, between, found) && Enters(u, v, more)
    requires !events[i].Change? ==> |after.candidates| <= |between.candidates| + more
    ensures Counts(t, v, events[..i + 1], before, after, found + more)
  {
    if NoChange(events[..i + 1]) {
      NoChangeBefore(events, i);
    }
  }

  /** The loop of the consumer. */
  method HandleEvents(w: World, db: Brotr, events: seq<Event>, start: map<Url, Key>, first: map<Url, seq<Row>>,
          batchSize: nat, scanSize: nat, now: nat -> int, ghost s: State, ghost begun: seq<Action>, ghost t: State)
    returns (total: nat, at: map<Url, Key>, ahead: map<Url, seq<Row>>, buffer: seq<Url>, pending: seq<Cursor>,
          ghost log: seq<Action>, ghost u: State)
    requires db.maxBatch >= 1 && batchSize >= 1 && scanSize >= 1 && Reaches(w, s, begun, t)
    requires db.IsShownBy(t, Active(start, first, Collecting([], [])))
    modifies db
    ensures Reaches(w, s, log, u) && db.IsShownBy(u, Active(at, ahead, Collecting(buffer, pending)))
    ensures Progress(db.table, at, ahead) == AfterEvents(Progress(old(db.table), start, first), events, scanSize)
    ensures Counts(t, u, events, old(db.tables), db.tables, total)
  {
    total, at, ahead, buffer, pending, log, u := 0, start, first, [], [], begun, t;
    ghost var origin := Progress(db.table, at, ahead);
    for i := 0 to |events|
      invariant Reaches(w, s, log, u) && db.IsShownBy(u, Active(at, ahead, Collecting(buffer, pending)))
      invariant Progress(db.table, at, ahead) == AfterEvents(origin, events[..i], scanSize)
      invariant Counts(t, u, events[..i], old(db.tables), db.tables, total)
    {
      OneMoreEvent(origin, events, i, scanSize);
      ghost var between, before := db.tables, u;
      var found;
      found, at, ahead, buffer, pending, log, u :=
        HandleEvent(w, db, events[i], at, ahead, buffer, pending, batchSize, scanSize, now(i), s, log, u);
      CountsMore(t, before, u, events, i, old(db.tables), between, db.tables, total, found);
      total := total + found;
    }
    assert events[..|events|] == events;
  }

  /**
   The cycle, for any order of the events. What it does to the database is a run of the
   steps of the finder, with what other services do in between; it takes every row that
   it is given, and returns at least the number of URLs that it registered. If others
   leave the candidates alone, that is at least the number of new ones.
   */
  method FindFromEvents(w: World, db: Brotr, enabled: bool, events: seq<Event>, batchSize: nat, scanSize: nat,
          now: nat -> int, ghost s: State)
    returns (totalFound: nat, ghost log: seq<Action>, ghost t: State)
    requires db.maxBatch >= 1 && batchSize >= 1 && scanSize >= 1 && db.IsShownBy(s, Stopped)
    modifies db
    ensures Reaches(w, s, log, t) && db.IsShownBy(t, Stopped)
    ensures t.counted == s.counted + totalFound && |t.entered| <= |s.entered| + totalFound
    ensures NoChange(events) ==> |db.tables.candidates| <= |old(db.tables).candidates| + totalFound
    ensures enabled && old(db.tables).relays != {} ==>
              var p := AfterEvents(NotBegun(old(db.table), old(db.cursors), old(db.tables).relays), events, scanSize);
              EndsAt(w, s, log, p) && db.table == p.table
  {
    totalFound, log, t := 0, [], s;
    if !enabled || db.tables.relays == {} {
      return;
    }
    var at, ahead := Start(db.cursors, db.tables.relays), NothingRead(db.tables.relays);
    t := BeginStep(w, s);
    var buffer, pending;
    totalFound, at, ahead, buffer, pending, log, t :=
      HandleEvents(w, db, events, at, ahead, batchSize, scanSize, now, s, [Begin], t);
    if buffer != [] || pending != [] {
      var found;
      found, log, t := Flush(w, db, buffer, pending, now(|events|), s, log, t);
      totalFound := totalFound + found;
    }
    t := EndStep(w, s, log, t);
    log := log + [End];
  }
}
