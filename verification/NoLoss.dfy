/**
 No event is lost over whole runs: whatever the interleaving of workers, the
 flushes, deadlines, crashes and restarts, the database holds every due event
 older than the persisted cursor of its relay, and cursors never move back.
 */
module NoLoss {
  import opened Keyset
  import opened Nostr
  import opened HonestRelay
  import opened StreamCompleteness
  import opened Batches
  import opened CursorStore
  import opened Synchronizer
  import opened SyncEffect
  import Fetching
  import Streaming

  /** The fixed contents of the relays, and for each the most events one of its answers can hold. */
  datatype World = World(store: Url -> Store, c: Url -> nat, maxEventSize: Option<nat>)

  ghost predicate DueAt(w: World, url: Url, e: NostrEvent) {
    Due(w.store(url), w.c(url), w.maxEventSize, e)
  }

  /** Every due event strictly older than the cursor of its relay is stored. */
  ghost predicate Covered(w: World, t: Tables) {
    forall url, e :: DueAt(w, url, e) && e.createdAt < Timestamp(t.cursors, url) ==> Row(ToEvent(e), url) in t.stored
  }

  // ----- What the workers deliver -----

  /** The events of one relay, in the order of arrival. */
  function Project(arrivals: seq<Row>, url: Url): seq<Event> {
    if arrivals == [] then []
    else
      var n := |arrivals| - 1;
      Project(arrivals[..n], url) + (if arrivals[n].relay == url then [arrivals[n].event] else [])
  }

  /** A worker yields the beginning of a stream from its cursor, at an honest relay. */
  ghost predicate WorkerYields(w: World, url: Url, start: nat, out: seq<Event>) {
    exists ctx: Fetching.Context, cap: nat, idle: nat -> bool, requests: nat, end: int ::
      YieldsFrom(w, url, start, out, ctx, cap, idle, requests, end)
  }

  ghost predicate YieldsFrom(w: World, url: Url, start: nat, out: seq<Event>, ctx: Fetching.Context, cap: nat,
          idle: nat -> bool, requests: nat, end: int) {
    && Honest(ctx, w.store(url), cap)
    && ctx.maxEventSize == w.maxEventSize
    && Min(ctx.limit, cap) == w.c(url)
    && out <= Convert(ctx.maxEventSize, Streaming.Final(ctx, idle, requests, start, end).raw)
  }

  ghost predicate Legal(w: World, t: Tables, arrivals: seq<Row>) {
    && (forall i :: 0 <= i < |arrivals| ==> arrivals[i].relay in t.relays)
    && forall url ::
         Project(arrivals, url) == [] || WorkerYields(w, url, Timestamp(t.cursors, url), Project(arrivals, url))
  }

  /** The same by position: each row is from the cursor on, in order of time, and skips no due event. */
  ghost predicate InOrder(w: World, t: Tables, arrivals: seq<Row>) {
    forall k :: 0 <= k < |arrivals| ==> Fits(w, t, arrivals, k)
  }

  ghost predicate Fits(w: World, t: Tables, arrivals: seq<Row>, k: nat)
    requires k < |arrivals|
  {
    && arrivals[k].relay in t.relays
    && Timestamp(t.cursors, arrivals[k].relay) <= arrivals[k].event.createdAt
    && NothingSkipped(w, t, arrivals[..k], arrivals[k])
    && (forall r :: r in arrivals[k + 1..] && r.relay == arrivals[k].relay ==>
          arrivals[k].event.createdAt <= r.event.createdAt)
  }

  ghost predicate NothingSkipped(w: World, t: Tables, before: seq<Row>, row: Row) {
    forall e :: DueAt(w, row.relay, e) && Timestamp(t.cursors, row.relay) <= e.createdAt < row.event.createdAt
      ==> Row(ToEvent(e), row.relay) in before
  }

  lemma {:induction false} ProjectPrefix(arrivals: seq<Row>, url: Url, i: nat)
    requires i <= |arrivals|
    ensures Project(arrivals[..i], url) <= Project(arrivals, url)
    decreases |arrivals|
  {
    if i == |arrivals| {
      assert arrivals[..i] == arrivals;
    } else {
      var n := |arrivals| - 1;
      ProjectPrefix(arrivals[..n], url, i);
      assert arrivals[..n][..i] == arrivals[..i];
    }
  }

  lemma {:induction false} ProjectElems(arrivals: seq<Row>, url: Url)
    ensures forall e :: e in Project(arrivals, url) <==> Row(e, url) in arrivals
  {
    if arrivals != [] {
      var n := |arrivals| - 1;
      ProjectElems(arrivals[..n], url);
      assert forall r :: r in arrivals <==> r in arrivals[..n] || r == arrivals[n];
    }
  }

  /** Row `i` comes right after the events of its relay among the earlier rows. */
  lemma ProjectAt(arrivals: seq<Row>, i: nat)
    requires i < |arrivals|
    ensures var url := arrivals[i].relay; var k := |Project(arrivals[..i], url)|;
            k < |Project(arrivals, url)| && Project(arrivals, url)[k] == arrivals[i].event
                && Project(arrivals, url)[..k] == Project(arrivals[..i], url)
  {
    var url := arrivals[i].relay;
    ProjectPrefix(arrivals, url, i);
    ProjectPrefix(arrivals, url, i + 1);
    assert arrivals[..i + 1][..i] == arrivals[..i];
    assert Project(arrivals[..i + 1], url) == Project(arrivals[..i], url) + [arrivals[i].event];
  }

  lemma WorkerIsFaithful(w: World, url: Url, start: nat, out: seq<Event>)
    requires WorkerYields(w, url, start, out)
    ensures Faithful(w.store(url), w.c(url), w.maxEventSize, start, out)
  {
    var ctx: Fetching.Context, cap: nat, idle: nat -> bool, requests: nat, end: int :|
      YieldsFrom(w, url, start, out, ctx, cap, idle, requests, end);
    OutputIsFaithful(ctx, w.store(url), cap, idle, requests, start, end, out);
  }

  lemma EarlierRowIsOlder(w: World, url: Url, start: nat, arrivals: seq<Row>, i: nat, j: nat)
    requires i < j < |arrivals| && arrivals[i].relay == arrivals[j].relay == url
    requires Faithful(w.store(url), w.c(url), w.maxEventSize, start, Project(arrivals, url))
    ensures arrivals[i].event.createdAt <= arrivals[j].event.createdAt
  {
    ProjectAt(arrivals, i);
    ProjectAt(arrivals, j);
    ProjectElems(arrivals[..j], url);
    assert arrivals[..j][i] == Row(arrivals[i].event, url);
    var out, k := Project(arrivals, url), |Project(arrivals[..j], url)|;
    var m :| 0 <= m < k && out[..k][m] == arrivals[i].event;
    assert Less(EventKey(out[m]), EventKey(out[k]));
  }

  lemma LegalIsInOrder(w: World, t: Tables, arrivals: seq<Row>)
    requires Legal(w, t, arrivals)
    ensures InOrder(w, t, arrivals)
  {
    forall k | 0 <= k < |arrivals| ensures Fits(w, t, arrivals, k) {
      var url := arrivals[k].relay;
      var start, out := Timestamp(t.cursors, url), Project(arrivals, url);
      ProjectAt(arrivals, k);
      WorkerIsFaithful(w, url, start, out);
      ProjectElems(arrivals[..k], url);
      forall r | r in arrivals[k + 1..] && r.relay == url ensures arrivals[k].event.createdAt <= r.event.createdAt {
        var i :| 0 <= i < |arrivals[k + 1..]| && arrivals[k + 1..][i] == r;
        EarlierRowIsOlder(w, url, start, arrivals, k, k + 1 + i);
      }
    }
  }

  // ----- One cycle -----

  /** The cursor may be persisted once `taken` is stored: from `t0` on, `taken` skips nothing older. */
  ghost predicate Justified(w: World, t0: Tables, taken: seq<Row>, p: Cursor) {
    forall e :: DueAt(w, p.key, e) && Timestamp(t0.cursors, p.key) <= e.createdAt < p.timestamp ==>
        Row(ToEvent(e), p.key) in taken
  }

  /** A state of the tables during a cycle that started from `t0`. */
  ghost predicate Sane(w: World, t0: Tables, t: Tables) {
    && Covered(w, t)
    && t0.relays == t.relays && t0.stored <= t.stored
    && t.cursors.Keys <= t.relays
    && forall url :: Timestamp(t0.cursors, url) <= Timestamp(t.cursors, url)
  }

  /** What is known after `taken`, with `rest` still to come. */
  ghost predicate CycleInv(w: World, t0: Tables, c: Cycle, taken: seq<Row>, rest: seq<Row>) {
    && Sane(w, t0, c.tables)
    && (forall i :: 0 <= i < |c.trace| ==> Sane(w, t0, c.trace[i]))
    && (forall r :: r in taken ==> r in c.tables.stored || r in c.buffer)
    && OnePerKey(c.pending)
    && (forall p :: p in c.pending ==>
          Justified(w, t0, taken, p) && p.key in t0.relays && Timestamp(c.tables.cursors, p.key) <= p.timestamp)
    && (forall p, r :: p in c.pending && r in rest && r.relay == p.key ==> p.timestamp <= r.event.createdAt)
    && (forall r :: r in rest ==> Timestamp(c.tables.cursors, r.relay) <= r.event.createdAt)
    && Ordered(c.trace, c.tables)
  }

  /** Timestamps never decrease along the trace. */
  ghost predicate Ordered(trace: seq<Tables>, last: Tables) {
    && (forall i, j, url :: 0 <= i < j < |trace| ==>
          Timestamp(trace[i].cursors, url) <= Timestamp(trace[j].cursors, url))
    && (forall i, url :: 0 <= i < |trace| ==> Timestamp(trace[i].cursors, url) <= Timestamp(last.cursors, url))
  }

  lemma InsertIsSane(w: World, t0: Tables, t: Tables, records: seq<Row>)
    requires Sane(w, t0, t)
    ensures Sane(w, t0, Inserted(t, records))
    ensures t.stored <= Inserted(t, records).stored && Elems(records) <= Inserted(t, records).stored
  {
    AddAllElems(t.stored, records);
  }

  lemma OnePerKeyPrefix(pending: seq<Cursor>, n: nat)
    requires OnePerKey(pending) && n <= |pending|
    ensures OnePerKey(pending[..n])
    ensures forall p :: p in pending[..n] ==> p in pending
  {
  }

  /** Upserting justified cursors is safe once everything taken is stored. */
  lemma UpsertIsSane(w: World, t0: Tables, t: Tables, taken: seq<Row>, records: seq<Cursor>)
    requires Covered(w, t0) && Sane(w, t0, t) && OnePerKey(records)
    requires forall r :: r in taken ==> r in t.stored
    requires forall p :: p in records ==>
        Justified(w, t0, taken, p) && p.key in t0.relays && Timestamp(t.cursors, p.key) <= p.timestamp
    ensures Sane(w, t0, Upserted(t, records))
    ensures forall url :: Timestamp(t.cursors, url) <= Timestamp(Upserted(t, records).cursors, url)
  {
    var u := Upserted(t, records);
    forall url
      ensures Timestamp(t.cursors, url) <= Timestamp(u.cursors, url)
      ensures url in u.cursors ==> url in t.relays
    {
      UpsertEffect(t.cursors, records, url);
    }
    forall url, e | DueAt(w, url, e) && e.createdAt < Timestamp(u.cursors, url)
      ensures Row(ToEvent(e), url) in u.stored
    {
      UpsertEffect(t.cursors, records, url);
      if Mentions(records, url) {
        var p :| p in records && p.key == url;
        assert Justified(w, t0, taken, p);
      }
    }
  }

  lemma InsertTraceIsSane(w: World, t0: Tables, t: Tables, records: seq<Row>, size: nat, k: nat)
    requires size >= 1 && Sane(w, t0, t) && k < |InsertTrace(t, records, size)|
    ensures Sane(w, t0, InsertTrace(t, records, size)[k])
    ensures InsertTrace(t, records, size)[k].cursors == t.cursors
  {
    WritesCompose();
    ChunkTraceIsPrefixes(Inserted, t, records, size, k);
    InsertIsSane(w, t0, t, records[..Written(k, size, |records|)]);
  }

  lemma UpsertTraceIsSane(w: World, t0: Tables, t: Tables, taken: seq<Row>, records: seq<Cursor>, size: nat, k: nat)
    requires size >= 1 && k < |UpsertTrace(t, records, size)|
    requires Covered(w, t0) && Sane(w, t0, t) && OnePerKey(records)
    requires forall r :: r in taken ==> r in t.stored
    requires forall p :: p in records ==>
        Justified(w, t0, taken, p) && p.key in t0.relays && Timestamp(t.cursors, p.key) <= p.timestamp
    ensures Sane(w, t0, UpsertTrace(t, records, size)[k])
    ensures forall url :: Timestamp(t.cursors, url) <= Timestamp(UpsertTrace(t, records, size)[k].cursors, url)
  {
    WritesCompose();
    ChunkTraceIsPrefixes(Upserted, t, records, size, k);
    var n := Written(k, size, |records|);
    OnePerKeyPrefix(records, n);
    UpsertIsSane(w, t0, t, taken, records[..n]);
  }

  /** A longer prefix of the pending cursors leaves every timestamp at least as late. */
  lemma UpsertPrefixesGrow(t: Tables, records: seq<Cursor>, n: nat, m: nat, url: Url)
    requires n <= m <= |records| && OnePerKey(records)
    requires forall p :: p in records ==> Timestamp(t.cursors, p.key) <= p.timestamp
    ensures Timestamp(Upserted(t, records[..n]).cursors, url) <= Timestamp(Upserted(t, records[..m]).cursors, url)
  {
    OnePerKeyPrefix(records, n);
    OnePerKeyPrefix(records, m);
    UpsertEffect(t.cursors, records[..n], url);
    UpsertEffect(t.cursors, records[..m], url);
    if Mentions(records[..n], url) {
      var p :| p in records[..n] && p.key == url;
      assert records[..m][..n] == records[..n];
      assert p in records[..m];
    } else if Mentions(records[..m], url) {
      var p :| p in records[..m] && p.key == url;
      assert p in records;
    }
  }

  lemma UpsertTraceIsOrdered(t: Tables, records: seq<Cursor>, size: nat)
    requires size >= 1 && OnePerKey(records)
    requires forall p :: p in records ==> Timestamp(t.cursors, p.key) <= p.timestamp
    ensures Ordered(UpsertTrace(t, records, size), Upserted(t, records))
  {
    WritesCompose();
    var trace := UpsertTrace(t, records, size);
    assert records[..|records|] == records;
    forall i, url | 0 <= i < |trace|
      ensures Timestamp(trace[i].cursors, url) <= Timestamp(Upserted(t, records).cursors, url)
    {
      ChunkTraceIsPrefixes(Upserted, t, records, size, i);
      UpsertPrefixesGrow(t, records, Written(i, size, |records|), |records|, url);
    }
    forall i, j, url | 0 <= i < j < |trace|
      ensures Timestamp(trace[i].cursors, url) <= Timestamp(trace[j].cursors, url)
    {
      ChunkTraceIsPrefixes(Upserted, t, records, size, i);
      ChunkTraceIsPrefixes(Upserted, t, records, size, j);
      WrittenGrows(i, j, size, |records|);
      UpsertPrefixesGrow(t, records, Written(i, size, |records|), Written(j, size, |records|), url);
    }
  }

  /** Traces with no decrease join if every state of the second starts at or after the end of the first. */
  lemma OrderedJoin(a: seq<Tables>, mid: Tables, b: seq<Tables>, last: Tables)
    requires Ordered(a, mid) && Ordered(b, last)
    requires forall i, url :: 0 <= i < |b| ==> Timestamp(mid.cursors, url) <= Timestamp(b[i].cursors, url)
    requires forall url :: Timestamp(mid.cursors, url) <= Timestamp(last.cursors, url)
    ensures Ordered(a + b, last)
  {
    var s := a + b;
    forall i, j, url | 0 <= i < j < |s|
      ensures Timestamp(s[i].cursors, url) <= Timestamp(s[j].cursors, url)
    {
      assert s[i] == if i < |a| then a[i] else b[i - |a|];
      assert s[j] == if j < |a| then a[j] else b[j - |a|];
      if i < |a| <= j {
        assert Timestamp(a[i].cursors, url) <= Timestamp(mid.cursors, url) <= Timestamp(b[j - |a|].cursors, url);
      }
    }
  }

  lemma FlushKeepsOrder(w: World, t0: Tables, c: Cycle, taken: seq<Row>, rest: seq<Row>, size: nat)
    requires size >= 1 && Covered(w, t0) && CycleInv(w, t0, c, taken, rest)
    ensures var f := Flush(c, size);
            Ordered(f.trace, f.tables)
  {
    var inserts := InsertTrace(c.tables, c.buffer, size);
    var stored := Inserted(c.tables, c.buffer);
    var upserts := UpsertTrace(stored, c.pending, size);
    forall k | 0 <= k < |inserts| ensures inserts[k].cursors == c.tables.cursors {
      InsertTraceIsSane(w, t0, c.tables, c.buffer, size, k);
    }
    OrderedJoin(c.trace, c.tables, inserts, stored);
    StoredAfterInsert(w, t0, c, taken, rest);
    UpsertTraceIsOrdered(stored, c.pending, size);
    forall k, url | 0 <= k < |upserts| ensures Timestamp(stored.cursors, url) <= Timestamp(upserts[k].cursors, url) {
      UpsertTraceIsSane(w, t0, stored, taken, c.pending, size, k);
    }
    UpsertIsSane(w, t0, stored, taken, c.pending);
    OrderedJoin(c.trace + inserts, stored, upserts, Upserted(stored, c.pending));
  }

  /** After the insert, all that was taken is stored. */
  lemma StoredAfterInsert(w: World, t0: Tables, c: Cycle, taken: seq<Row>, rest: seq<Row>)
    requires CycleInv(w, t0, c, taken, rest)
    ensures Sane(w, t0, Inserted(c.tables, c.buffer))
    ensures forall r :: r in taken ==> r in Inserted(c.tables, c.buffer).stored
  {
    InsertIsSane(w, t0, c.tables, c.buffer);
    forall r | r in taken ensures r in Inserted(c.tables, c.buffer).stored {
      assert r in c.buffer ==> r in Elems(c.buffer);
    }
  }

  lemma FlushIsSane(w: World, t0: Tables, c: Cycle, taken: seq<Row>, rest: seq<Row>, size: nat)
    requires size >= 1 && Covered(w, t0) && CycleInv(w, t0, c, taken, rest)
    ensures var f := Flush(c, size);
            Sane(w, t0, f.tables) && forall i :: 0 <= i < |f.trace| ==> Sane(w, t0, f.trace[i])
  {
    var inserts := InsertTrace(c.tables, c.buffer, size);
    var stored := Inserted(c.tables, c.buffer);
    var upserts := UpsertTrace(stored, c.pending, size);
    StoredAfterInsert(w, t0, c, taken, rest);
    UpsertIsSane(w, t0, stored, taken, c.pending);
    var f := Flush(c, size);
    forall i | 0 <= i < |f.trace| ensures Sane(w, t0, f.trace[i]) {
      var k := i - |c.trace|;
      if 0 <= k < |inserts| {
        InsertTraceIsSane(w, t0, c.tables, c.buffer, size, k);
        assert f.trace[i] == inserts[k];
      } else if |inserts| <= k {
        UpsertTraceIsSane(w, t0, stored, taken, c.pending, size, k - |inserts|);
        assert f.trace[i] == upserts[k - |inserts|];
      }
    }
  }

  lemma FlushKeepsRest(w: World, t0: Tables, c: Cycle, taken: seq<Row>, rest: seq<Row>, size: nat, r: Row)
    requires size >= 1 && CycleInv(w, t0, c, taken, rest) && r in rest
    ensures Timestamp(Flush(c, size).tables.cursors, r.relay) <= r.event.createdAt
  {
    UpsertEffect(c.tables.cursors, c.pending, r.relay);
    if Mentions(c.pending, r.relay) {
      var p :| p in c.pending && p.key == r.relay;
    }
  }

  lemma FlushKeepsInv(w: World, t0: Tables, c: Cycle, taken: seq<Row>, rest: seq<Row>, size: nat)
    requires size >= 1 && Covered(w, t0) && CycleInv(w, t0, c, taken, rest)
    ensures CycleInv(w, t0, Flush(c, size), taken, rest)
  {
    FlushIsSane(w, t0, c, taken, rest, size);
    FlushKeepsOrder(w, t0, c, taken, rest, size);
    StoredAfterInsert(w, t0, c, taken, rest);
    forall r | r in rest ensures Timestamp(Flush(c, size).tables.cursors, r.relay) <= r.event.createdAt {
      FlushKeepsRest(w, t0, c, taken, rest, size, r);
    }
  }

  function Taken(c: Cycle, row: Row): Cycle {
    c.(buffer := c.buffer + [row], pending := Put(c.pending, RowCursor(row)))
  }

  lemma TakeKeepsInv(w: World, t0: Tables, c: Cycle, taken: seq<Row>, row: Row, rest: seq<Row>)
    requires CycleInv(w, t0, c, taken, [row] + rest)
    requires row.relay in t0.relays && NothingSkipped(w, t0, taken, row)
    requires forall r :: r in rest && r.relay == row.relay ==> row.event.createdAt <= r.event.createdAt
    ensures CycleInv(w, t0, Taken(c, row), taken + [row], rest)
  {
    PutElems(c.pending, RowCursor(row));
    assert row in [row] + rest;
    assert forall r :: r in rest ==> r in [row] + rest;
    forall p | p in Put(c.pending, RowCursor(row)) ensures Justified(w, t0, taken + [row], p) {
      assert p in c.pending ==> Justified(w, t0, taken, p);
    }
  }

  lemma StartInv(w: World, t0: Tables, arrivals: seq<Row>)
    requires Covered(w, t0) && t0.cursors.Keys <= t0.relays && InOrder(w, t0, arrivals)
    ensures CycleInv(w, t0, Cycle(t0, [], [], [], false), [], arrivals)
  {
    forall r | r in arrivals ensures Timestamp(t0.cursors, r.relay) <= r.event.createdAt {
      var i :| 0 <= i < |arrivals| && arrivals[i] == r;
      assert Fits(w, t0, arrivals, i);
    }
  }

  lemma StopKeepsInv(w: World, t0: Tables, c: Cycle, taken: seq<Row>, rest: seq<Row>, stopped: bool)
    requires CycleInv(w, t0, c, taken, rest)
    ensures CycleInv(w, t0, c.(stopped := stopped), taken, rest)
  {
  }

  lemma TakeRow(w: World, t0: Tables, c: Cycle, taken: seq<Row>, row: Row, rest: seq<Row>, batchSize: nat,
          size: nat, expired: bool)
    requires size >= 1 && Covered(w, t0) && !c.stopped && CycleInv(w, t0, c, taken, [row] + rest)
    requires row.relay in t0.relays && NothingSkipped(w, t0, taken, row)
    requires forall r :: r in rest && r.relay == row.relay ==> row.event.createdAt <= r.event.createdAt
    ensures CycleInv(w, t0, Take(c, row, batchSize, size, expired), taken + [row], rest)
    ensures Take(c, row, batchSize, size, expired).stopped ==> expired
  {
    TakeKeepsInv(w, t0, c, taken, row, rest);
    if |Taken(c, row).buffer| == batchSize {
      FlushKeepsInv(w, t0, Taken(c, row), taken + [row], rest, size);
      StopKeepsInv(w, t0, Flush(Taken(c, row), size), taken + [row], rest, expired);
    }
  }

  lemma TakeNext(w: World, t0: Tables, c: Cycle, arrivals: seq<Row>, k: nat, batchSize: nat, size: nat, expired: bool)
    requires size >= 1 && k < |arrivals| && Covered(w, t0) && Fits(w, t0, arrivals, k)
    requires !c.stopped && CycleInv(w, t0, c, arrivals[..k], arrivals[k..])
    ensures CycleInv(w, t0, Take(c, arrivals[k], batchSize, size, expired), arrivals[..k + 1], arrivals[k + 1..])
  {
    var row, rest := arrivals[k], arrivals[k + 1..];
    assert arrivals[k..] == [row] + rest && arrivals[..k + 1] == arrivals[..k] + [row];
    TakeRow(w, t0, c, arrivals[..k], row, rest, batchSize, size, expired);
  }

  /** The invariant holds for the `m` rows that were taken before the stream was stopped. */
  lemma {:induction false} CollectKeepsInv(w: World, t0: Tables, arrivals: seq<Row>, k: nat, batchSize: nat,
          size: nat, expired: nat -> bool) returns (m: nat)
    requires size >= 1 && k <= |arrivals| && Covered(w, t0) && t0.cursors.Keys <= t0.relays && InOrder(w, t0, arrivals)
    ensures var c := Collect(Cycle(t0, [], [], [], false), arrivals[..k], batchSize, size, expired);
            m <= k && (!c.stopped ==> m == k) && CycleInv(w, t0, c, arrivals[..m], arrivals[m..])
  {
    var c0 := Cycle(t0, [], [], [], false);
    if k == 0 {
      m := 0;
      StartInv(w, t0, arrivals);
      assert arrivals[0..] == arrivals && arrivals[..0] == [];
    } else {
      m := CollectKeepsInv(w, t0, arrivals, k - 1, batchSize, size, expired);
      CollectNext(c0, arrivals, k - 1, batchSize, size, expired);
      var c := Collect(c0, arrivals[..k - 1], batchSize, size, expired);
      if !c.stopped {
        m := k;
        assert Fits(w, t0, arrivals, k - 1);
        TakeNext(w, t0, c, arrivals, k - 1, batchSize, size, expired(k - 1));
      }
    }
  }

  /** Every state of a cycle covers the due events, and the cursors only move forward. */
  lemma CycleIsSafe(w: World, t0: Tables, arrivals: seq<Row>, batchSize: nat, size: nat, expired: nat -> bool)
    requires size >= 1 && Covered(w, t0) && t0.cursors.Keys <= t0.relays && Legal(w, t0, arrivals)
    ensures var c := WholeCycle(t0, arrivals, batchSize, size, expired);
            && Sane(w, t0, c.tables) && Ordered(c.trace, c.tables)
            && forall i :: 0 <= i < |c.trace| ==> Sane(w, t0, c.trace[i])
  {
    LegalIsInOrder(w, t0, arrivals);
    var m := CollectKeepsInv(w, t0, arrivals, |arrivals|, batchSize, size, expired);
    assert arrivals[..|arrivals|] == arrivals;
    var c := Collect(Cycle(t0, [], [], [], false), arrivals, batchSize, size, expired);
    FlushKeepsInv(w, t0, c, arrivals[..m], arrivals[m..], size);
  }

  // ----- Whole runs -----

  /**
   One cycle of a run: cleanup, then a synchronization, cut short after `cut`
   database writes (or not at all); between cycles other services may add relays.
   */
  datatype Input = Input(arrivals: seq<Row>, batchSize: nat, size: nat, expired: nat -> bool, cut: nat)

  /** The states the database goes through, the first one before any write. */
  function CycleStates(t: Tables, input: Input): seq<Tables>
    requires input.size >= 1
  {
    [t, WithoutStale(t)] + WholeCycle(WithoutStale(t), input.arrivals, input.batchSize, input.size, input.expired).trace
  }

  ghost predicate Possible(w: World, before: Tables, input: Input, after: Tables) {
    && input.size >= 1 && input.cut < |CycleStates(before, input)|
    && Legal(w, WithoutStale(before), input.arrivals)
    && var left := CycleStates(before, input)[input.cut];
       left.relays <= after.relays && after == left.(relays := after.relays)
  }

  ghost predicate IsRun(w: World, states: seq<Tables>, inputs: seq<Input>) {
    && |states| == |inputs| + 1
    && states[0].stored == {} && states[0].cursors == map[]
    && forall i :: 0 <= i < |inputs| ==> PossibleAt(w, states, inputs, i)
  }

  ghost predicate PossibleAt(w: World, states: seq<Tables>, inputs: seq<Input>, i: nat)
    requires |states| == |inputs| + 1 && i < |inputs|
  {
    Possible(w, states[i], inputs[i], states[i + 1])
  }

  /** The cleanup and then the synchronization: the writes are those of a cycle, in this order. */
  method RunCycle(db: Brotr, arrivals: seq<Row>, batchSize: nat, expired: nat -> bool)
    returns (removed: nat, eventsSynced: nat)
    requires db.maxBatch >= 1 && batchSize >= 1
    modifies db
    ensures var states := CycleStates(old(db.tables), Input(arrivals, batchSize, db.maxBatch, expired, 0));
            db.history == old(db.history) + states[1..]
    ensures db.tables == WholeCycle(WithoutStale(old(db.tables)), arrivals, batchSize, db.maxBatch, expired).tables
    ensures exists m: nat :: TakesRows(|arrivals|, batchSize, expired, m)
              && Stores(WithoutStale(old(db.tables)), db.tables, arrivals[..m])
    ensures removed == |old(db.tables).cursors| - |WithoutStale(old(db.tables)).cursors|
    ensures eventsSynced == |db.tables.stored| - |old(db.tables).stored|
  {
    removed := db.DeleteStaleCursors();
    ghost var cleaned := db.tables;
    eventsSynced := Synchronize(db, arrivals, batchSize, expired);
    ghost var c := WholeCycle(cleaned, arrivals, batchSize, db.maxBatch, expired);
    ghost var m := CycleStores(cleaned, arrivals, batchSize, db.maxBatch, expired);
    HistoryStep(old(db.history), cleaned, c.trace);
    assert ([old(db.tables), cleaned] + c.trace)[1..] == [cleaned] + c.trace;
  }

  lemma StatesAreSane(w: World, t: Tables, input: Input, k: nat)
    requires input.size >= 1 && Covered(w, t) && t.cursors.Keys <= t.relays
    requires Legal(w, WithoutStale(t), input.arrivals) && k < |CycleStates(t, input)|
    ensures Sane(w, t, CycleStates(t, input)[k])
  {
    assert WithoutStale(t) == t;
    if k >= 2 {
      var trace := CycleIsSane(w, t, input);
      assert CycleStates(t, input)[k] == trace[k - 2];
      assert SaneAt(w, t, trace, k - 2);
    }
  }

  ghost predicate SaneAt(w: World, t0: Tables, trace: seq<Tables>, k: nat)
    requires k < |trace|
  {
    Sane(w, t0, trace[k])
  }

  lemma CycleIsSane(w: World, t: Tables, input: Input) returns (trace: seq<Tables>)
    requires input.size >= 1 && Covered(w, t) && t.cursors.Keys <= t.relays && Legal(w, t, input.arrivals)
    ensures trace == WholeCycle(t, input.arrivals, input.batchSize, input.size, input.expired).trace
    ensures forall k: nat :: k < |trace| ==> SaneAt(w, t, trace, k)
  {
    trace := WholeCycle(t, input.arrivals, input.batchSize, input.size, input.expired).trace;
    CycleIsSafe(w, t, input.arrivals, input.batchSize, input.size, input.expired);
  }

  lemma PossibleIsSane(w: World, before: Tables, input: Input, after: Tables)
    requires Covered(w, before) && before.cursors.Keys <= before.relays && Possible(w, before, input, after)
    ensures Covered(w, after) && after.cursors.Keys <= after.relays && before.stored <= after.stored
    ensures forall url :: Timestamp(before.cursors, url) <= Timestamp(after.cursors, url)
  {
    var left := CycleStates(before, input)[input.cut];
    StatesAreSane(w, before, input, input.cut);
    assert left.cursors == after.cursors && left.stored == after.stored;
  }

  ghost predicate Healthy(w: World, t: Tables) {
    Covered(w, t) && t.cursors.Keys <= t.relays
  }

  ghost predicate Later(a: Tables, b: Tables) {
    a.stored <= b.stored && forall url :: Timestamp(a.cursors, url) <= Timestamp(b.cursors, url)
  }

  lemma RunStep(w: World, states: seq<Tables>, inputs: seq<Input>, i: nat)
    requires IsRun(w, states, inputs) && i < |inputs| && Healthy(w, states[i])
    ensures Healthy(w, states[i + 1]) && Later(states[i], states[i + 1])
  {
    assert PossibleAt(w, states, inputs, i);
    PossibleIsSane(w, states[i], inputs[i], states[i + 1]);
  }

  lemma StartIsHealthy(w: World, states: seq<Tables>, inputs: seq<Input>)
    requires IsRun(w, states, inputs)
    ensures Healthy(w, states[0])
  {
  }

  /**
   No loss over whole runs: in every reachable state, each due event older than
   the persisted cursor of its relay is stored.
   */
  lemma {:induction false} EveryRunIsCovered(w: World, states: seq<Tables>, inputs: seq<Input>, i: nat)
    requires IsRun(w, states, inputs) && i < |states|
    ensures Healthy(w, states[i])
  {
    if i == 0 {
      StartIsHealthy(w, states, inputs);
    } else {
      EveryRunIsCovered(w, states, inputs, i - 1);
      RunStep(w, states, inputs, i - 1);
    }
  }

  /** Nothing stored is lost and no cursor moves back, over any part of a run. */
  lemma {:induction false} EveryRunMovesForward(w: World, states: seq<Tables>, inputs: seq<Input>, i: nat, j: nat)
    requires IsRun(w, states, inputs) && i <= j < |states|
    ensures Later(states[i], states[j])
    decreases j
  {
    if i < j {
      EveryRunMovesForward(w, states, inputs, i, j - 1);
      EveryRunIsCovered(w, states, inputs, j - 1);
      RunStep(w, states, inputs, j - 1);
    }
  }
}
