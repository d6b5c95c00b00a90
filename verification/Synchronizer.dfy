/**
 One cycle of the synchronizer: rows arrive from concurrent workers, are buffered,
 and each flush inserts the rows before it moves the cursors. The database is
 written chunk by chunk; the trace of a cycle lists the tables after each write,
 so its elements are what a crash may leave behind.
 */
module Synchronizer {
  import opened Keyset
  import opened Nostr
  import opened Batches
  import opened CursorStore

  /** An event as seen at a relay. */
  datatype Row = Row(event: Event, relay: Url)

  datatype Tables = Tables(relays: set<Url>, stored: set<Row>, cursors: map<Url, Key>)

  function RowCursor(row: Row): Cursor {
    Cursor(row.relay, row.event.createdAt, row.event.id)
  }

  // ----- Database writes -----

  /** Rows that are already present are left alone. */
  function AddAll(stored: set<Row>, records: seq<Row>): set<Row>
    decreases |records|
  {
    if records == [] then stored else AddAll(stored + {records[0]}, records[1..])
  }

  lemma {:induction false} AddAllElems(stored: set<Row>, records: seq<Row>)
    ensures AddAll(stored, records) == stored + Elems(records)
    decreases |records|
  {
    if records != [] {
      AddAllElems(stored + {records[0]}, records[1..]);
      assert Elems(records) == {records[0]} + Elems(records[1..]);
    }
  }

  lemma {:induction false} AddAllConcat(stored: set<Row>, a: seq<Row>, b: seq<Row>)
    ensures AddAll(stored, a + b) == AddAll(AddAll(stored, a), b)
    decreases |a|
  {
    if a == [] {
      assert a + b == b;
    } else {
      assert (a + b)[1..] == a[1..] + b;
      AddAllConcat(stored + {a[0]}, a[1..], b);
    }
  }

  function Inserted(t: Tables, records: seq<Row>): Tables {
    t.(stored := AddAll(t.stored, records))
  }

  function Upserted(t: Tables, records: seq<Cursor>): Tables {
    t.(cursors := Upsert(t.cursors, records))
  }

  function InsertTrace(t: Tables, records: seq<Row>, size: nat): seq<Tables>
    requires size >= 1
  {
    ChunkTrace(Inserted, t, records, size)
  }

  function UpsertTrace(t: Tables, records: seq<Cursor>, size: nat): seq<Tables>
    requires size >= 1
  {
    ChunkTrace(Upserted, t, records, size)
  }

  lemma WritesCompose()
    ensures Composes(Inserted) && Composes(Upserted)
  {
    forall t: Tables, a, b ensures Inserted(Inserted(t, a), b) == Inserted(t, a + b) {
      AddAllConcat(t.stored, a, b);
    }
    forall t: Tables, a, b ensures Upserted(Upserted(t, a), b) == Upserted(t, a + b) {
      UpsertConcat(t.cursors, a, b);
    }
  }

  /** Deletes the cursors of relays that are not in the relay table. */
  function WithoutStale(t: Tables): Tables {
    t.(cursors := map url | url in t.cursors && url in t.relays :: t.cursors[url])
  }

  // ----- A cycle -----

  datatype Cycle = Cycle(tables: Tables, buffer: seq<Row>, pending: seq<Cursor>, trace: seq<Tables>, stopped: bool)

  /** Rows first, cursors second. */
  function Flush(c: Cycle, size: nat): Cycle
    requires size >= 1
  {
    var inserted := Inserted(c.tables, c.buffer);
    Cycle(Upserted(inserted, c.pending), [], [],
          c.trace + InsertTrace(c.tables, c.buffer, size) + UpsertTrace(inserted, c.pending, size), c.stopped)
  }

  /** The consumer takes one row; after a flush it stops if the deadline has passed. */
  function Take(c: Cycle, row: Row, batchSize: nat, size: nat, expired: bool): Cycle
    requires size >= 1
  {
    if c.stopped then c
    else
      var taken := c.(buffer := c.buffer + [row], pending := Put(c.pending, RowCursor(row)));
      if |taken.buffer| == batchSize then Flush(taken, size).(stopped := expired) else taken
  }

  function Collect(c: Cycle, arrivals: seq<Row>, batchSize: nat, size: nat, expired: nat -> bool): Cycle
    requires size >= 1
    decreases |arrivals|
  {
    if arrivals == [] then c
    else
      var n := |arrivals| - 1;
      Take(Collect(c, arrivals[..n], batchSize, size, expired), arrivals[n], batchSize, size, expired(n))
  }

  function WholeCycle(t: Tables, arrivals: seq<Row>, batchSize: nat, size: nat, expired: nat -> bool): Cycle
    requires size >= 1
  {
    Flush(Collect(Cycle(t, [], [], [], false), arrivals, batchSize, size, expired), size)
  }

  // ----- The service -----

  /** The database; `history` lists the tables after every write. */
  class Brotr {
    const maxBatch: nat
    var tables: Tables
    ghost var history: seq<Tables>

    constructor (maxBatch: nat, tables: Tables)
      ensures this.maxBatch == maxBatch && this.tables == tables && history == []
    {
      this.maxBatch := maxBatch;
      this.tables := tables;
      history := [];
    }

    method InsertEventRelay(chunk: seq<Row>) returns (inserted: nat)
      modifies this
      ensures tables == Inserted(old(tables), chunk)
      ensures history == old(history) + [tables]
      ensures inserted == |tables.stored| - |old(tables.stored)|
    {
      var rows := set r | r in chunk;
      var absent := rows - tables.stored;
      assert tables.stored + rows == tables.stored + absent;
      AddAllElems(tables.stored, chunk);
      inserted := |absent|;
      tables := tables.(stored := tables.stored + rows);
      history := history + [tables];
    }

    method UpsertServiceState(chunk: seq<Cursor>)
      modifies this
      ensures tables == Upserted(old(tables), chunk)
      ensures history == old(history) + [tables]
    {
      var cursors := tables.cursors;
      for i := 0 to |chunk|
        invariant Upsert(cursors, chunk[i..]) == Upsert(tables.cursors, chunk)
        invariant tables == old(tables) && history == old(history)
      {
        assert chunk[i..][1..] == chunk[i + 1..];
        cursors := cursors[chunk[i].key := Position(chunk[i])];
      }
      tables := tables.(cursors := cursors);
      history := history + [tables];
    }

    method InsertEventRelays(records: seq<Row>) returns (total: nat)
      requires maxBatch >= 1
      modifies this
      ensures tables == Inserted(old(tables), records)
      ensures history == old(history) + InsertTrace(old(tables), records, maxBatch)
      ensures total == |tables.stored| - |old(tables.stored)|
    {
      total := 0;
      var i := 0;
      while i < |records|
        invariant i <= |records|
        invariant Chunked(Inserted, tables, history, records, i, maxBatch)
               == Chunked(Inserted, old(tables), old(history), records, 0, maxBatch)
        invariant total == |tables.stored| - |old(tables.stored)|
      {
        var end := Min(i + maxBatch, |records|);
        var inserted := InsertEventRelay(records[i..end]);
        total := total + inserted;
        i := end;
      }
      AllInserted(old(tables), old(history), records, maxBatch);
    }

    method UpsertSyncCursors(records: seq<Cursor>)
      requires maxBatch >= 1
      modifies this
      ensures tables == Upserted(old(tables), records)
      ensures history == old(history) + UpsertTrace(old(tables), records, maxBatch)
    {
      var i := 0;
      while i < |records|
        invariant i <= |records|
        invariant Chunked(Upserted, tables, history, records, i, maxBatch)
               == Chunked(Upserted, old(tables), old(history), records, 0, maxBatch)
      {
        var end := Min(i + maxBatch, |records|);
        UpsertServiceState(records[i..end]);
        i := end;
      }
      AllUpserted(old(tables), old(history), records, maxBatch);
    }

    /** Deletes the cursors without a relay one by one, in one statement, and counts them. */
    method DeleteStaleCursors() returns (count: nat)
      modifies this
      ensures tables == WithoutStale(old(tables))
      ensures forall url :: url in tables.cursors <==> url in old(tables.cursors) && url in old(tables.relays)
      ensures forall url :: url in tables.cursors ==> tables.cursors[url] == old(tables.cursors)[url]
      ensures history == old(history) + [tables]
      ensures count == |old(tables).cursors| - |tables.cursors|
    {
      count := 0;
      var cursors, rest := tables.cursors, tables.cursors.Keys;
      while rest != {}
        invariant tables == old(tables) && history == old(history)
        invariant rest <= tables.cursors.Keys && count + |cursors| == |tables.cursors|
        invariant forall url :: url in cursors <==> url in tables.cursors && (url in tables.relays || url in rest)
        invariant forall url :: url in cursors ==> cursors[url] == tables.cursors[url]
        decreases rest
      {
        var url :| url in rest;
        rest := rest - {url};
        if url !in tables.relays {
          ghost var before := cursors;
          cursors := cursors - {url};
          RemoveOne(before, url);
          count := count + 1;
        }
      }
      tables := tables.(cursors := cursors);
      assert tables == WithoutStale(old(tables));
      history := history + [tables];
    }
  }

  lemma RemoveOne(cursors: map<Url, Key>, url: Url)
    requires url in cursors
    ensures |cursors - {url}| == |cursors| - 1
  {
    assert (cursors - {url}).Keys == cursors.Keys - {url};
    assert |cursors - {url}| == |(cursors - {url}).Keys| && |cursors| == |cursors.Keys|;
  }

  lemma AllInserted(t: Tables, history: seq<Tables>, records: seq<Row>, size: nat)
    requires size >= 1
    ensures Chunked(Inserted, t, history, records, 0, size)
         == (Inserted(t, records), history + InsertTrace(t, records, size))
  {
    WritesCompose();
    ChunkedFromStart(Inserted, t, history, records, size);
  }

  lemma AllUpserted(t: Tables, history: seq<Tables>, records: seq<Cursor>, size: nat)
    requires size >= 1
    ensures Chunked(Upserted, t, history, records, 0, size)
         == (Upserted(t, records), history + UpsertTrace(t, records, size))
  {
    WritesCompose();
    ChunkedFromStart(Upserted, t, history, records, size);
  }

  /** An empty batch is no write at all. */
  method FlushBatch(db: Brotr, buffer: seq<Row>, pendingCursors: seq<Cursor>, ghost c: Cycle,
          ghost past: seq<Tables>) returns (inserted: nat)
    requires db.maxBatch >= 1 && c.tables == db.tables && c.buffer == buffer && c.pending == pendingCursors
    requires db.history == past + c.trace
    modifies db
    ensures var flushed := Flush(c, db.maxBatch);
            db.tables == flushed.tables && db.history == past + flushed.trace
    ensures inserted == |db.tables.stored| - |old(db.tables.stored)|
  {
    ghost var inserts := InsertTrace(db.tables, buffer, db.maxBatch);
    ghost var upserts := UpsertTrace(Inserted(db.tables, buffer), pendingCursors, db.maxBatch);
    inserted := 0;
    if buffer != [] {
      inserted := db.InsertEventRelays(buffer);
    }
    assert db.tables == Inserted(c.tables, buffer) && db.history == past + c.trace + inserts;
    if pendingCursors != [] {
      db.UpsertSyncCursors(pendingCursors);
    }
    assert db.history == past + c.trace + inserts + upserts;
    Regroup(past, c.trace, inserts);
    Regroup(past, c.trace + inserts, upserts);
  }

  /**
   `arrivals` is what the concurrent merge delivers, in its order; `expired(i)`
   says that the deadline has passed when row `i` has been taken.
   */
  method Synchronize(db: Brotr, arrivals: seq<Row>, batchSize: nat, expired: nat -> bool) returns (eventsSynced: nat)
    requires db.maxBatch >= 1 && batchSize >= 1
    modifies db
    ensures var c := WholeCycle(old(db.tables), arrivals, batchSize, db.maxBatch, expired);
            db.tables == c.tables && db.history == old(db.history) + c.trace
    ensures eventsSynced == |db.tables.stored| - |old(db.tables.stored)|
  {
    eventsSynced := 0;
    var buffer: seq<Row> := [];
    var pendingCursors: seq<Cursor> := [];
    ghost var c0 := Cycle(db.tables, [], [], [], false);
    ghost var c := c0;
    var i := 0;
    while i < |arrivals|
      invariant i <= |arrivals| && c == Collect(c0, arrivals[..i], batchSize, db.maxBatch, expired)
      invariant c == Cycle(db.tables, buffer, pendingCursors, c.trace, false)
      invariant db.history == old(db.history) + c.trace
      invariant eventsSynced == |db.tables.stored| - |old(db.tables.stored)|
    {
      var row := arrivals[i];
      ghost var taken := c.(buffer := buffer + [row], pending := Put(pendingCursors, RowCursor(row)));
      ghost var next := Take(c, row, batchSize, db.maxBatch, expired(i));
      CollectNext(c0, arrivals, i, batchSize, db.maxBatch, expired);
      buffer := buffer + [row];
      pendingCursors := Put(pendingCursors, RowCursor(row));
      i := i + 1;
      if |buffer| == batchSize {
        var inserted := FlushBatch(db, buffer, pendingCursors, taken, old(db.history));
        eventsSynced := eventsSynced + inserted;
        buffer, pendingCursors := [], [];
        assert next == Flush(taken, db.maxBatch).(stopped := expired(i - 1));
        c := next;
        if expired(i - 1) {
          StoppedStays(c0, arrivals, i, batchSize, db.maxBatch, expired);
          break;
        }
      } else {
        assert next == taken;
        c := next;
      }
    }
    assert i == |arrivals| ==> arrivals[..i] == arrivals;
    assert c == Collect(c0, arrivals, batchSize, db.maxBatch, expired);
    var inserted := FlushBatch(db, buffer, pendingCursors, c, old(db.history));
    eventsSynced := eventsSynced + inserted;
  }

  lemma CollectNext(c: Cycle, arrivals: seq<Row>, i: nat, batchSize: nat, size: nat, expired: nat -> bool)
    requires size >= 1 && i < |arrivals|
    ensures Collect(c, arrivals[..i + 1], batchSize, size, expired)
         == Take(Collect(c, arrivals[..i], batchSize, size, expired), arrivals[i], batchSize, size, expired(i))
  {
    assert arrivals[..i + 1][..i] == arrivals[..i];
  }

  lemma {:induction false} StoppedStays(c: Cycle, arrivals: seq<Row>, i: nat, batchSize: nat, size: nat,
          expired: nat -> bool)
    requires size >= 1 && i <= |arrivals| && Collect(c, arrivals[..i], batchSize, size, expired).stopped
    ensures Collect(c, arrivals, batchSize, size, expired) == Collect(c, arrivals[..i], batchSize, size, expired)
    decreases |arrivals| - i
  {
    if i == |arrivals| {
      assert arrivals[..i] == arrivals;
    } else {
      assert arrivals[..i + 1][..i] == arrivals[..i];
      StoppedStays(c, arrivals, i + 1, batchSize, size, expired);
    }
  }
}
