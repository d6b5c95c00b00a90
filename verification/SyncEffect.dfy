/** What a cycle of the synchronizer stores, told by the rows that arrive and the deadline. */
module SyncEffect {
  import opened Arith
  import opened Keyset
  import opened Nostr
  import opened Batches
  import opened CursorStore
  import opened Synchronizer

  predicate IsLast(rows: seq<Row>, i: nat)
    requires i < |rows|
  {
    forall j :: i < j < |rows| ==> rows[j].relay != rows[i].relay
  }

  predicate Occurs(rows: seq<Row>, url: Url) {
    exists i :: 0 <= i < |rows| && rows[i].relay == url
  }

  ghost predicate SameCursor(t: Tables, u: Tables, url: Url) {
    (url in u.cursors <==> url in t.cursors) && (url in u.cursors ==> u.cursors[url] == t.cursors[url])
  }

  /** `u` is `t` with `rows` stored, and with the cursor of each of their relays at its last row. */
  ghost predicate Stores(t: Tables, u: Tables, rows: seq<Row>) {
    && u.relays == t.relays
    && (forall r :: r in u.stored <==> r in t.stored || r in rows)
    && (forall i :: 0 <= i < |rows| && IsLast(rows, i) ==>
          && rows[i].relay in u.cursors
          && u.cursors[rows[i].relay] == Key(rows[i].event.createdAt, rows[i].event.id))
    && (forall url :: !Occurs(rows, url) ==> SameCursor(t, u, url))
  }

  /** The first `n` rows end with a full batch, and the deadline has then passed. */
  predicate StopsAt(batchSize: nat, expired: nat -> bool, n: nat)
    requires batchSize >= 1
  {
    n > 0 && n % batchSize == 0 && expired(n - 1)
  }

  /** Of `total` rows a cycle takes `m`: up to its first stop, or all of them. */
  ghost predicate TakesRows(total: nat, batchSize: nat, expired: nat -> bool, m: nat)
    requires batchSize >= 1
  {
    && m <= total && (m == total || StopsAt(batchSize, expired, m))
    && (forall i: nat :: i < m ==> !StopsAt(batchSize, expired, i))
  }

  /** The tables if the pending rows and cursors were written now. */
  function Flushed(c: Cycle): Tables {
    Upserted(Inserted(c.tables, c.buffer), c.pending)
  }

  /** After the first `n` rows some state of the trace has exactly them. */
  ghost predicate Persisted(t: Tables, trace: seq<Tables>, rows: seq<Row>, n: nat)
    requires n <= |rows|
  {
    exists k :: 0 <= k < |trace| && Stores(t, trace[k], rows[..n])
  }

  ghost predicate BatchesPersist(t: Tables, trace: seq<Tables>, rows: seq<Row>, batchSize: nat)
    requires batchSize >= 1
  {
    forall n: nat :: 0 < n <= |rows| && n % batchSize == 0 ==> Persisted(t, trace, rows, n)
  }

  /** What is known once `rows` are taken. */
  ghost predicate Holds(t: Tables, c: Cycle, rows: seq<Row>, batchSize: nat)
    requires batchSize >= 1
  {
    && OnePerKey(c.pending) && |c.buffer| == |rows| % batchSize
    && Stores(t, Flushed(c), rows)
    && BatchesPersist(t, c.trace, rows, batchSize)
  }

  /** A pending cursor counts as if it were written last. */
  lemma UpsertPut(cursors: map<Url, Key>, pending: seq<Cursor>, c: Cursor)
    requires OnePerKey(pending)
    ensures Upsert(cursors, Put(pending, c)) == Upsert(cursors, pending)[c.key := Position(c)]
  {
    var after, before := Upsert(cursors, Put(pending, c)), Upsert(cursors, pending);
    PutElems(pending, c);
    forall url
      ensures url in after <==> url in before || url == c.key
      ensures url in after ==> after[url] == before[c.key := Position(c)][url]
    {
      UpsertEffect(cursors, pending, url);
      UpsertEffect(cursors, Put(pending, c), url);
      if url == c.key {
        assert c in Put(pending, c);
      } else if Mentions(pending, url) {
        var p :| p in pending && p.key == url;
        assert p in Put(pending, c);
      }
    }
  }

  lemma StoresNext(t: Tables, u: Tables, rows: seq<Row>, row: Row, next: Tables)
    requires Stores(t, u, rows)
    requires next == u.(stored := u.stored + {row},
                        cursors := u.cursors[row.relay := Key(row.event.createdAt, row.event.id)])
    ensures Stores(t, next, rows + [row])
  {
    var more := rows + [row];
    forall i | 0 <= i < |more| && IsLast(more, i)
      ensures more[i].relay in next.cursors
      ensures next.cursors[more[i].relay] == Key(more[i].event.createdAt, more[i].event.id)
    {
      if i < |rows| {
        assert more[|rows|].relay != more[i].relay;
        assert forall j :: i < j < |rows| ==> rows[j] == more[j];
      }
    }
    forall url | Occurs(rows, url) ensures Occurs(more, url) {
      var i :| 0 <= i < |rows| && rows[i].relay == url;
      assert more[i].relay == url;
    }
    forall url | !Occurs(more, url) ensures SameCursor(t, next, url) {
      assert more[|rows|].relay != url;
    }
  }

  lemma FlushedNext(c: Cycle, row: Row, taken: Cycle)
    requires OnePerKey(c.pending)
    requires taken == c.(buffer := c.buffer + [row], pending := Put(c.pending, RowCursor(row)))
    ensures Flushed(taken) == Flushed(c).(
                stored := Flushed(c).stored + {row},
                cursors := Flushed(c).cursors[row.relay := Key(row.event.createdAt, row.event.id)])
  {
    AddAllConcat(c.tables.stored, c.buffer, [row]);
    AddAllElems(AddAll(c.tables.stored, c.buffer), [row]);
    UpsertPut(c.tables.cursors, c.pending, RowCursor(row));
  }

  /** A flush ends with everything written, in a state of its trace. */
  lemma FlushWrites(c: Cycle, size: nat)
    requires size >= 1
    ensures Flush(c, size).tables == Flushed(c) == Flushed(Flush(c, size))
    ensures c.trace <= Flush(c, size).trace
    ensures c.pending != [] ==> Flush(c, size).trace != [] && Last(Flush(c, size).trace) == Flushed(c)
  {
    var inserted := Inserted(c.tables, c.buffer);
    var before := c.trace + InsertTrace(c.tables, c.buffer, size);
    if c.pending != [] {
      WritesCompose();
      ChunkTraceLast(Upserted, inserted, c.pending, size);
      LastOfSum(before, UpsertTrace(inserted, c.pending, size));
    }
  }

  lemma LastOfSum<T>(a: seq<T>, b: seq<T>)
    requires b != []
    ensures Last(a + b) == Last(b)
  {
  }

  function Last<T>(s: seq<T>): T
    requires s != []
  {
    s[|s| - 1]
  }

  lemma PersistedExtends(t: Tables, trace: seq<Tables>, longer: seq<Tables>, rows: seq<Row>, more: seq<Row>,
          batchSize: nat)
    requires batchSize >= 1 && trace <= longer && rows <= more && |more| == |rows| + 1
    requires BatchesPersist(t, trace, rows, batchSize)
    requires |more| % batchSize == 0 ==> longer != [] && Stores(t, Last(longer), more)
    ensures BatchesPersist(t, longer, more, batchSize)
  {
    forall n: nat | 0 < n <= |more| && n % batchSize == 0 ensures Persisted(t, longer, more, n) {
      if n <= |rows| {
        assert Persisted(t, trace, rows, n);
        assert rows[..n] == more[..n];
        var k :| 0 <= k < |trace| && Stores(t, trace[k], rows[..n]);
        assert longer[k] == trace[k];
      } else {
        assert more[..n] == more;
      }
    }
  }

  lemma OneMore(n: nat, batchSize: nat)
    requires batchSize >= 1
    ensures (n + 1) % batchSize == if n % batchSize + 1 == batchSize then 0 else n % batchSize + 1
  {
    var q, r := n / batchSize, n % batchSize;
    assert n == q * batchSize + r;
    if r + 1 == batchSize {
      Distributes(q, 1, batchSize);
      Remainder(q + 1, 0, n + 1, batchSize);
    } else {
      Remainder(q, r + 1, n + 1, batchSize);
    }
  }

  lemma TakeHolds(t: Tables, c: Cycle, rows: seq<Row>, row: Row, batchSize: nat, size: nat, expired: bool)
    returns (next: Cycle)
    requires size >= 1 && batchSize >= 1 && !c.stopped && Holds(t, c, rows, batchSize)
    ensures next == Take(c, row, batchSize, size, expired)
    ensures Holds(t, next, rows + [row], batchSize)
    ensures next.stopped <==> (|rows| + 1) % batchSize == 0 && expired
  {
    var more := rows + [row];
    var taken := c.(buffer := c.buffer + [row], pending := Put(c.pending, RowCursor(row)));
    next := Take(c, row, batchSize, size, expired);
    OneMore(|rows|, batchSize);
    PutElems(c.pending, RowCursor(row));
    assert RowCursor(row) in taken.pending;
    FlushedNext(c, row, taken);
    StoresNext(t, Flushed(c), rows, row, Flushed(taken));
    if |taken.buffer| == batchSize {
      FullBatchHolds(t, c, rows, row, taken, batchSize, size);
    } else {
      PersistedExtends(t, c.trace, c.trace, rows, more, batchSize);
    }
  }

  lemma FullBatchHolds(t: Tables, c: Cycle, rows: seq<Row>, row: Row, taken: Cycle, batchSize: nat, size: nat)
    requires size >= 1 && batchSize >= 1 && (|rows| + 1) % batchSize == 0
    requires BatchesPersist(t, c.trace, rows, batchSize) && taken.trace == c.trace
    requires Stores(t, Flushed(taken), rows + [row]) && taken.pending != []
    ensures var f := Flush(taken, size);
            && Stores(t, Flushed(f), rows + [row]) && f.buffer == [] && f.pending == []
            && BatchesPersist(t, f.trace, rows + [row], batchSize)
  {
    FlushWrites(taken, size);
    PersistedExtends(t, c.trace, Flush(taken, size).trace, rows, rows + [row], batchSize);
  }

  lemma TakesOneMore(k: nat, batchSize: nat, expired: nat -> bool, m: nat)
    requires batchSize >= 1 && TakesRows(k, batchSize, expired, m)
    ensures if StopsAt(batchSize, expired, m) then TakesRows(k + 1, batchSize, expired, m)
            else m == k && TakesRows(k + 1, batchSize, expired, k + 1)
  {
  }

  /** The first `k` rows, then the next one. */
  lemma CollectStep(t: Tables, arrivals: seq<Row>, k: nat, batchSize: nat, size: nat, expired: nat -> bool, c: Cycle)
    returns (next: Cycle)
    requires size >= 1 && batchSize >= 1 && k < |arrivals|
    requires c == Collect(Cycle(t, [], [], [], false), arrivals[..k], batchSize, size, expired)
    requires !c.stopped && Holds(t, c, arrivals[..k], batchSize)
    ensures next == Collect(Cycle(t, [], [], [], false), arrivals[..k + 1], batchSize, size, expired)
    ensures Holds(t, next, arrivals[..k + 1], batchSize)
    ensures next.stopped <==> StopsAt(batchSize, expired, k + 1)
  {
    CollectNext(Cycle(t, [], [], [], false), arrivals, k, batchSize, size, expired);
    next := TakeHolds(t, c, arrivals[..k], arrivals[k], batchSize, size, expired(k));
    assert arrivals[..k] + [arrivals[k]] == arrivals[..k + 1];
  }

  lemma CollectStopped(t: Tables, arrivals: seq<Row>, k: nat, batchSize: nat, size: nat, expired: nat -> bool, c: Cycle)
    requires size >= 1 && k < |arrivals| && c.stopped
    requires c == Collect(Cycle(t, [], [], [], false), arrivals[..k], batchSize, size, expired)
    ensures c == Collect(Cycle(t, [], [], [], false), arrivals[..k + 1], batchSize, size, expired)
  {
    CollectNext(Cycle(t, [], [], [], false), arrivals, k, batchSize, size, expired);
  }

  lemma NothingHolds(t: Tables, c: Cycle, batchSize: nat)
    requires batchSize >= 1 && c == Cycle(t, [], [], [], false)
    ensures Holds(t, c, [], batchSize)
  {
  }

  /** Before the flush at the end, `m` rows are taken, and all of them are stored or pending. */
  lemma {:induction false} CollectHolds(t: Tables, arrivals: seq<Row>, k: nat, batchSize: nat, size: nat,
          expired: nat -> bool)
    returns (m: nat, c: Cycle)
    requires size >= 1 && batchSize >= 1 && k <= |arrivals|
    ensures c == Collect(Cycle(t, [], [], [], false), arrivals[..k], batchSize, size, expired)
    ensures TakesRows(k, batchSize, expired, m) && (c.stopped <==> StopsAt(batchSize, expired, m))
    ensures Holds(t, c, arrivals[..m], batchSize)
  {
    if k == 0 {
      m, c := 0, Cycle(t, [], [], [], false);
      NothingHolds(t, c, batchSize);
      assert arrivals[..0] == [];
    } else {
      var n, before := CollectHolds(t, arrivals, k - 1, batchSize, size, expired);
      m, c := OneMoreCollected(t, arrivals, k - 1, k, batchSize, size, expired, n, before);
    }
  }

  lemma OneMoreCollected(t: Tables, arrivals: seq<Row>, i: nat, k: nat, batchSize: nat, size: nat,
          expired: nat -> bool, n: nat, before: Cycle)
    returns (m: nat, c: Cycle)
    requires size >= 1 && batchSize >= 1 && i + 1 == k <= |arrivals|
    requires before == Collect(Cycle(t, [], [], [], false), arrivals[..i], batchSize, size, expired)
    requires TakesRows(i, batchSize, expired, n) && (before.stopped <==> StopsAt(batchSize, expired, n))
    requires Holds(t, before, arrivals[..n], batchSize)
    ensures c == Collect(Cycle(t, [], [], [], false), arrivals[..k], batchSize, size, expired)
    ensures TakesRows(k, batchSize, expired, m) && (c.stopped <==> StopsAt(batchSize, expired, m))
    ensures Holds(t, c, arrivals[..m], batchSize)
  {
    TakesOneMore(i, batchSize, expired, n);
    if before.stopped {
      CollectStopped(t, arrivals, i, batchSize, size, expired, before);
      m, c := n, before;
    } else {
      c := CollectStep(t, arrivals, i, batchSize, size, expired, before);
      m := k;
    }
  }

  /**
   A cycle takes the rows up to the first full batch after which the deadline has
   passed, or all of them. At its end exactly the rows taken have been added to
   the stored ones, and the cursor of each of their relays is at its last row;
   the same holds for every full batch in some state on the way.
   */
  lemma CycleStores(t: Tables, arrivals: seq<Row>, batchSize: nat, size: nat, expired: nat -> bool)
    returns (m: nat)
    requires size >= 1 && batchSize >= 1
    ensures TakesRows(|arrivals|, batchSize, expired, m)
    ensures var c := WholeCycle(t, arrivals, batchSize, size, expired);
            Stores(t, c.tables, arrivals[..m]) && BatchesPersist(t, c.trace, arrivals[..m], batchSize)
  {
    var c;
    m, c := CollectHolds(t, arrivals, |arrivals|, batchSize, size, expired);
    assert arrivals[..|arrivals|] == arrivals;
    FlushWrites(c, size);
    var trace := Flush(c, size).trace;
    forall n: nat | 0 < n <= m && n % batchSize == 0 ensures Persisted(t, trace, arrivals[..m], n) {
      assert Persisted(t, c.trace, arrivals[..m], n);
      var k :| 0 <= k < |c.trace| && Stores(t, c.trace[k], arrivals[..m][..n]);
      assert trace[k] == c.trace[k];
    }
  }

  /** The first stop is the only number of rows a cycle can take. */
  lemma TakesOnce(total: nat, batchSize: nat, expired: nat -> bool, m: nat, n: nat)
    requires batchSize >= 1
    requires TakesRows(total, batchSize, expired, m) && TakesRows(total, batchSize, expired, n)
    ensures m == n
  {
  }
}
