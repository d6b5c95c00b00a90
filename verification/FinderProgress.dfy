/** How far a discovery cycle gets: pages read and rows taken, by counting the events of each relay. */
module FinderProgress {
  import opened Arith
  import opened Batches
  import opened CursorStore
  import opened Finder
  import opened FinderCycle
  import opened FinderScan
  import opened Keyset

  /** So many rows of a relay read, and so many of them taken. */
  datatype Tally = Tally(read: nat, taken: nat)

  /** A page reads at most `size` more of the `total` rows; the consumer takes one if one is there. */
  function AfterOne(t: Tally, e: Event, relay: Url, total: nat, size: nat): Tally {
    if e == Page(relay) then Tally(Min(total, t.read + size), t.taken)
    else if e == Next(relay) then Tally(t.read, Min(t.read, t.taken + 1))
    else t
  }

  function After(events: seq<Event>, relay: Url, total: nat, size: nat): (t: Tally)
    ensures t.taken <= t.read <= total
    decreases |events|
  {
    if events == [] then Tally(0, 0)
    else
      var n := |events| - 1;
      AfterOne(After(events[..n], relay, total, size), events[n], relay, total, size)
  }

  /** No row is stored meanwhile. */
  ghost predicate NoCommit(events: seq<Event>) {
    forall e :: e in events ==> !e.Commit?
  }

  /** Of the rows in `query`, the first ones are taken and the next ones read. */
  ghost predicate IsAt(p: Progress, relay: Url, start: Key, query: seq<Row>, t: Tally)
    requires t.taken <= t.read <= |query|
  {
    && relay in p.at && relay in p.ahead
    && p.at[relay] == (if t.taken == 0 then start else RowKey(query[t.taken - 1]))
    && p.ahead[relay] == query[t.taken..t.read]
  }

  lemma PageAdvances(p: Progress, relay: Url, start: Key, query: seq<Row>, t: Tally, size: nat)
    requires OneRowPerEvent(p.table) && query == Query(p.table, relay, start)
    requires t.taken <= t.read <= |query| && IsAt(p, relay, start, query, t)
    ensures IsAt(AfterEvent(p, Page(relay), size), relay, start, query, t.(read := Min(|query|, t.read + size)))
  {
    var reach, more := Reach(p.at[relay], p.ahead[relay]), Min(|query|, t.read + size);
    assert reach == if t.read == 0 then start else RowKey(query[t.read - 1]);
    PageIsNext(p.table, relay, start, query, t.read, size, reach);
    SlicesJoin(query, t.taken, t.read, more);
  }

  /** The page after the first `read` rows. */
  lemma PageIsNext(table: seq<Row>, relay: Url, start: Key, query: seq<Row>, read: nat, size: nat, reach: Key)
    requires OneRowPerEvent(table) && query == Query(table, relay, start) && read <= |query|
    requires reach == if read == 0 then start else RowKey(query[read - 1])
    ensures Scan(table, relay, reach, size) == query[read..Min(|query|, read + size)]
  {
    if read == 0 {
      assert query == query[0..];
    } else {
      QueryResumes(table, relay, start, read);
    }
  }

  lemma SlicesJoin<T>(s: seq<T>, a: nat, b: nat, c: nat)
    requires a <= b <= c <= |s|
    ensures s[a..b] + s[b..c] == s[a..c]
  {
  }

  lemma NextAdvances(p: Progress, relay: Url, start: Key, query: seq<Row>, t: Tally, size: nat)
    requires t.taken <= t.read <= |query| && IsAt(p, relay, start, query, t)
    ensures IsAt(AfterEvent(p, Next(relay), size), relay, start, query, t.(taken := Min(t.read, t.taken + 1)))
  {
    if t.taken < t.read {
      assert p.ahead[relay][0] == query[t.taken];
      assert p.ahead[relay][1..] == query[t.taken + 1..t.read];
    }
  }

  lemma EventAdvances(p: Progress, e: Event, relay: Url, start: Key, query: seq<Row>, t: Tally, size: nat)
    requires OneRowPerEvent(p.table) && query == Query(p.table, relay, start) && !e.Commit?
    requires t.taken <= t.read <= |query| && IsAt(p, relay, start, query, t)
    ensures var u := AfterOne(t, e, relay, |query|, size);
            && u.taken <= u.read <= |query| && IsAt(AfterEvent(p, e, size), relay, start, query, u)
            && AfterEvent(p, e, size).table == p.table
  {
    if e == Page(relay) {
      PageAdvances(p, relay, start, query, t, size);
    } else if e == Next(relay) {
      NextAdvances(p, relay, start, query, t, size);
    }
  }

  /** The position and the rows read ahead of each relay are those of the count. */
  lemma {:induction false} ScanIsCounted(table: seq<Row>, cursors: map<Url, Key>, relays: set<Url>,
          events: seq<Event>, size: nat, relay: Url)
    requires OneRowPerEvent(table) && relay in relays && NoCommit(events)
    ensures var p := AfterEvents(NotBegun(table, cursors, relays), events, size);
            var query := Query(table, relay, Saved(cursors, relay));
            p.table == table && IsAt(p, relay, Saved(cursors, relay), query, After(events, relay, |query|, size))
    decreases |events|
  {
    var start := Saved(cursors, relay);
    var query := Query(table, relay, start);
    if events != [] {
      var n := |events| - 1;
      ScanIsCounted(table, cursors, relays, events[..n], size, relay);
      var p, t := AfterEvents(NotBegun(table, cursors, relays), events[..n], size),
                  After(events[..n], relay, |query|, size);
      assert events[n] in events;
      EventAdvances(p, events[n], relay, start, query, t, size);
    }
  }

  // ----- Enough events take everything -----

  function Times(e: Event, n: nat): (events: seq<Event>)
    ensures |events| == n && forall k :: 0 <= k < n ==> events[k] == e
  {
    seq(n, _ => e)
  }

  lemma PagesReadMore(total: nat, read: nat, size: nat)
    ensures Min(total, Min(total, read) + size) == Min(total, read + size)
  {
  }

  lemma {:induction false} PagesReadAll(relay: Url, total: nat, size: nat, n: nat)
    ensures After(Times(Page(relay), n), relay, total, size) == Tally(Min(total, n * size), 0)
  {
    if n > 0 {
      var events := Times(Page(relay), n);
      assert events[..n - 1] == Times(Page(relay), n - 1);
      PagesReadAll(relay, total, size, n - 1);
      Distributes(n - 1, 1, size);
      PagesReadMore(total, (n - 1) * size, size);
    }
  }

  lemma {:induction false} NextTakesAll(before: seq<Event>, relay: Url, total: nat, size: nat, n: nat)
    requires After(before, relay, total, size) == Tally(total, 0)
    ensures After(before + Times(Next(relay), n), relay, total, size) == Tally(total, Min(total, n))
  {
    var events := before + Times(Next(relay), n);
    if n == 0 {
      assert events == before;
    } else {
      assert events[..|events| - 1] == before + Times(Next(relay), n - 1);
      NextTakesAll(before, relay, total, size, n - 1);
    }
  }

  /** With pages and turns enough, a cycle takes every row of a relay above its cursor. */
  lemma CycleTakesAll(table: seq<Row>, cursors: map<Url, Key>, relays: set<Url>, relay: Url, size: nat, pages: nat,
          turns: nat)
    requires OneRowPerEvent(table) && relay in relays
    requires |Query(table, relay, Saved(cursors, relay))| <= turns
    requires |Query(table, relay, Saved(cursors, relay))| <= pages * size
    ensures var events := Times(Page(relay), pages) + Times(Next(relay), turns);
            var p := AfterEvents(NotBegun(table, cursors, relays), events, size);
            && relay in p.at && relay in p.ahead && p.ahead[relay] == []
            && forall r :: r in table && r.relay == relay && Less(Saved(cursors, relay), RowKey(r)) ==>
                 !Less(p.at[relay], RowKey(r))
  {
    var start := Saved(cursors, relay);
    var query := Query(table, relay, start);
    var events := Times(Page(relay), pages) + Times(Next(relay), turns);
    PagesReadAll(relay, |query|, size, pages);
    NextTakesAll(Times(Page(relay), pages), relay, |query|, size, turns);
    ScanIsCounted(table, cursors, relays, events, size, relay);
    QueryRows(table, relay, start);
    forall r | r in table && r.relay == relay && Less(start, RowKey(r))
      ensures !Less(AfterEvents(NotBegun(table, cursors, relays), events, size).at[relay], RowKey(r))
    {
      assert r in query;
    }
  }
}
