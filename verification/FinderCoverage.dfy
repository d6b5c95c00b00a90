/**
 What a saved cursor of the finder promises: every URL named by a row at or below it
 has been a relay or a candidate. Rows keep arriving during a scan, so the promise
 depends on where they arrive, and here is exactly how.
 */
module FinderCoverage {
  import opened Candidates
  import opened CursorStore
  import opened Finder
  import opened FinderScan
  import opened Keyset

  /**
   What the rows of the relay up to the position name is among the URLs, or named by rows
   that are still to be consumed.
   */
  ghost predicate CoveredBy(w: World, table: seq<Row>, relay: Url, upTo: Key, urls: set<Url>, rows: seq<Row>) {
    forall r, url :: r in table && IsWithin(r, relay, upTo) && Names(w.parse, r, url) ==>
      url in urls || NamedBy(w.parse, rows, url)
  }

  /** No scan asks for a row at the origin. */
  predicate IsWithin(r: Row, relay: Url, upTo: Key) {
    r.relay == relay && Less(Origin, RowKey(r)) && !Less(upTo, RowKey(r))
  }

  /** What has been a relay or a candidate, or will be when the current buffer is registered. */
  ghost function Have(s: State): set<Url> {
    if s.phase.Stopped? || s.phase.work.Saving? then s.known
    else if s.phase.work.Collecting? then s.known + Elems(s.phase.work.buffer)
    else s.known + Elems(s.phase.work.unseen)
  }

  /** After `k` of the rows that were read ahead. */
  ghost predicate CoveredAfter(w: World, table: seq<Row>, relay: Url, start: Key, rows: seq<Row>, urls: set<Url>,
          k: nat)
    requires k <= |rows|
  {
    CoveredBy(w, table, relay, PositionAfter(start, rows, k), urls, rows[..k])
  }

  ghost predicate ReadCovered(w: World, table: seq<Row>, relay: Url, start: Key, rows: seq<Row>, urls: set<Url>) {
    forall k: nat :: k <= |rows| ==> CoveredAfter(w, table, relay, start, rows, urls, k)
  }

  ghost predicate Recorded(s: State) {
    s.tables.relays + s.tables.candidates.Keys <= s.known
  }

  ghost predicate CursorsCovered(w: World, s: State) {
    forall relay :: relay in s.cursors ==> CoveredBy(w, s.table, relay, s.cursors[relay], s.known, [])
  }

  /** So are the positions that the consumer reaches with the rows read ahead. */
  ghost predicate ScanCovered(w: World, s: State) {
    s.phase.Active? ==>
      forall relay :: relay in s.phase.at && relay in s.phase.ahead ==>
        ReadCovered(w, s.table, relay, s.phase.at[relay], s.phase.ahead[relay], Have(s))
  }

  ghost predicate Covered(w: World, s: State) {
    Recorded(s) && CursorsCovered(w, s) && ScanCovered(w, s)
  }

  lemma CoveredMore(w: World, table: seq<Row>, relay: Url, upTo: Key, urls: set<Url>, more: set<Url>, rows: seq<Row>)
    requires CoveredBy(w, table, relay, upTo, urls, rows) && urls <= more
    ensures CoveredBy(w, table, relay, upTo, more, rows)
  {
  }

  lemma ReadCoveredMore(w: World, table: seq<Row>, relay: Url, start: Key, rows: seq<Row>, urls: set<Url>,
          more: set<Url>)
    requires ReadCovered(w, table, relay, start, rows, urls) && urls <= more
    ensures ReadCovered(w, table, relay, start, rows, more)
  {
    forall k: nat | k <= |rows| ensures CoveredAfter(w, table, relay, start, rows, more, k) {
      assert CoveredAfter(w, table, relay, start, rows, urls, k);
      CoveredMore(w, table, relay, PositionAfter(start, rows, k), urls, more, rows[..k]);
    }
  }

  /** A step that moves no position and forgets no URL. */
  lemma StillCovered(w: World, s: State, t: State)
    requires Covered(w, s) && Recorded(t) && s.known <= t.known && t.table == s.table
    requires forall relay :: relay in t.cursors ==> relay in s.cursors && t.cursors[relay] == s.cursors[relay]
    requires t.phase.Active? ==>
      s.phase.Active? && t.phase.at == s.phase.at && t.phase.ahead == s.phase.ahead && Have(s) <= Have(t)
    ensures Covered(w, t)
  {
    forall relay | relay in t.cursors ensures CoveredBy(w, t.table, relay, t.cursors[relay], t.known, []) {
      CoveredMore(w, s.table, relay, s.cursors[relay], s.known, t.known, []);
    }
    if t.phase.Active? {
      forall relay | relay in t.phase.at && relay in t.phase.ahead
        ensures ReadCovered(w, t.table, relay, t.phase.at[relay], t.phase.ahead[relay], Have(t))
      {
        ReadCoveredMore(w, s.table, relay, s.phase.at[relay], s.phase.ahead[relay], Have(s), Have(t));
      }
    }
  }

  // ----- What every step but an arrival keeps -----

  lemma NamedByPrefix(w: World, rows: seq<Row>, page: seq<Row>, k: nat, url: Url)
    requires NamedBy(w.parse, rows, url) && |rows| <= k <= |rows + page|
    ensures NamedBy(w.parse, (rows + page)[..k], url)
  {
    var r :| r in rows && Names(w.parse, r, url);
    var i :| 0 <= i < |rows| && rows[i] == r;
    assert (rows + page)[..k][i] == r;
  }

  /** A row above what was read, up to the k-th row of the page, is in the page. */
  lemma PageHolds(table: seq<Row>, relay: Url, reach: Key, size: nat, k: nat, r: Row)
    requires OneRowPerEvent(table) && k < |Scan(table, relay, reach, size)|
    requires r in table && r.relay == relay && Less(reach, RowKey(r))
    requires !Less(RowKey(Scan(table, relay, reach, size)[k]), RowKey(r))
    ensures r in Scan(table, relay, reach, size)[..k + 1]
  {
    var query, page := Query(table, relay, reach), Scan(table, relay, reach, size);
    QueryRows(table, relay, reach);
    var i :| 0 <= i < |query| && query[i] == r;
    assert query[k] == page[k];
    assert page[..k + 1][i] == r;
  }

  /** The next page holds what the worker has not covered yet. */
  lemma PageCovers(w: World, table: seq<Row>, relay: Url, start: Key, rows: seq<Row>, size: nat, urls: set<Url>, k: nat)
    requires OneRowPerEvent(table) && CoveredAfter(w, table, relay, start, rows, urls, |rows|)
    requires |rows| < k <= |rows| + |Scan(table, relay, Reach(start, rows), size)|
    ensures CoveredAfter(w, table, relay, start, rows + Scan(table, relay, Reach(start, rows), size), urls, k)
  {
    var page, n := Scan(table, relay, Reach(start, rows), size), k - |rows|;
    var all, upTo := rows + page, RowKey(page[n - 1]);
    assert rows[..|rows|] == rows && PositionAfter(start, all, k) == upTo && all[..k] == rows + page[..n];
    forall r, url | r in table && IsWithin(r, relay, upTo) && Names(w.parse, r, url)
      ensures url in urls || NamedBy(w.parse, all[..k], url)
    {
      if Less(Reach(start, rows), RowKey(r)) {
        PageHolds(table, relay, Reach(start, rows), size, n - 1, r);
      } else if url !in urls {
        NamedByPrefix(w, rows, page, k, url);
      }
    }
  }

  lemma ReadKeepsCovered(w: World, table: seq<Row>, relay: Url, start: Key, rows: seq<Row>, size: nat, urls: set<Url>)
    requires OneRowPerEvent(table) && ReadCovered(w, table, relay, start, rows, urls)
    ensures ReadCovered(w, table, relay, start, rows + Scan(table, relay, Reach(start, rows), size), urls)
  {
    var all := rows + Scan(table, relay, Reach(start, rows), size);
    forall k: nat | k <= |all| ensures CoveredAfter(w, table, relay, start, all, urls, k) {
      if k <= |rows| {
        assert CoveredAfter(w, table, relay, start, rows, urls, k) && all[..k] == rows[..k];
      } else {
        assert CoveredAfter(w, table, relay, start, rows, urls, |rows|);
        PageCovers(w, table, relay, start, rows, size, urls, k);
      }
    }
  }

  /** What the consumed row names is in the buffer from now on. */
  lemma ConsumeCovers(w: World, table: seq<Row>, relay: Url, start: Key, rows: seq<Row>, urls: set<Url>,
          found: seq<Url>, k: nat)
    requires rows != [] && Lists(w, rows[0], found) && k < |rows|
    requires CoveredAfter(w, table, relay, start, rows, urls, k + 1)
    ensures CoveredAfter(w, table, relay, RowKey(rows[0]), rows[1..], urls + Elems(found), k)
  {
    var upTo, rest := PositionAfter(start, rows, k + 1), rows[1..][..k];
    assert rows[..k + 1] == [rows[0]] + rest && PositionAfter(RowKey(rows[0]), rows[1..], k) == upTo;
    forall r, url | r in table && IsWithin(r, relay, upTo) && Names(w.parse, r, url)
      ensures url in urls + Elems(found) || NamedBy(w.parse, rest, url)
    {
      if url !in urls && url !in found {
        var r' :| r' in rows[..k + 1] && Names(w.parse, r', url);
        assert r' in rest;
      }
    }
  }

  lemma ConsumeKeepsRead(w: World, table: seq<Row>, relay: Url, start: Key, rows: seq<Row>, urls: set<Url>,
          found: seq<Url>)
    requires rows != [] && Lists(w, rows[0], found) && ReadCovered(w, table, relay, start, rows, urls)
    ensures ReadCovered(w, table, relay, RowKey(rows[0]), rows[1..], urls + Elems(found))
  {
    forall k: nat | k <= |rows[1..]|
      ensures CoveredAfter(w, table, relay, RowKey(rows[0]), rows[1..], urls + Elems(found), k)
    {
      assert CoveredAfter(w, table, relay, start, rows, urls, k + 1);
      ConsumeCovers(w, table, relay, start, rows, urls, found, k);
    }
  }

  lemma ConsumeKeepsCovered(w: World, s: State, relay: Url, found: seq<Url>)
    requires Covered(w, s) && Enabled(s, Consume(relay, found), w)
    ensures Covered(w, Step(w, s, Consume(relay, found)))
  {
    var t := Step(w, s, Consume(relay, found));
    assert t.known == s.known;
    assert Elems(s.phase.work.buffer + found) == Elems(s.phase.work.buffer) + Elems(found);
    assert Have(t) == Have(s) + Elems(found);
    forall other | other in t.phase.at && other in t.phase.ahead
      ensures ReadCovered(w, t.table, other, t.phase.at[other], t.phase.ahead[other], Have(t))
    {
      if other == relay {
        ConsumeKeepsRead(w, s.table, relay, s.phase.at[relay], s.phase.ahead[relay], Have(s), found);
      } else {
        ReadCoveredMore(w, s.table, other, s.phase.at[other], s.phase.ahead[other], Have(s), Have(t));
      }
    }
  }

  lemma ReadPageKeepsCovered(w: World, s: State, relay: Url, size: nat)
    requires Covered(w, s) && OneRowPerEvent(s.table) && Enabled(s, ReadPage(relay, size), w)
    ensures Covered(w, Step(w, s, ReadPage(relay, size)))
  {
    var t := Step(w, s, ReadPage(relay, size));
    assert t.known == s.known && Have(t) == Have(s);
    ReadKeepsCovered(w, s.table, relay, s.phase.at[relay], s.phase.ahead[relay], size, Have(s));
  }

  lemma BeginKeepsCovered(w: World, s: State)
    requires Covered(w, s) && Enabled(s, Begin, w)
    ensures Covered(w, Step(w, s, Begin))
  {
    var t := Step(w, s, Begin);
    assert t.known == s.known && Have(t) == s.known;
    forall relay | relay in t.phase.at && relay in t.phase.ahead
      ensures ReadCovered(w, t.table, relay, t.phase.at[relay], t.phase.ahead[relay], Have(t))
    {
      assert t.phase.ahead[relay] == [];
      assert CoveredBy(w, s.table, relay, Saved(s.cursors, relay), s.known, []);
      assert CoveredAfter(w, t.table, relay, t.phase.at[relay], [], Have(t), 0);
    }
  }

  /** Every URL of the buffer is known, or left for the upserts. */
  lemma FilterKeepsCovered(w: World, s: State)
    requires Covered(w, s) && Enabled(s, Filter, w)
    ensures Covered(w, Step(w, s, Filter))
  {
    StillCovered(w, s, Step(w, s, Filter));
  }

  /** Every URL of the chunk becomes a candidate. */
  lemma RegisterKeepsCovered(w: World, s: State, n: nat, now: int)
    requires Covered(w, s) && Enabled(s, RegisterChunk(n, now), w)
    ensures Covered(w, Step(w, s, RegisterChunk(n, now)))
  {
    var t, unseen := Step(w, s, RegisterChunk(n, now)), s.phase.work.unseen;
    assert unseen == unseen[..n] + unseen[n..];
    forall url | url in unseen[..n] ensures url in t.tables.candidates {
      FirstRowsEffect(w, s.tables.candidates, unseen[..n], now, url);
    }
    StillCovered(w, s, t);
  }

  lemma SaveKeepsCovered(w: World, s: State, n: nat)
    requires Covered(w, s) && Ordered(s) && Enabled(s, SaveChunk(n), w)
    ensures Covered(w, Step(w, s, SaveChunk(n)))
  {
    var t := Step(w, s, SaveChunk(n));
    assert t.known == s.known;
    forall relay | relay in t.cursors ensures CoveredBy(w, t.table, relay, t.cursors[relay], t.known, []) {
      SaveEffect(w, s, n, relay);
      if Mentions(s.phase.work.rest[..n], relay) {
        assert CoveredAfter(w, s.table, relay, s.phase.at[relay], s.phase.ahead[relay], s.known, 0);
        assert s.phase.ahead[relay][..0] == [];
      }
    }
  }

  lemma StepKeepsCovered(w: World, s: State, a: Action)
    requires Covered(w, s) && Ordered(s) && !a.Arrive?
    ensures Covered(w, Step(w, s, a))
  {
    if Enabled(s, a, w) {
      match a {
        case Begin => BeginKeepsCovered(w, s);
        case ReadPage(relay, size) => ReadPageKeepsCovered(w, s, relay, size);
        case Consume(relay, found) => ConsumeKeepsCovered(w, s, relay, found);
        case Filter => FilterKeepsCovered(w, s);
        case RegisterChunk(n, now) => RegisterKeepsCovered(w, s, n, now);
        case SaveChunk(n) => SaveKeepsCovered(w, s, n);
        case _ => StillCovered(w, s, Step(w, s, a));
      }
    }
  }

  // ----- Rows that arrive -----

  /** If the row is not above the position, it names nothing new. */
  ghost predicate NamesNothingNew(w: World, row: Row, upTo: Key, urls: set<Url>, rows: seq<Row>) {
    IsWithin(row, row.relay, upTo) ==>
      forall url :: Names(w.parse, row, url) ==> url in urls || NamedBy(w.parse, rows, url)
  }

  /** Above the saved cursor of its relay, or without new URLs. */
  ghost predicate OnTimeForCursor(w: World, s: State, row: Row) {
    row.relay in s.cursors ==> NamesNothingNew(w, row, s.cursors[row.relay], s.known, [])
  }

  ghost predicate OnTimeAfter(w: World, row: Row, start: Key, rows: seq<Row>, urls: set<Url>, k: nat)
    requires k <= |rows|
  {
    NamesNothingNew(w, row, PositionAfter(start, rows, k), urls, rows[..k])
  }

  ghost predicate OnTimeForRead(w: World, row: Row, start: Key, rows: seq<Row>, urls: set<Url>) {
    forall k: nat :: k <= |rows| ==> OnTimeAfter(w, row, start, rows, urls, k)
  }

  /** And above what the scan of its relay has read, or without URLs that are new there. */
  ghost predicate OnTime(w: World, s: State, row: Row) {
    && OnTimeForCursor(w, s, row)
    && (s.phase.Active? && row.relay in s.phase.at && row.relay in s.phase.ahead ==>
          OnTimeForRead(w, row, s.phase.at[row.relay], s.phase.ahead[row.relay], Have(s)))
  }

  lemma ArriveCovers(w: World, table: seq<Row>, row: Row, relay: Url, upTo: Key, urls: set<Url>, rows: seq<Row>)
    requires OneRowPerEvent(table) && !Conflicts(table, row) && CoveredBy(w, table, relay, upTo, urls, rows)
    ensures CoveredBy(w, Stored(table, row), relay, upTo, urls, rows)
       <==> (row.relay == relay ==> NamesNothingNew(w, row, upTo, urls, rows))
  {
    StoredKeepsKey(table, row);
    assert row in Stored(table, row);
  }

  lemma ArriveReadCovers(w: World, table: seq<Row>, row: Row, relay: Url, start: Key, rows: seq<Row>, urls: set<Url>)
    requires OneRowPerEvent(table) && !Conflicts(table, row) && ReadCovered(w, table, relay, start, rows, urls)
    ensures ReadCovered(w, Stored(table, row), relay, start, rows, urls)
       <==> (row.relay == relay ==> OnTimeForRead(w, row, start, rows, urls))
  {
    forall k: nat | k <= |rows|
      ensures CoveredAfter(w, Stored(table, row), relay, start, rows, urls, k)
         <==> (row.relay == relay ==> OnTimeAfter(w, row, start, rows, urls, k))
    {
      assert CoveredAfter(w, table, relay, start, rows, urls, k);
      ArriveCovers(w, table, row, relay, PositionAfter(start, rows, k), urls, rows[..k]);
    }
  }

  /** An arriving row leaves the saved cursors covered exactly when it is on time for them. */
  lemma CursorsIffOnTime(w: World, s: State, row: Row)
    requires OneRowPerEvent(s.table) && Recorded(s) && CursorsCovered(w, s)
    ensures CursorsCovered(w, Step(w, s, Arrive(row))) <==> Conflicts(s.table, row) || OnTimeForCursor(w, s, row)
  {
    var t := Step(w, s, Arrive(row));
    assert t.known == s.known && t.cursors == s.cursors;
    if !Conflicts(s.table, row) {
      forall relay | relay in s.cursors
        ensures CoveredBy(w, t.table, relay, t.cursors[relay], t.known, [])
           <==> (row.relay == relay ==> NamesNothingNew(w, row, s.cursors[relay], s.known, []))
      {
        ArriveCovers(w, s.table, row, relay, s.cursors[relay], s.known, []);
      }
    }
  }

  lemma ScanIffOnTime(w: World, s: State, row: Row)
    requires OneRowPerEvent(s.table) && Recorded(s) && ScanCovered(w, s) && !Conflicts(s.table, row) && s.phase.Active?
    ensures ScanCovered(w, Step(w, s, Arrive(row)))
       <==> (row.relay in s.phase.at && row.relay in s.phase.ahead ==>
               OnTimeForRead(w, row, s.phase.at[row.relay], s.phase.ahead[row.relay], Have(s)))
  {
    var t := Step(w, s, Arrive(row));
    assert t.known == s.known && t.phase == s.phase && Have(t) == Have(s);
    forall relay | relay in s.phase.at && relay in s.phase.ahead
      ensures ReadCovered(w, t.table, relay, t.phase.at[relay], t.phase.ahead[relay], Have(t))
         <==> (row.relay == relay ==> OnTimeForRead(w, row, s.phase.at[relay], s.phase.ahead[relay], Have(s)))
    {
      ArriveReadCovers(w, s.table, row, relay, s.phase.at[relay], s.phase.ahead[relay], Have(s));
    }
  }

  ghost predicate ArrivesOnTime(w: World, s: State, a: Action) {
    a.Arrive? ==> Conflicts(s.table, a.row) || OnTime(w, s, a.row)
  }

  /** A step keeps the promise exactly when no row arrives late by it. */
  lemma CoveredIffArrivesOnTime(w: World, s: State, a: Action)
    requires Covered(w, s) && Ordered(s)
    ensures Covered(w, Step(w, s, a)) <==> ArrivesOnTime(w, s, a)
  {
    if !a.Arrive? {
      StepKeepsCovered(w, s, a);
    } else if !Conflicts(s.table, a.row) {
      CursorsIffOnTime(w, s, a.row);
      if s.phase.Active? {
        ScanIffOnTime(w, s, a.row);
      }
    } else {
      StillCovered(w, s, Step(w, s, a));
    }
  }

  lemma ReachIsLast(table: seq<Row>, relay: Url, start: Key, rows: seq<Row>, k: nat)
    requires InOrder(table, relay, start, rows) && k <= |rows|
    ensures !Less(Reach(start, rows), PositionAfter(start, rows, k))
  {
    assert rows != [] ==> rows[|rows| - 1] in rows;
  }

  /** A row above the saved cursor and above what its worker has read is on time, whatever it names. */
  lemma AboveIsOnTime(w: World, s: State, row: Row)
    requires Ordered(s)
    requires row.relay in s.cursors ==> Less(s.cursors[row.relay], RowKey(row))
    requires s.phase.Active? && row.relay in s.phase.at ==>
      Less(Reach(s.phase.at[row.relay], s.phase.ahead[row.relay]), RowKey(row))
    ensures OnTime(w, s, row)
  {
    if s.phase.Active? && row.relay in s.phase.at {
      var start, rows := s.phase.at[row.relay], s.phase.ahead[row.relay];
      forall k: nat | k <= |rows| ensures OnTimeAfter(w, row, start, rows, Have(s), k) {
        ReachIsLast(s.table, row.relay, start, rows, k);
      }
    }
  }

  // ----- Whole runs -----

  /** The service is stopped and its saved cursors are covered, as they are in a database without cursors. */
  ghost predicate IsStart(w: World, s: State) {
    s.phase.Stopped? && OneRowPerEvent(s.table) && Recorded(s) && CursorsCovered(w, s)
  }

  ghost predicate CoveredAt(w: World, s: State, actions: seq<Action>, k: nat)
    requires k <= |actions|
  {
    Covered(w, Run(w, s, actions[..k]))
  }

  ghost predicate OnTimeAt(w: World, s: State, actions: seq<Action>, k: nat)
    requires k < |actions|
  {
    ArrivesOnTime(w, Run(w, s, actions[..k]), actions[k])
  }

  lemma OneMoreIff(w: World, s: State, actions: seq<Action>, k: nat)
    requires IsStart(w, s) && k < |actions| && CoveredAt(w, s, actions, k)
    ensures CoveredAt(w, s, actions, k + 1) <==> OnTimeAt(w, s, actions, k)
  {
    assert actions[..k + 1][..k] == actions[..k];
    EveryRunKeepsOrder(w, s, actions[..k]);
    CoveredIffArrivesOnTime(w, Run(w, s, actions[..k]), actions[k]);
  }

  lemma {:induction false} OnTimeKeepsCovered(w: World, s: State, actions: seq<Action>, k: nat)
    requires IsStart(w, s) && k <= |actions|
    requires forall j: nat :: j < |actions| ==> OnTimeAt(w, s, actions, j)
    ensures CoveredAt(w, s, actions, k)
  {
    if k > 0 {
      OnTimeKeepsCovered(w, s, actions, k - 1);
      assert OnTimeAt(w, s, actions, k - 1);
      OneMoreIff(w, s, actions, k - 1);
    }
  }

  /**
   Over a whole run, with crashes and other services at work, the promise holds throughout
   exactly when every row arrives on time.
   */
  lemma CoveredIffOnTime(w: World, s: State, actions: seq<Action>)
    requires IsStart(w, s)
    ensures (forall k: nat :: k <= |actions| ==> CoveredAt(w, s, actions, k))
       <==> (forall k: nat :: k < |actions| ==> OnTimeAt(w, s, actions, k))
  {
    if forall k: nat :: k < |actions| ==> OnTimeAt(w, s, actions, k) {
      forall k: nat | k <= |actions| ensures CoveredAt(w, s, actions, k) {
        OnTimeKeepsCovered(w, s, actions, k);
      }
    }
    if forall k: nat :: k <= |actions| ==> CoveredAt(w, s, actions, k) {
      forall k: nat | k < |actions| ensures OnTimeAt(w, s, actions, k) {
        assert CoveredAt(w, s, actions, k) && CoveredAt(w, s, actions, k + 1);
        OneMoreIff(w, s, actions, k);
      }
    }
  }

  /** Then no saved cursor runs ahead: every URL named by a row at or below it has been a relay or a candidate. */
  lemma CursorsNeverRunAhead(w: World, s: State, actions: seq<Action>, row: Row, url: Url)
    requires IsStart(w, s)
    requires forall k: nat :: k < |actions| ==> OnTimeAt(w, s, actions, k)
    requires row in Run(w, s, actions).table && Less(Origin, RowKey(row)) && Names(w.parse, row, url)
    ensures var t := Run(w, s, actions);
            row.relay in t.cursors && !Less(t.cursors[row.relay], RowKey(row)) ==> url in t.known
  {
    OnTimeKeepsCovered(w, s, actions, |actions|);
    assert actions[..|actions|] == actions;
    var t := Run(w, s, actions);
    assert row.relay in t.cursors ==> CoveredBy(w, t.table, row.relay, t.cursors[row.relay], t.known, []);
  }
}
