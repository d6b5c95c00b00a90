/**
 Discovery of relay URLs in stored events over whole runs: workers read pages of rows
 ahead of the consumer, the URLs of the rows are buffered, and a flush registers them
 before it saves the cursors. Other services store rows, promote and remove candidates
 at any time, and the process may stop between any two database calls.
 */
module Finder {
  import opened Candidates
  import opened CursorStore
  import opened FinderScan
  import opened Keyset
  import opened Networks
  import opened Nostr

  datatype World = World(parse: string -> Option<Url>, network: Url -> Network)

  /** The consumer collects; in a flush it registers the URLs that its filter let through, then saves the cursors. */
  datatype Work =
    | Collecting(buffer: seq<Url>, pending: seq<Cursor>)
    | Registering(unseen: seq<Url>, pending: seq<Cursor>)
    | Saving(rest: seq<Cursor>)

  /**
   `at` is the position up to which the rows of each relay were consumed, `ahead` holds
   the rows that its worker has read and the consumer has not taken yet.
   */
  datatype Phase = Stopped | Active(at: map<Url, Key>, ahead: map<Url, seq<Row>>, work: Work)

  /**
   `known` records what has ever been a relay or a candidate, `entered` what the finder
   itself has registered; `counted` adds up the different URLs of each chunk it has written.
   */
  datatype State = State(
    table: seq<Row>, tables: Tables, cursors: map<Url, Key>, phase: Phase, known: set<Url>, entered: set<Url>,
    counted: nat)

  datatype Action =
    | Begin
    | ReadPage(relay: Url, size: nat)
    | Consume(relay: Url, found: seq<Url>)
    | Filter
    | RegisterChunk(n: nat, now: int)
    | BeginSave
    | SaveChunk(n: nat)
    | Resume
    | End
    | Cleanup
    | Arrive(row: Row)
    | Others(tables: Tables)
    | Crash

  const Origin := Key(0, 0)

  function Saved(cursors: map<Url, Key>, relay: Url): Key {
    if relay in cursors then cursors[relay] else Origin
  }

  /** Cursors at the default timestamp are not saved. */
  function Persistable(pending: seq<Cursor>): seq<Cursor> {
    if pending == [] then []
    else (if pending[0].timestamp > 0 then [pending[0]] else []) + Persistable(pending[1..])
  }

  function Found(w: World, urls: seq<Url>): map<Url, Network> {
    map url | url in urls :: w.network(url)
  }

  /** The filter keeps what is neither a relay nor a candidate, repeats included. */
  function NewUrls(t: Tables, urls: seq<Url>): (unseen: seq<Url>)
    ensures forall url :: url in unseen <==> url in urls && url !in t.relays && url !in t.candidates
  {
    if urls == [] then []
    else (if urls[0] in t.relays || urls[0] in t.candidates then [] else [urls[0]]) + NewUrls(t, urls[1..])
  }

  function WithFirstRows(w: World, candidates: map<Url, Candidate>, urls: seq<Url>, now: int): map<Url, Candidate>
    decreases |urls|
  {
    if urls == [] then candidates
    else WithFirstRows(w, candidates[urls[0] := Candidate(w.network(urls[0]), 0, now)], urls[1..], now)
  }

  /** An upsert writes a first row for each of the URLs. */
  function Entered(w: World, t: Tables, urls: seq<Url>, now: int): Tables {
    t.(candidates := WithFirstRows(w, t.candidates, urls, now))
  }

  lemma {:induction false} FirstRowsEffect(w: World, candidates: map<Url, Candidate>, urls: seq<Url>, now: int,
          url: Url)
    ensures var m := WithFirstRows(w, candidates, urls, now);
            && (url in m <==> url in candidates || url in urls)
            && (url in urls ==> m[url] == Candidate(w.network(url), 0, now))
            && (url !in urls && url in candidates ==> m[url] == candidates[url])
    decreases |urls|
  {
    if urls != [] {
      FirstRowsEffect(w, candidates[urls[0] := Candidate(w.network(urls[0]), 0, now)], urls[1..], now, url);
      assert url in urls <==> url == urls[0] || url in urls[1..];
    }
  }

  ghost predicate Lists(w: World, row: Row, found: seq<Url>) {
    forall url :: url in found <==> Names(w.parse, row, url)
  }

  /** The position after the first `k` rows that were read ahead. */
  function PositionAfter(start: Key, rows: seq<Row>, k: nat): Key
    requires k <= |rows|
  {
    if k == 0 then start else RowKey(rows[k - 1])
  }

  /** How far the worker of a relay has read. */
  function Reach(start: Key, rows: seq<Row>): Key { PositionAfter(start, rows, |rows|) }

  ghost predicate Enabled(s: State, a: Action, w: World) {
    match a
    case Begin => s.phase.Stopped?
    case ReadPage(relay, size) => s.phase.Active? && relay in s.phase.at && relay in s.phase.ahead && size >= 1
    case Consume(relay, found) =>
      && s.phase.Active? && s.phase.work.Collecting? && relay in s.phase.at && relay in s.phase.ahead
      && s.phase.ahead[relay] != [] && Lists(w, s.phase.ahead[relay][0], found)
    case Filter => s.phase.Active? && s.phase.work.Collecting?
    case RegisterChunk(n, _) => s.phase.Active? && s.phase.work.Registering? && n <= |s.phase.work.unseen|
    case BeginSave => s.phase.Active? && s.phase.work.Registering? && s.phase.work.unseen == []
    case SaveChunk(n) => s.phase.Active? && s.phase.work.Saving? && n <= |s.phase.work.rest|
    case Resume => s.phase.Active? && s.phase.work == Saving([])
    case End => s.phase.Active? && s.phase.work == Collecting([], [])
    case Cleanup => s.phase.Stopped?
    case Arrive(_) => true
    case Others(tables) => s.tables.relays <= tables.relays
    case Crash => true
  }

  function CursorAt(relay: Url, row: Row): Cursor { Cursor(relay, row.seenAt, row.eventId) }

  function Start(cursors: map<Url, Key>, relays: set<Url>): map<Url, Key> {
    map relay | relay in relays :: Saved(cursors, relay)
  }

  function NothingRead(relays: set<Url>): map<Url, seq<Row>> {
    map relay | relay in relays :: []
  }

  ghost function Effect(w: World, s: State, a: Action): State
    requires Enabled(s, a, w)
  {
    match a
    case Begin =>
      s.(phase := Active(Start(s.cursors, s.tables.relays), NothingRead(s.tables.relays), Collecting([], [])))
    case ReadPage(relay, size) =>
      var rows := s.phase.ahead[relay];
      var page := Scan(s.table, relay, Reach(s.phase.at[relay], rows), size);
      s.(phase := s.phase.(ahead := s.phase.ahead[relay := rows + page]))
    case Consume(relay, found) =>
      var row := s.phase.ahead[relay][0];
      var work := Collecting(s.phase.work.buffer + found, Put(s.phase.work.pending, CursorAt(relay, row)));
      s.(phase := Active(s.phase.at[relay := RowKey(row)], s.phase.ahead[relay := s.phase.ahead[relay][1..]], work))
    case Filter =>
      s.(phase := s.phase.(work := Registering(NewUrls(s.tables, s.phase.work.buffer), s.phase.work.pending)))
    case RegisterChunk(n, now) =>
      s.(tables := Entered(w, s.tables, s.phase.work.unseen[..n], now),
         entered := s.entered + Elems(s.phase.work.unseen[..n]),
         counted := s.counted + |Elems(s.phase.work.unseen[..n])|,
         phase := s.phase.(work := s.phase.work.(unseen := s.phase.work.unseen[n..])))
    case BeginSave => s.(phase := s.phase.(work := Saving(Persistable(s.phase.work.pending))))
    case SaveChunk(n) =>
      s.(cursors := Upsert(s.cursors, s.phase.work.rest[..n]),
         phase := s.phase.(work := Saving(s.phase.work.rest[n..])))
    case Resume => s.(phase := s.phase.(work := Collecting([], [])))
    case End => s.(phase := Stopped)
    case Cleanup => s.(cursors := map url | url in s.cursors && url in s.tables.relays :: s.cursors[url])
    case Arrive(row) => s.(table := Stored(s.table, row))
    case Others(tables) => s.(tables := tables)
    case Crash => s.(phase := Stopped)
  }

  function Noted(s: State): State {
    s.(known := s.known + s.tables.relays + s.tables.candidates.Keys)
  }

  /** An action that is not enabled changes nothing. */
  ghost function Step(w: World, s: State, a: Action): State {
    if Enabled(s, a, w) then Noted(Effect(w, s, a)) else s
  }

  ghost function Run(w: World, s: State, actions: seq<Action>): State
    decreases |actions|
  {
    if actions == [] then s
    else Step(w, Run(w, s, actions[..|actions| - 1]), actions[|actions| - 1])
  }

  // ----- The order of positions -----

  /** What was read ahead are rows of the relay, strictly ascending above the position. */
  ghost predicate InOrder(table: seq<Row>, relay: Url, start: Key, rows: seq<Row>) {
    && Ascending(RowKey, rows)
    && forall r :: r in rows ==> r in table && r.relay == relay && Less(start, RowKey(r))
  }

  /** The positions to be saved are where the consumer is, and ahead of the saved ones. */
  ghost predicate Ahead(s: State, at: map<Url, Key>, records: seq<Cursor>) {
    && at.Keys <= s.tables.relays
    && OnePerKey(records)
    && (forall c :: c in records ==>
          c.key in at && at[c.key] == Position(c) && Less(Saved(s.cursors, c.key), Position(c)))
    && (forall relay :: relay in at ==> !Less(at[relay], Saved(s.cursors, relay)))
    && (forall relay :: relay in at && !Mentions(records, relay) ==>
          at[relay] == Saved(s.cursors, relay) || at[relay].timestamp == 0)
  }

  function Records(work: Work): seq<Cursor> {
    if work.Saving? then work.rest else work.pending
  }

  ghost predicate Ordered(s: State) {
    && OneRowPerEvent(s.table)
    && (s.phase.Active? ==>
          && s.phase.ahead.Keys == s.phase.at.Keys
          && Ahead(s, s.phase.at, Records(s.phase.work))
          && forall relay :: relay in s.phase.at ==> InOrder(s.table, relay, s.phase.at[relay], s.phase.ahead[relay]))
  }

  lemma {:induction false} PersistableElems(pending: seq<Cursor>)
    requires OnePerKey(pending)
    ensures forall c :: c in Persistable(pending) <==> c in pending && c.timestamp > 0
    ensures OnePerKey(Persistable(pending))
  {
    if pending != [] {
      PersistableElems(pending[1..]);
      var rest := Persistable(pending[1..]);
      assert forall c :: c in pending <==> c == pending[0] || c in pending[1..];
      assert forall c :: c in pending[1..] ==> c.key != pending[0].key;
      assert forall j :: 0 <= j < |rest| ==> rest[j] in rest;
    }
  }

  lemma ScanInOrder(table: seq<Row>, relay: Url, after: Key, size: nat)
    requires OneRowPerEvent(table)
    ensures InOrder(table, relay, after, Scan(table, relay, after, size))
  {
    var query, page := Query(table, relay, after), Scan(table, relay, after, size);
    QueryRows(table, relay, after);
    assert forall i :: 0 <= i < |page| ==> page[i] == query[i] && query[i] in query;
  }

  /** The next page continues what was read, in order. */
  lemma PageInOrder(table: seq<Row>, relay: Url, start: Key, rows: seq<Row>, size: nat)
    requires OneRowPerEvent(table) && InOrder(table, relay, start, rows)
    ensures InOrder(table, relay, start, rows + Scan(table, relay, Reach(start, rows), size))
  {
    var reach, page := Reach(start, rows), Scan(table, relay, Reach(start, rows), size);
    ScanInOrder(table, relay, reach, size);
    assert forall i :: 0 <= i < |rows| ==> rows[i] in rows && !Less(reach, RowKey(rows[i]));
    assert forall i :: 0 <= i < |page| ==> page[i] in page;
    assert rows != [] ==> rows[|rows| - 1] in rows;
  }

  lemma TailInOrder(table: seq<Row>, relay: Url, start: Key, rows: seq<Row>)
    requires InOrder(table, relay, start, rows) && rows != []
    ensures InOrder(table, relay, RowKey(rows[0]), rows[1..]) && Less(start, RowKey(rows[0]))
  {
    assert rows[0] in rows;
    forall r | r in rows[1..] ensures r in rows && Less(RowKey(rows[0]), RowKey(r)) {
      var i :| 0 <= i < |rows[1..]| && rows[1..][i] == r;
      assert rows[i + 1] == r;
    }
  }

  lemma ConsumeStaysAhead(s: State, at: map<Url, Key>, pending: seq<Cursor>, next: Cursor)
    requires Ahead(s, at, pending) && next.key in at && Less(at[next.key], Position(next))
    ensures Ahead(s, at[next.key := Position(next)], Put(pending, next))
  {
    PutElems(pending, next);
    var after, put := at[next.key := Position(next)], Put(pending, next);
    assert next in put;
    forall relay | relay in after
      ensures !Less(after[relay], Saved(s.cursors, relay))
      ensures !Mentions(put, relay) ==> after[relay] == Saved(s.cursors, relay) || after[relay].timestamp == 0
    {
      if relay != next.key && Mentions(pending, relay) {
        var c :| c in pending && c.key == relay;
        assert c in put;
      }
    }
    forall c | c in put
      ensures c.key in after && after[c.key] == Position(c) && Less(Saved(s.cursors, c.key), Position(c))
    {
    }
  }

  lemma ConsumeKeepsOrder(w: World, s: State, relay: Url, found: seq<Url>)
    requires Ordered(s) && Enabled(s, Consume(relay, found), w)
    ensures Ordered(Step(w, s, Consume(relay, found)))
  {
    var rows := s.phase.ahead[relay];
    TailInOrder(s.table, relay, s.phase.at[relay], rows);
    ConsumeStaysAhead(s, s.phase.at, s.phase.work.pending, CursorAt(relay, rows[0]));
  }

  lemma BeginSaveKeepsOrder(w: World, s: State)
    requires Ordered(s) && Enabled(s, BeginSave, w)
    ensures Ordered(Step(w, s, BeginSave))
  {
    var pending := s.phase.work.pending;
    PersistableElems(pending);
    assert forall relay :: Mentions(pending, relay) && !Mentions(Persistable(pending), relay) && relay in s.phase.at ==>
      s.phase.at[relay].timestamp == 0;
  }

  /** A chunk of cursors is written: the saved positions of its relays advance, the others stay. */
  lemma SaveEffect(w: World, s: State, n: nat, relay: Url)
    requires Ordered(s) && Enabled(s, SaveChunk(n), w)
    ensures var t := Step(w, s, SaveChunk(n));
            && (Mentions(s.phase.work.rest[..n], relay) ==>
                  && relay in s.phase.at && relay in t.cursors && t.cursors[relay] == s.phase.at[relay]
                  && Less(Saved(s.cursors, relay), t.cursors[relay]))
            && (!Mentions(s.phase.work.rest[..n], relay) ==>
                  && (relay in t.cursors <==> relay in s.cursors)
                  && (relay in t.cursors ==> t.cursors[relay] == s.cursors[relay]))
  {
    var rest := s.phase.work.rest;
    assert rest == rest[..n] + rest[n..];
    UpsertEffect(s.cursors, rest[..n], relay);
    if Mentions(rest[..n], relay) {
      var c :| c in rest[..n] && c.key == relay;
      assert c in rest;
    }
  }

  lemma SaveMovesUp(w: World, s: State, n: nat, relay: Url)
    requires Ordered(s) && Enabled(s, SaveChunk(n), w) && relay in s.phase.at
    ensures var at, t := s.phase.at[relay], Step(w, s, SaveChunk(n));
            && !Less(at, Saved(t.cursors, relay))
            && (!Mentions(s.phase.work.rest[n..], relay) ==> at == Saved(t.cursors, relay) || at.timestamp == 0)
  {
    SaveEffect(w, s, n, relay);
    MentionedInParts(s.phase.work.rest, n, relay);
  }

  lemma MentionedInParts(rest: seq<Cursor>, n: nat, relay: Url)
    requires n <= |rest|
    ensures Mentions(rest, relay) ==> Mentions(rest[..n], relay) || Mentions(rest[n..], relay)
  {
    assert rest == rest[..n] + rest[n..];
  }

  lemma StillToSave(w: World, s: State, n: nat, c: Cursor)
    requires Ordered(s) && Enabled(s, SaveChunk(n), w) && c in s.phase.work.rest[n..]
    ensures c in s.phase.work.rest && Less(Saved(Step(w, s, SaveChunk(n)).cursors, c.key), Position(c))
  {
    KeyIsStillToSave(s.phase.work.rest, n, c);
    SaveEffect(w, s, n, c.key);
  }

  lemma KeyIsStillToSave(rest: seq<Cursor>, n: nat, c: Cursor)
    requires OnePerKey(rest) && n <= |rest| && c in rest[n..]
    ensures c in rest && !Mentions(rest[..n], c.key)
  {
    var j :| 0 <= j < |rest[n..]| && rest[n..][j] == c;
    assert rest[n + j] == c;
    forall d | d in rest[..n] ensures d.key != c.key {
      var i :| 0 <= i < n && rest[i] == d;
    }
  }

  lemma SaveKeepsOrder(w: World, s: State, n: nat)
    requires Ordered(s) && Enabled(s, SaveChunk(n), w)
    ensures Ordered(Step(w, s, SaveChunk(n)))
  {
    var t := Step(w, s, SaveChunk(n));
    var at, rest := s.phase.at, s.phase.work.rest[n..];
    forall relay | relay in at
      ensures !Less(at[relay], Saved(t.cursors, relay))
      ensures !Mentions(rest, relay) ==> at[relay] == Saved(t.cursors, relay) || at[relay].timestamp == 0
    {
      SaveMovesUp(w, s, n, relay);
    }
    forall c | c in rest ensures c in s.phase.work.rest && Less(Saved(t.cursors, c.key), Position(c)) {
      StillToSave(w, s, n, c);
    }
  }

  lemma ReadKeepsOrder(w: World, s: State, relay: Url, size: nat)
    requires Ordered(s) && Enabled(s, ReadPage(relay, size), w)
    ensures Ordered(Step(w, s, ReadPage(relay, size)))
  {
    PageInOrder(s.table, relay, s.phase.at[relay], s.phase.ahead[relay], size);
  }

  lemma ArriveKeepsOrder(w: World, s: State, row: Row)
    requires Ordered(s)
    ensures Ordered(Step(w, s, Arrive(row)))
  {
    StoredKeepsKey(s.table, row);
  }

  lemma StepKeepsOrder(w: World, s: State, a: Action)
    requires Ordered(s)
    ensures Ordered(Step(w, s, a))
  {
    if Enabled(s, a, w) {
      match a {
        case ReadPage(relay, size) => ReadKeepsOrder(w, s, relay, size);
        case Consume(relay, found) => ConsumeKeepsOrder(w, s, relay, found);
        case BeginSave => BeginSaveKeepsOrder(w, s);
        case SaveChunk(n) => SaveKeepsOrder(w, s, n);
        case Arrive(row) => ArriveKeepsOrder(w, s, row);
        case _ =>
      }
    }
  }

  lemma {:induction false} EveryRunKeepsOrder(w: World, s: State, actions: seq<Action>)
    requires s.phase.Stopped? && OneRowPerEvent(s.table)
    ensures Ordered(Run(w, s, actions))
    decreases |actions|
  {
    if actions != [] {
      var rest := actions[..|actions| - 1];
      EveryRunKeepsOrder(w, s, rest);
      StepKeepsOrder(w, Run(w, s, rest), actions[|actions| - 1]);
    }
  }

  /**
   A step advances a saved cursor strictly or leaves it alone; only the cleanup removes
   one, and only without its relay.
   */
  lemma StepAdvances(w: World, s: State, a: Action, relay: Url)
    requires Ordered(s) && relay in s.cursors
    ensures var t := Step(w, s, a);
            if relay in t.cursors then t.cursors[relay] == s.cursors[relay] || Less(s.cursors[relay], t.cursors[relay])
            else a.Cleanup? && relay !in s.tables.relays
  {
    if a.SaveChunk? && Enabled(s, a, w) {
      SaveEffect(w, s, a.n, relay);
    }
  }

  lemma StepKeepsPosition(w: World, s: State, a: Action, relay: Url)
    requires Ordered(s) && relay in s.tables.relays
    ensures var t := Step(w, s, a);
            relay in t.tables.relays && !Less(Saved(t.cursors, relay), Saved(s.cursors, relay))
  {
    if relay in s.cursors {
      StepAdvances(w, s, a, relay);
    }
  }

  /** Over any run, the saved position of a relay never moves back. */
  lemma {:induction false} CursorsNeverMoveBack(w: World, s: State, actions: seq<Action>, n: nat, relay: Url)
    requires s.phase.Stopped? && OneRowPerEvent(s.table) && n <= |actions|
    requires relay in Run(w, s, actions[..n]).tables.relays
    ensures var t, u := Run(w, s, actions[..n]), Run(w, s, actions);
            relay in u.tables.relays && !Less(Saved(u.cursors, relay), Saved(t.cursors, relay))
    decreases |actions|
  {
    if n < |actions| {
      var rest := actions[..|actions| - 1];
      assert rest[..n] == actions[..n];
      CursorsNeverMoveBack(w, s, rest, n, relay);
      EveryRunKeepsOrder(w, s, rest);
      StepKeepsPosition(w, Run(w, s, rest), actions[|actions| - 1], relay);
    } else {
      assert actions[..n] == actions;
    }
  }

  /** When a scan ends, every relay's consumed position is saved, unless it is still at the default timestamp. */
  lemma EndLosesNothing(w: World, s: State, actions: seq<Action>, relay: Url)
    requires s.phase.Stopped? && OneRowPerEvent(s.table)
    requires Enabled(Run(w, s, actions), End, w)
    requires relay in Run(w, s, actions).phase.at
    ensures var t := Run(w, s, actions);
            t.phase.at[relay] == Saved(t.cursors, relay) || t.phase.at[relay].timestamp == 0
  {
    EveryRunKeepsOrder(w, s, actions);
  }
}
