/** Reading the stored event rows of one relay page by page, and the relay URLs in them. */
module FinderScan {
  import opened Batches
  import opened CursorStore
  import opened Keyset
  import opened Nostr
  import opened Strings

  /**
   A row of the event table joined with one relay that carried the event; a tag value that
   is not a string is `None`.
   */
  datatype Row = Row(relay: Url, seenAt: nat, eventId: nat, tagvalues: seq<Option<string>>)

  function RowKey(r: Row): Key { Key(r.seenAt, r.eventId) }

  /** A relay carries an event once: the primary key of the junction table. */
  ghost predicate OneRowPerEvent(table: seq<Row>) {
    forall i, j :: 0 <= i < j < |table| ==> table[i].relay != table[j].relay || table[i].eventId != table[j].eventId
  }

  predicate Conflicts(table: seq<Row>, row: Row) {
    exists r :: r in table && r.relay == row.relay && r.eventId == row.eventId
  }

  /** Another service stores a row, unless it is there already. */
  function Stored(table: seq<Row>, row: Row): seq<Row> {
    if Conflicts(table, row) then table else table + [row]
  }

  lemma StoredKeepsKey(table: seq<Row>, row: Row)
    requires OneRowPerEvent(table)
    ensures OneRowPerEvent(Stored(table, row))
    ensures forall r :: r in Stored(table, row) <==> r in table || (r == row && !Conflicts(table, row))
  {
    assert forall i :: 0 <= i < |table| ==> table[i] in table;
  }

  function Matching(table: seq<Row>, relay: Url, after: Key): seq<Row> {
    if table == [] then []
    else
      var head := if table[0].relay == relay && Less(after, RowKey(table[0])) then [table[0]] else [];
      head + Matching(table[1..], relay, after)
  }

  /** The simple query: all rows of the relay above the position, in order. */
  function Query(table: seq<Row>, relay: Url, after: Key): seq<Row> {
    Sort(RowKey, Matching(table, relay, after))
  }

  /** The page query: the same with a limit. */
  function Scan(table: seq<Row>, relay: Url, after: Key, limit: nat): seq<Row> {
    var rows := Query(table, relay, after);
    rows[..Min(limit, |rows|)]
  }

  lemma {:induction false} MatchingRows(table: seq<Row>, relay: Url, after: Key)
    ensures forall r :: r in Matching(table, relay, after) <==> r in table && r.relay == relay && Less(after, RowKey(r))
    ensures OneRowPerEvent(table) ==> DistinctKeys(RowKey, Matching(table, relay, after))
  {
    if table != [] {
      MatchingRows(table[1..], relay, after);
      var rest := Matching(table[1..], relay, after);
      assert forall r :: r in table <==> r == table[0] || r in table[1..];
      assert forall j :: 0 <= j < |rest| ==> rest[j] in rest;
      if OneRowPerEvent(table) {
        assert forall r :: r in table[1..] && r.relay == table[0].relay ==> r.eventId != table[0].eventId;
      }
    }
  }

  /** The query returns exactly the rows of the relay above the position, strictly ascending. */
  lemma QueryRows(table: seq<Row>, relay: Url, after: Key)
    requires OneRowPerEvent(table)
    ensures Ascending(RowKey, Query(table, relay, after))
    ensures forall r :: r in Query(table, relay, after) <==> r in table && r.relay == relay && Less(after, RowKey(r))
  {
    var rows := Matching(table, relay, after);
    MatchingRows(table, relay, after);
    SortAscends(RowKey, rows);
    SortElems(RowKey, rows);
    assert forall r :: r in Sort(RowKey, rows) <==> r in Elems(Sort(RowKey, rows));
    assert forall r :: r in rows <==> r in Elems(rows);
  }

  lemma SuffixRows(rows: seq<Row>, n: nat, r: Row)
    requires Ascending(RowKey, rows) && 0 < n <= |rows|
    ensures r in rows[n..] <==> r in rows && Less(RowKey(rows[n - 1]), RowKey(r))
  {
    if r in rows {
      var i :| 0 <= i < |rows| && rows[i] == r;
      if i >= n {
        assert rows[n..][i - n] == r;
      }
    }
  }

  /** Resuming after the n-th row continues the same result. */
  lemma QueryResumes(table: seq<Row>, relay: Url, after: Key, n: nat)
    requires OneRowPerEvent(table) && 0 < n <= |Query(table, relay, after)|
    ensures Query(table, relay, RowKey(Query(table, relay, after)[n - 1])) == Query(table, relay, after)[n..]
  {
    var rows := Query(table, relay, after);
    var last := rows[n - 1];
    var resumed := Query(table, relay, RowKey(last));
    QueryRows(table, relay, after);
    QueryRows(table, relay, RowKey(last));
    assert last in rows;
    forall r ensures r in Elems(resumed) <==> r in Elems(rows[n..]) {
      SuffixRows(rows, n, r);
    }
    AscendingIsUnique(RowKey, resumed, rows[n..]);
  }

  /** The page loop: for any page size it ends, and yields the rows of the simple query, in order and once each. */
  method StreamEventRelays(table: seq<Row>, start: Cursor, batchSize: nat) returns (yielded: seq<Row>)
    requires OneRowPerEvent(table) && batchSize >= 1
    ensures yielded == Query(table, start.key, Position(start))
  {
    yielded := [];
    var cursor := start;
    while true
      invariant cursor.key == start.key
      invariant yielded + Query(table, cursor.key, Position(cursor)) == Query(table, start.key, Position(start))
      decreases |Query(table, cursor.key, Position(cursor))|
    {
      ghost var left := Query(table, cursor.key, Position(cursor));
      var rows := Scan(table, cursor.key, Position(cursor), batchSize);
      if rows == [] {
        break;
      }
      yielded := yielded + rows;
      var last := rows[|rows| - 1];
      QueryResumes(table, cursor.key, Position(cursor), |rows|);
      Regroup(yielded[..|yielded| - |rows|], rows, left[|rows|..]);
      assert left == rows + left[|rows|..];
      cursor := Cursor(cursor.key, last.seenAt, last.eventId);
      if |rows| < batchSize {
        break;
      }
    }
  }

  // ----- Relay URLs in tag values -----

  /** `partition(":")`: what follows the first colon; nothing if there is none. */
  lemma {:induction false} AfterColonSplits(prefix: string, rest: string)
    requires ':' !in prefix
    ensures After(prefix + ([':'] + rest), ':') == rest && After(prefix, ':') == []
  {
    BeforeAndAfter(prefix, ':', rest);
    if prefix != [] {
      AfterColonSplits(prefix[1..], rest);
    }
  }

  function UrlOf(parse: string -> Option<Url>, value: Option<string>): Option<Url> {
    if value.Some? then parse(After(value.value, ':')) else None
  }

  /** The URL of a tag value is what follows its first colon, if that is one; a value that is no string has none. */
  lemma UrlFollowsColon(parse: string -> Option<Url>, prefix: string, rest: string)
    requires ':' !in prefix
    ensures UrlOf(parse, Some(prefix + ([':'] + rest))) == parse(rest)
    ensures UrlOf(parse, Some(prefix)) == parse([])
    ensures UrlOf(parse, None) == None
  {
    AfterColonSplits(prefix, rest);
  }

  /** The URL is extractable from the row. */
  ghost predicate Names(parse: string -> Option<Url>, row: Row, url: Url) {
    exists v :: v in row.tagvalues && UrlOf(parse, v) == Some(url)
  }

  ghost predicate NamedBy(parse: string -> Option<Url>, rows: seq<Row>, url: Url) {
    exists row :: row in rows && Names(parse, row, url)
  }

  lemma NamedByOneMore(parse: string -> Option<Url>, rows: seq<Row>, i: nat)
    requires i < |rows|
    ensures forall url ::
              NamedBy(parse, rows[..i + 1], url) <==> NamedBy(parse, rows[..i], url) || Names(parse, rows[i], url)
  {
    assert rows[..i + 1] == rows[..i] + [rows[i]];
    assert rows[i] in rows[..i + 1];
    assert forall r :: r in rows[..i + 1] <==> r in rows[..i] || r == rows[i];
  }

  /** Every URL that some row names, once. */
  method ExtractRelays(parse: string -> Option<Url>, rows: seq<Row>) returns (relays: seq<Url>)
    ensures forall url :: url in relays <==> NamedBy(parse, rows, url)
    ensures forall i, j :: 0 <= i < j < |relays| ==> relays[i] != relays[j]
  {
    var seen: set<Url> := {};
    relays := [];
    for i := 0 to |rows|
      invariant Listed(seen, relays)
      invariant forall url :: url in seen <==> NamedBy(parse, rows[..i], url)
    {
      ghost var before := seen;
      var row := rows[i];
      for j := 0 to |row.tagvalues|
        invariant Listed(seen, relays)
        invariant forall url ::
          url in seen <==> url in before || exists v :: v in row.tagvalues[..j] && UrlOf(parse, v) == Some(url)
      {
        var url := UrlOf(parse, row.tagvalues[j]);
        assert row.tagvalues[..j + 1] == row.tagvalues[..j] + [row.tagvalues[j]];
        if url.Some? && url.value !in seen {
          seen := seen + {url.value};
          relays := relays + [url.value];
        }
      }
      assert row.tagvalues[..|row.tagvalues|] == row.tagvalues;
      assert forall url :: url in seen <==> url in before || Names(parse, row, url);
      NamedByOneMore(parse, rows, i);
    }
    assert rows[..|rows|] == rows;
  }

  ghost predicate Listed(seen: set<Url>, relays: seq<Url>) {
    && (forall url :: url in seen <==> url in relays)
    && (forall i, j :: 0 <= i < j < |relays| ==> relays[i] != relays[j])
  }
}
