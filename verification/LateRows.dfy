/**
 A row that arrives too late: in the second of a row that was scanned, with a smaller
 identifier. Here is a run that ends in such an arrival.
 */
module LateRows {
  import opened Candidates
  import opened CursorStore
  import opened Finder
  import opened FinderCoverage
  import opened FinderScan
  import opened Keyset
  import opened Nostr

  lemma {:induction false} NothingAbove(table: seq<Row>, relay: Url, after: Key)
    requires forall r :: r in table && r.relay == relay ==> !Less(after, RowKey(r))
    ensures Query(table, relay, after) == []
  {
    if table != [] {
      assert table[0] in table;
      NothingAbove(table[1..], relay, after);
      assert Matching(table[1..], relay, after) == [] by {
        MatchingRows(table[1..], relay, after);
      }
    }
  }

  /** Any new row that is not above the saved cursor and names an unknown URL breaks the promise. */
  lemma LateRowBreaks(w: World, s: State, late: Row, url: Url)
    requires OneRowPerEvent(s.table) && Recorded(s) && CursorsCovered(w, s) && !Conflicts(s.table, late)
    requires late.relay in s.cursors && IsWithin(late, late.relay, s.cursors[late.relay])
    requires Names(w.parse, late, url) && url !in s.known
    ensures !OnTimeForCursor(w, s, late) && !CursorsCovered(w, Step(w, s, Arrive(late)))
  {
    assert !NamedBy(w.parse, [], url);
    CursorsIffOnTime(w, s, late);
  }

  // ----- The scan before it -----

  /** One relay, and nothing else in the database. */
  function Empty(relay: Url): State {
    State([], Tables({relay}, map[]), map[], Stopped, {relay}, {}, 0)
  }

  function Scanning(seen: Row, at: Key, ahead: seq<Row>, work: Work): State {
    var relay := seen.relay;
    State([seen], Tables({relay}, map[]), map[], Active(map[relay := at], map[relay := ahead], work), {relay}, {}, 0)
  }

  function Scanned(seen: Row): State {
    State([seen], Tables({seen.relay}, map[]), map[seen.relay := RowKey(seen)], Stopped, {seen.relay}, {}, 0)
  }

  lemma RunThen(w: World, s: State, actions: seq<Action>, t: State, a: Action)
    requires Run(w, s, actions) == t
    ensures Run(w, s, actions + [a]) == Step(w, t, a)
  {
    assert (actions + [a])[..|actions|] == actions;
  }

  /** The row is stored, and a scan begins. */
  lemma ScanBegins(w: World, seen: Row) returns (actions: seq<Action>)
    ensures Run(w, Empty(seen.relay), actions) == Scanning(seen, Origin, [], Collecting([], []))
    ensures actions == [Arrive(seen), Begin]
  {
    var s := Empty(seen.relay);
    var stored := s.(table := [seen]);
    assert Step(w, s, Arrive(seen)) == stored;
    assert Start(s.cursors, s.tables.relays) == map[seen.relay := Origin];
    assert NothingRead(s.tables.relays) == map[seen.relay := []];
    RunThen(w, s, [], s, Arrive(seen));
    assert [] + [Arrive(seen)] == [Arrive(seen)];
    RunThen(w, s, [Arrive(seen)], stored, Begin);
    actions := [Arrive(seen)] + [Begin];
  }

  lemma OneRow(seen: Row, after: Key)
    requires Less(after, RowKey(seen))
    ensures Scan([seen], seen.relay, after, 1) == [seen]
  {
    assert [seen][1..] == [];
    assert Matching([seen], seen.relay, after) == [seen];
    assert Sort(RowKey, [seen]) == Insert(RowKey, seen, Sort(RowKey, []));
  }

  lemma OneCursor(c: Cursor)
    requires c.timestamp > 0
    ensures Persistable([c]) == [c] && Upsert(map[], [c]) == map[c.key := Position(c)]
  {
    assert [c][1..] == [];
  }

  /** Its page is read, and the row consumed. */
  lemma RowIsConsumed(w: World, seen: Row, before: seq<Action>)
    requires seen.tagvalues == [] && Less(Origin, RowKey(seen))
    requires Run(w, Empty(seen.relay), before) == Scanning(seen, Origin, [], Collecting([], []))
    ensures Run(w, Empty(seen.relay), before + [ReadPage(seen.relay, 1)] + [Consume(seen.relay, [])])
         == Scanning(seen, RowKey(seen), [], Collecting([], [CursorAt(seen.relay, seen)]))
  {
    var relay, s := seen.relay, Empty(seen.relay);
    var begun := Scanning(seen, Origin, [], Collecting([], []));
    var read := Scanning(seen, Origin, [seen], Collecting([], []));
    OneRow(seen, Origin);
    assert Reach(Origin, []) == Origin && [] + [seen] == [seen];
    assert begun.phase.ahead[relay := [seen]] == map[relay := [seen]];
    assert Effect(w, begun, ReadPage(relay, 1)) == read;
    assert Noted(read) == read;
    RunThen(w, s, before, begun, ReadPage(relay, 1));
    var c := CursorAt(relay, seen);
    var consumed := Scanning(seen, RowKey(seen), [], Collecting([], [c]));
    assert Lists(w, seen, []) && [seen][1..] == [] && [] + [] == read.phase.work.buffer;
    assert read.phase.at[relay := RowKey(seen)] == map[relay := RowKey(seen)];
    assert read.phase.ahead[relay := []] == map[relay := []];
    assert Effect(w, read, Consume(relay, [])) == consumed && Noted(consumed) == consumed;
    RunThen(w, s, before + [ReadPage(relay, 1)], read, Consume(relay, []));
  }

  /** Nothing is to be registered; the cursor is saved, and the scan ends. */
  lemma CursorIsSaved(w: World, seen: Row, before: seq<Action>)
    requires seen.seenAt > 0
    requires Run(w, Empty(seen.relay), before)
          == Scanning(seen, RowKey(seen), [], Collecting([], [CursorAt(seen.relay, seen)]))
    ensures Run(w, Empty(seen.relay), before + [Filter] + [BeginSave] + [SaveChunk(1)] + [Resume] + [End])
         == Scanned(seen)
  {
    var s, c := Empty(seen.relay), CursorAt(seen.relay, seen);
    var consumed := Scanning(seen, RowKey(seen), [], Collecting([], [c]));
    var filtered := Scanning(seen, RowKey(seen), [], Registering([], [c]));
    var saving := Scanning(seen, RowKey(seen), [], Saving([c]));
    var saved := Scanning(seen, RowKey(seen), [], Saving([])).(cursors := map[seen.relay := RowKey(seen)]);
    RunThen(w, s, before, consumed, Filter);
    assert Step(w, consumed, Filter) == filtered;
    RunThen(w, s, before + [Filter], filtered, BeginSave);
    OneCursor(c);
    assert Step(w, filtered, BeginSave) == saving;
    RunThen(w, s, before + [Filter] + [BeginSave], saving, SaveChunk(1));
    assert [c][..1] == [c] && [c][1..] == [];
    assert Step(w, saving, SaveChunk(1)) == saved;
    RunThen(w, s, before + [Filter] + [BeginSave] + [SaveChunk(1)], saved, Resume);
    RunThen(w, s, before + [Filter] + [BeginSave] + [SaveChunk(1)] + [Resume], Step(w, saved, Resume), End);
  }

  lemma ScanEnds(w: World, seen: Row) returns (actions: seq<Action>)
    requires seen.tagvalues == [] && seen.seenAt > 0
    ensures Run(w, Empty(seen.relay), actions) == Scanned(seen)
    ensures actions != [] && actions[0] == Arrive(seen) && forall k :: 1 <= k < |actions| ==> !actions[k].Arrive?
  {
    var begun := ScanBegins(w, seen);
    RowIsConsumed(w, seen, begun);
    var consumed := begun + [ReadPage(seen.relay, 1)] + [Consume(seen.relay, [])];
    CursorIsSaved(w, seen, consumed);
    actions := consumed + [Filter] + [BeginSave] + [SaveChunk(1)] + [Resume] + [End];
  }

  // ----- The late row -----

  lemma FirstIsOnTime(w: World, relay: Url, actions: seq<Action>)
    requires actions != [] && forall k :: 1 <= k < |actions| ==> !actions[k].Arrive?
    ensures IsStart(w, Empty(relay)) && forall k: nat :: k < |actions| ==> OnTimeAt(w, Empty(relay), actions, k)
  {
    assert actions[..0] == [];
  }

  /**
   Every row of the run is on time, and its scan saves the cursor of the row that it
   saw. Then the late row arrives: the promise is broken, and no scan from there asks
   for the row.
   */
  lemma LateRow(w: World, relay: Url, value: string, url: Url, seen: Row, late: Row) returns (actions: seq<Action>)
    requires UrlOf(w.parse, Some(value)) == Some(url) && url != relay
    requires seen == Row(relay, 100, 7, []) && late == Row(relay, 100, 3, [Some(value)])
    ensures IsStart(w, Empty(relay)) && forall k: nat :: k < |actions| ==> OnTimeAt(w, Empty(relay), actions, k)
    ensures var t := Run(w, Empty(relay), actions);
            && t.cursors == map[relay := Key(100, 7)] && IsStart(w, t) && !OnTimeForCursor(w, t, late)
            && var u := Step(w, t, Arrive(late));
               && !CursorsCovered(w, u) && url !in u.known
               && late in u.table && Query(u.table, relay, u.cursors[relay]) == []
  {
    actions := ScanEnds(w, seen);
    FirstIsOnTime(w, relay, actions);
    LateAfterScan(w, value, url, seen, late);
  }

  lemma LateAfterScan(w: World, value: string, url: Url, seen: Row, late: Row)
    requires UrlOf(w.parse, Some(value)) == Some(url) && url != seen.relay && seen.tagvalues == []
    requires late.relay == seen.relay && late.eventId != seen.eventId && late.tagvalues == [Some(value)]
    requires Less(Origin, RowKey(late)) && Less(RowKey(late), RowKey(seen))
    ensures var t := Scanned(seen);
            && IsStart(w, t) && !OnTimeForCursor(w, t, late)
            && var u := Step(w, t, Arrive(late));
               && !CursorsCovered(w, u) && url !in u.known
               && late in u.table && Query(u.table, seen.relay, u.cursors[seen.relay]) == []
  {
    var t := Scanned(seen);
    assert late.tagvalues[0] in late.tagvalues && Names(w.parse, late, url);
    assert CursorsCovered(w, t) by {
      assert forall u :: !Names(w.parse, seen, u);
    }
    LateRowBreaks(w, t, late, url);
    StoredKeepsKey(t.table, late);
    NothingAbove(Stored(t.table, late), seen.relay, t.cursors[seen.relay]);
  }
}
