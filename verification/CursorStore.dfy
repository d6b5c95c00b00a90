/** Persisted cursors and the dictionary of pending ones. */
module CursorStore {
  import opened Keyset

  type Url = string

  /** A position of one relay's stream. */
  datatype Cursor = Cursor(key: Url, timestamp: nat, id: nat)

  function Position(c: Cursor): Key { Key(c.timestamp, c.id) }

  /** The timestamp a stream resumes from. */
  function Timestamp(cursors: map<Url, Key>, url: Url): nat {
    if url in cursors then cursors[url].timestamp else 0
  }

  // ----- Pending cursors: a dictionary that keeps the order of first insertion -----

  function Put(pending: seq<Cursor>, c: Cursor): seq<Cursor> {
    if pending == [] then [c]
    else if pending[0].key == c.key then [c] + pending[1..]
    else [pending[0]] + Put(pending[1..], c)
  }

  ghost predicate OnePerKey(pending: seq<Cursor>) {
    forall i, j :: 0 <= i < j < |pending| ==> pending[i].key != pending[j].key
  }

  lemma {:induction false} PutElems(pending: seq<Cursor>, c: Cursor)
    requires OnePerKey(pending)
    ensures OnePerKey(Put(pending, c))
    ensures forall p :: p in Put(pending, c) <==> p == c || (p in pending && p.key != c.key)
  {
    if pending != [] {
      PutElems(pending[1..], c);
      var rest := Put(pending[1..], c);
      assert forall p :: p in pending <==> p == pending[0] || p in pending[1..];
      assert forall p :: p in pending[1..] ==> p.key != pending[0].key;
      if pending[0].key != c.key {
        assert Put(pending, c) == [pending[0]] + rest;
        assert forall j :: 0 <= j < |rest| ==> rest[j] in rest;
      }
    }
  }

  // ----- Upserts -----

  function Upsert(cursors: map<Url, Key>, records: seq<Cursor>): map<Url, Key>
    decreases |records|
  {
    if records == [] then cursors
    else Upsert(cursors[records[0].key := Position(records[0])], records[1..])
  }

  predicate Mentions(records: seq<Cursor>, url: Url) {
    exists r :: r in records && r.key == url
  }

  /** An upsert writes the given positions and nothing else. */
  lemma {:induction false} UpsertEffect(cursors: map<Url, Key>, records: seq<Cursor>, url: Url)
    requires OnePerKey(records)
    ensures var m := Upsert(cursors, records);
            && (forall r :: r in records && r.key == url ==> url in m && m[url] == Position(r))
            && (!Mentions(records, url) ==> (url in m <==> url in cursors) && (url in m ==> m[url] == cursors[url]))
    decreases |records|
  {
    if records != [] {
      var next := cursors[records[0].key := Position(records[0])];
      assert forall r :: r in records <==> r == records[0] || r in records[1..];
      assert forall r :: r in records[1..] ==> r.key != records[0].key;
      UpsertEffect(next, records[1..], url);
      assert Mentions(records, url) <==> records[0].key == url || Mentions(records[1..], url);
    }
  }

  lemma {:induction false} UpsertConcat(cursors: map<Url, Key>, a: seq<Cursor>, b: seq<Cursor>)
    ensures Upsert(cursors, a + b) == Upsert(Upsert(cursors, a), b)
    decreases |a|
  {
    if a == [] {
      assert a + b == b;
    } else {
      assert (a + b)[1..] == a[1..] + b;
      UpsertConcat(cursors[a[0].key := Position(a[0])], a[1..], b);
    }
  }
}
