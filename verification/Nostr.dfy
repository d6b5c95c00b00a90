/**
 Nostr events as a relay delivers them, and the domain events that the stream
 yields.
 */
module Nostr {
  import opened Batches
  import opened Keyset

  datatype Option<+T> = None | Some(value: T)

  /**
   A raw event. `jsonSize` is the length of its JSON form and `signed` the
   outcome of its signature check; both are functions of the event.
   */
  datatype NostrEvent = NostrEvent(
    id: nat, createdAt: nat, kind: nat, tags: seq<seq<string>>, content: string,
    jsonSize: nat, signed: bool)

  datatype Event = Event(
    id: nat, createdAt: nat, kind: nat, tags: seq<seq<string>>, content: string)

  const MAX_TAG_VALUE_LENGTH := 2048

  function RawKey(e: NostrEvent): Key { Key(e.createdAt, e.id) }

  function EventKey(e: Event): Key { Key(e.createdAt, e.id) }

  function ToEvent(e: NostrEvent): Event {
    Event(e.id, e.createdAt, e.kind, e.tags, e.content)
  }

  /** What the `Event` constructor accepts: no null characters, no oversized tag value. */
  predicate Representable(e: NostrEvent) {
    && '\0' !in e.content
    && forall i, j :: 0 <= i < |e.tags| && 0 <= j < |e.tags[i]| ==>
         '\0' !in e.tags[i][j] && |e.tags[i][j]| <= MAX_TAG_VALUE_LENGTH
  }

  /** The events that reach the consumer of a stream. */
  predicate Convertible(maxEventSize: Option<nat>, e: NostrEvent) {
    (maxEventSize.Some? ==> e.jsonSize <= maxEventSize.value) && Representable(e)
  }

  function ConvertOne(maxEventSize: Option<nat>, e: NostrEvent): seq<Event> {
    if Convertible(maxEventSize, e) then [ToEvent(e)] else []
  }

  function Convert(maxEventSize: Option<nat>, raw: seq<NostrEvent>): seq<Event> {
    if raw == [] then [] else ConvertOne(maxEventSize, raw[0]) + Convert(maxEventSize, raw[1..])
  }

  method ToDomainEvents(raw: seq<NostrEvent>, maxEventSize: Option<nat>) returns (result: seq<Event>)
    ensures result == Convert(maxEventSize, Sort(RawKey, raw))
  {
    var sorted := Sort(RawKey, raw);
    result := [];
    for i := 0 to |sorted|
      invariant result + Convert(maxEventSize, sorted[i..]) == Convert(maxEventSize, sorted)
    {
      ghost var head, tail := ConvertOne(maxEventSize, sorted[i]), Convert(maxEventSize, sorted[i + 1..]);
      assert sorted[i..][0] == sorted[i] && sorted[i..][1..] == sorted[i + 1..];
      assert result + (head + tail) == (result + head) + tail;
      assert head == [] ==> result + head == result;
      if Convertible(maxEventSize, sorted[i]) {
        result := result + [ToEvent(sorted[i])];
      }
    }
  }

  lemma ConvertFirst(m: Option<nat>, e: NostrEvent, rest: seq<NostrEvent>)
    ensures Convert(m, [e] + rest) == ConvertOne(m, e) + Convert(m, rest)
  {
    assert ([e] + rest)[1..] == rest;
  }

  lemma ConvertOneMore(m: Option<nat>, e: NostrEvent, a: seq<NostrEvent>, b: seq<NostrEvent>)
    requires Convert(m, a + b) == Convert(m, a) + Convert(m, b)
    ensures Convert(m, ([e] + a) + b) == Convert(m, [e] + a) + Convert(m, b)
  {
    ConvertFirst(m, e, a + b);
    ConvertFirst(m, e, a);
    Regroup([e], a, b);
    Regroup(ConvertOne(m, e), Convert(m, a), Convert(m, b));
  }

  lemma {:induction false} ConvertConcat(m: Option<nat>, a: seq<NostrEvent>, b: seq<NostrEvent>)
    ensures Convert(m, a + b) == Convert(m, a) + Convert(m, b)
  {
    if a == [] {
      assert a + b == b;
    } else {
      var e, rest := a[0], a[1..];
      ConvertConcat(m, rest, b);
      assert a == [e] + rest;
      ConvertOneMore(m, e, rest, b);
    }
  }

  /** Each domain event comes from a convertible raw event, and each of those is kept. */
  lemma {:induction false} ConvertElems(m: Option<nat>, raw: seq<NostrEvent>)
    ensures forall e :: e in raw && Convertible(m, e) ==> ToEvent(e) in Convert(m, raw)
    ensures forall d :: d in Convert(m, raw) ==> exists e :: e in raw && Convertible(m, e) && d == ToEvent(e)
  {
    if raw != [] {
      ConvertElems(m, raw[1..]);
      forall d | d in Convert(m, raw)
        ensures exists e :: e in raw && Convertible(m, e) && d == ToEvent(e)
      {
        if d in Convert(m, raw[1..]) {
          var e :| e in raw[1..] && Convertible(m, e) && d == ToEvent(e);
          assert e in raw;
        } else {
          assert raw[0] in raw;
        }
      }
    }
  }

  /**
   The domain events are those of the raw events that are not too large and whose
   content and tag values have no null character and tag values of at most 2048
   characters; identifier, time, kind, tags and content are kept.
   */
  lemma ConvertedExactly(m: Option<nat>, raw: seq<NostrEvent>, d: Event)
    ensures d in Convert(m, raw) <==> exists e :: e in raw && IsYielded(m, e, d)
  {
    ConvertElems(m, raw);
    forall e ensures IsYielded(m, e, d) <==> Convertible(m, e) && d == ToEvent(e) {
      YieldedIffConvertible(m, e, d);
    }
  }

  lemma YieldedIffConvertible(m: Option<nat>, e: NostrEvent, d: Event)
    ensures IsYielded(m, e, d) <==> Convertible(m, e) && d == ToEvent(e)
  {
    TagsAreClean(e.tags);
  }

  /** By element and by position. */
  lemma TagsAreClean(tags: seq<seq<string>>)
    ensures (forall tag, text :: tag in tags && text in tag ==> IsCleanText(text))
       <==> forall i, j :: 0 <= i < |tags| && 0 <= j < |tags[i]| ==> '\0' !in tags[i][j] && |tags[i][j]| <= 2048
  {
    if forall tag, text :: tag in tags && text in tag ==> IsCleanText(text) {
      forall i, j | 0 <= i < |tags| && 0 <= j < |tags[i]| ensures '\0' !in tags[i][j] && |tags[i][j]| <= 2048 {
        assert tags[i] in tags && tags[i][j] in tags[i];
        assert IsCleanText(tags[i][j]);
      }
    }
  }

  /** At most 2048 characters, none of them null. */
  predicate IsCleanText(s: string) {
    |s| <= 2048 && forall i :: 0 <= i < |s| ==> s[i] != '\0'
  }

  ghost predicate IsYielded(m: Option<nat>, e: NostrEvent, d: Event) {
    && (m.Some? ==> e.jsonSize <= m.value)
    && (forall i :: 0 <= i < |e.content| ==> e.content[i] != '\0')
    && (forall tag, text :: tag in e.tags && text in tag ==> IsCleanText(text))
    && d.id == e.id && d.createdAt == e.createdAt && d.kind == e.kind && d.tags == e.tags && d.content == e.content
  }

  lemma {:induction false} ConvertAscends(m: Option<nat>, raw: seq<NostrEvent>)
    requires Ascending(RawKey, raw)
    ensures Ascending(EventKey, Convert(m, raw))
  {
    if raw != [] {
      ConvertAscends(m, raw[1..]);
      ConvertElems(m, raw[1..]);
      var t := Convert(m, raw[1..]);
      forall j | 0 <= j < |t| ensures Less(RawKey(raw[0]), EventKey(t[j])) {
        assert t[j] in t;
        var e :| e in raw[1..] && Convertible(m, e) && t[j] == ToEvent(e);
        var i :| 0 <= i < |raw[1..]| && raw[1..][i] == e;
        assert raw[i + 1] == e;
      }
    }
  }
}
