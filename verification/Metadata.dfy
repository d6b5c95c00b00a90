/** The sanitizing loops, and the canonical text of a metadata document. */
module Metadata {
  import opened Json
  import opened JsonMeaning
  import opened JsonReader
  import opened JsonText

  const MAX_DEPTH: nat := 50

  // ----- The loops -----

  function AppendItem(vs: Values, v: Value): Values {
    match vs
    case NoValues => Values(v, NoValues)
    case Values(head, tail) => Values(head, AppendItem(tail, v))
  }

  function AppendEntry(es: Entries, key: Key, v: Value): Entries {
    match es
    case NoEntries => Entries(key, v, NoEntries)
    case Entries(k, value, tail) => Entries(k, value, AppendEntry(tail, key, v))
  }

  /** The items done so far, in front of what the others give. */
  function AfterItems(done: Values, rest: Result<Values>): Result<Values> {
    if rest.Ok? && done.Values? then
      var r := AfterItems(done.tail, rest);
      if r.Ok? then Ok(Values(done.head, r.value)) else r
    else rest
  }

  function AfterEntries(done: Entries, rest: Result<Entries>): Result<Entries> {
    if rest.Ok? && done.Entries? then
      var r := AfterEntries(done.tail, rest);
      if r.Ok? then Ok(Entries(done.key, done.value, r.value)) else r
    else rest
  }

  lemma {:induction false} OneMoreItem(done: Values, v: Value, rest: Result<Values>)
    requires !IsEmpty(v)
    ensures AfterItems(AppendItem(done, v), rest) == AfterItems(done, ConsItem(v, rest))
  {
    if done.Values? {
      OneMoreItem(done.tail, v, rest);
    }
  }

  lemma {:induction false} OneMoreEntry(done: Entries, key: Key, v: Value, rest: Result<Entries>)
    requires !IsEmpty(v)
    ensures AfterEntries(AppendEntry(done, key, v), rest) == AfterEntries(done, ConsEntry(key, v, rest))
  {
    if done.Entries? {
      OneMoreEntry(done.tail, key, v, rest);
    }
  }

  lemma {:induction false} NothingMore(items: Values, entries: Entries)
    ensures AfterItems(items, Ok(NoValues)) == Ok(items) && AfterEntries(entries, Ok(NoEntries)) == Ok(entries)
  {
    if items.Values? {
      NothingMore(items.tail, entries);
    }
    if entries.Entries? {
      NothingMore(items, entries.tail);
    }
  }

  method SanitizeData(v: Value, depth: nat, maxDepth: nat) returns (r: Result<Value>)
    ensures r == Sanitize(v, depth, maxDepth)
    decreases Size(v)
  {
    if depth > maxDepth {
      return Ok(Null);
    }
    match v {
      case Str(text) => r := if HasNullByte(text) then ValueError else Ok(v);
      case Dict(entries) => r := SanitizeMapping(entries, depth, maxDepth);
      case List(items) => r := SanitizeList(items, depth, maxDepth);
      case Tuple(_) => r := TypeError;
      case NonFinite => r := Ok(Null);
      case Other => r := Ok(Null);
      case _ => r := Ok(v);
    }
  }

  method SanitizeMapping(entries: Entries, depth: nat, maxDepth: nat) returns (r: Result<Value>)
    ensures r == AsDict(SanitizeEntries(Sorted(entries), depth + 1, maxDepth))
    decreases EntriesSize(entries)
  {
    var result, rest := NoEntries, Sorted(entries);
    while rest.Entries?
      invariant EntriesSize(rest) <= EntriesSize(entries)
      invariant AfterEntries(result, SanitizeEntries(rest, depth + 1, maxDepth))
           == SanitizeEntries(Sorted(entries), depth + 1, maxDepth)
      decreases EntriesSize(rest)
    {
      if rest.key.StrKey? && HasNullByte(rest.key.text) {
        return ValueError;
      }
      var v := SanitizeData(rest.value, depth + 1, maxDepth);
      if !v.Ok? {
        return v;
      }
      if !IsEmpty(v.value) {
        OneMoreEntry(result, rest.key, v.value, SanitizeEntries(rest.tail, depth + 1, maxDepth));
        result := AppendEntry(result, rest.key, v.value);
      }
      rest := rest.tail;
    }
    NothingMore(NoValues, result);
    r := Ok(Dict(result));
  }

  method SanitizeList(items: Values, depth: nat, maxDepth: nat) returns (r: Result<Value>)
    ensures r == AsList(SanitizeItems(items, depth + 1, maxDepth))
    decreases ValuesSize(items)
  {
    var result, rest := NoValues, items;
    while rest.Values?
      invariant ValuesSize(rest) <= ValuesSize(items)
      invariant AfterItems(result, SanitizeItems(rest, depth + 1, maxDepth))
           == SanitizeItems(items, depth + 1, maxDepth)
      decreases ValuesSize(rest)
    {
      var v := SanitizeData(rest.head, depth + 1, maxDepth);
      if !v.Ok? {
        return v;
      }
      if !IsEmpty(v.value) {
        OneMoreItem(result, v.value, SanitizeItems(rest.tail, depth + 1, maxDepth));
        result := AppendItem(result, v.value);
      }
      rest := rest.tail;
    }
    NothingMore(result, NoEntries);
    r := Ok(List(result));
  }

  // ----- The content address -----

  /** The canonical text of a document; only a mapping is one. */
  function CanonicalJson(data: Value): Result<string> {
    if !data.Dict? then TypeError
    else
      match Sanitize(data, 0, MAX_DEPTH)
      case Ok(v) => Ok(Text(v))
      case ValueError => ValueError
      case TypeError => TypeError
  }

  lemma {:induction false} NormalIsPrintable(v: Value, room: nat)
    requires Normal(v, room)
    ensures Printable(v)
  {
    match v {
      case Dict(entries) => NormalEntriesArePrintable(entries, room);
      case List(items) => NormalItemsArePrintable(items, room);
      case _ =>
    }
  }

  lemma {:induction false} NormalItemsArePrintable(vs: Values, room: nat)
    requires NormalItems(vs, room)
    ensures PrintableItems(vs)
  {
    if vs.Values? {
      NormalIsPrintable(vs.head, room - 1);
      NormalItemsArePrintable(vs.tail, room);
    }
  }

  lemma {:induction false} NormalEntriesArePrintable(es: Entries, room: nat)
    requires NormalEntries(es, room)
    ensures PrintableEntries(es)
  {
    if es.Entries? {
      NormalIsPrintable(es.value, room - 1);
      NormalEntriesArePrintable(es.tail, room);
    }
  }

  /**
   There is a canonical text exactly for a mapping without a null byte or a tuple within
   reach. Read as JSON it is a document in normal form that means the same.
   */
  lemma CanonicalTextIsReadBack(data: Value) returns (r: Value)
    requires WellFormed(data)
    ensures CanonicalJson(data).Ok? <==> data.Dict? && !Offends(data, 0, 50)
    ensures CanonicalJson(data).Ok? ==>
              && ReadValue(CanonicalJson(data).value) == Read(r, [])
              && Normal(r, 50) && r.Dict? && Meaning(r, 0, 50) == Meaning(data, 0, 50)
  {
    r := data;
    FailsExactly(data, 0, MAX_DEPTH);
    if CanonicalJson(data).Ok? {
      r := Sanitize(data, 0, MAX_DEPTH).value;
      SanitizedIsNormal(data, 0, MAX_DEPTH);
      NormalIsPrintable(r, MAX_DEPTH);
      SanitizeKeepsMeaning(data, 0, MAX_DEPTH);
      ValueIsReadBack(r, []);
    }
  }

  /** Two documents have the same canonical text exactly when they mean the same. */
  lemma SameTextSameMeaning(v: Value, w: Value)
    requires WellFormed(v) && WellFormed(w) && CanonicalJson(v).Ok? && CanonicalJson(w).Ok?
    ensures CanonicalJson(v) == CanonicalJson(w) <==> Meaning(v, 0, 50) == Meaning(w, 0, 50)
  {
    var r, s := Sanitize(v, 0, MAX_DEPTH).value, Sanitize(w, 0, MAX_DEPTH).value;
    SanitizedIsNormal(v, 0, MAX_DEPTH);
    SanitizedIsNormal(w, 0, MAX_DEPTH);
    NormalIsPrintable(r, MAX_DEPTH);
    NormalIsPrintable(s, MAX_DEPTH);
    SameDocument(v, w, MAX_DEPTH);
    if Text(r) == Text(s) {
      TextIsInjective(r, s);
    }
  }

  // ----- Freezing -----

  /** Lists are frozen to tuples; a read-only mapping is still a mapping. */
  function Freeze(v: Value): Value {
    match v
    case Dict(entries) => Dict(FreezeEntries(entries))
    case List(items) => Tuple(FreezeItems(items))
    case _ => v
  }

  function FreezeItems(vs: Values): Values {
    match vs
    case NoValues => NoValues
    case Values(head, tail) => Values(Freeze(head), FreezeItems(tail))
  }

  function FreezeEntries(es: Entries): Entries {
    match es
    case NoEntries => NoEntries
    case Entries(key, value, tail) => Entries(key, Freeze(value), FreezeEntries(tail))
  }

  predicate HasList(v: Value) {
    v.List? || (v.Dict? && EntriesHaveList(v.entries))
  }

  predicate EntriesHaveList(es: Entries) {
    es.Entries? && (HasList(es.value) || EntriesHaveList(es.tail))
  }

  lemma {:induction false} FreezeOffends(v: Value, depth: nat, maxDepth: nat)
    requires depth <= maxDepth && Normal(v, maxDepth - depth)
    ensures Offends(Freeze(v), depth, maxDepth) <==> HasList(v)
    ensures !HasList(v) ==> Freeze(v) == v
  {
    match v {
      case Dict(entries) => FreezeEntriesOffends(entries, depth + 1, maxDepth);
      case _ =>
    }
  }

  lemma {:induction false} FreezeEntriesOffends(es: Entries, depth: nat, maxDepth: nat)
    requires 0 < depth <= maxDepth + 1 && NormalEntries(es, maxDepth + 1 - depth)
    ensures OffendingEntries(FreezeEntries(es), depth, maxDepth) <==> EntriesHaveList(es)
    ensures !EntriesHaveList(es) ==> FreezeEntries(es) == es
  {
    if es.Entries? {
      FreezeOffends(es.value, depth, maxDepth);
      FreezeEntriesOffends(es.tail, depth, maxDepth);
    }
  }

  /**
   The frozen data of one document is accepted as the data of another exactly when
   it has no list, and then it has the same canonical text: a list was frozen to a
   tuple, and a tuple is rejected.
   */
  lemma FrozenDataIsAccepted(v: Value)
    requires v.Dict? && WellFormed(v) && CanonicalJson(v).Ok?
    ensures var r := Sanitize(v, 0, MAX_DEPTH).value;
            && (CanonicalJson(Freeze(r)).Ok? <==> !HasList(r))
            && (!HasList(r) ==> CanonicalJson(Freeze(r)) == CanonicalJson(v))
  {
    var r := Sanitize(v, 0, MAX_DEPTH).value;
    SanitizedIsNormal(v, 0, MAX_DEPTH);
    FreezeOffends(r, 0, MAX_DEPTH);
    FailsExactly(Freeze(r), 0, MAX_DEPTH);
    NormalIsFixed(r, 0, MAX_DEPTH);
  }
}
