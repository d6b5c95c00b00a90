/** Python values on their way to a canonical JSON document, and their sanitized form. */
module Json {

  /** A key of a mapping; only string keys are kept. */
  datatype Key = StrKey(text: string) | OtherKey(n: nat)

  /**
   A Python value. A finite float is known by the token it prints as; `NonFinite`
   is an infinity or a NaN, `Other` any type without a JSON form.
   */
  datatype Value =
    | Null
    | Bool(b: bool)
    | Int(i: int)
    | Float(token: string)
    | NonFinite
    | Str(text: string)
    | Dict(entries: Entries)
    | List(items: Values)
    | Tuple(items: Values)
    | Other

  datatype Values = NoValues | Values(head: Value, tail: Values)

  datatype Entries = NoEntries | Entries(key: Key, value: Value, tail: Entries)

  datatype Result<T> = Ok(value: T) | ValueError | TypeError

  predicate HasNullByte(s: string) {
    exists i :: 0 <= i < |s| && s[i] == '\0'
  }

  predicate IsNumberChar(c: char) {
    '0' <= c <= '9' || c in "-+.e"
  }

  predicate IsNumberToken(s: string) {
    s != [] && forall i :: 0 <= i < |s| ==> IsNumberChar(s[i])
  }

  /** The token of a finite float is a number token and not that of an integer. */
  predicate IsFloatToken(s: string) {
    && IsNumberToken(s)
    && exists i :: 0 <= i < |s| && (s[i] == '.' || s[i] == 'e')
  }

  predicate IsEmpty(v: Value) {
    v == Null || v == Dict(NoEntries) || v == List(NoValues)
  }

  // ----- Sizes, for termination -----

  function Size(v: Value): nat {
    match v
    case Dict(entries) => 1 + EntriesSize(entries)
    case List(items) => 1 + ValuesSize(items)
    case Tuple(items) => 1 + ValuesSize(items)
    case _ => 1
  }

  function ValuesSize(vs: Values): nat {
    match vs
    case NoValues => 0
    case Values(head, tail) => 1 + Size(head) + ValuesSize(tail)
  }

  function EntriesSize(es: Entries): nat {
    match es
    case NoEntries => 0
    case Entries(_, value, tail) => 1 + Size(value) + EntriesSize(tail)
  }

  // ----- Sorting by string key -----

  /** Code points, then length: Python's order on strings. */
  predicate Before(a: string, b: string) {
    if a == [] then b != []
    else b != [] && (a[0] < b[0] || (a[0] == b[0] && Before(a[1..], b[1..])))
  }

  lemma {:induction false} BeforeIsTotal(a: string, b: string)
    ensures Before(a, b) || a == b || Before(b, a)
    ensures !(Before(a, b) && Before(b, a)) && !Before(a, a)
  {
    if a != [] && b != [] {
      BeforeIsTotal(a[1..], b[1..]);
      BeforeIsTotal(a[1..], a[1..]);
      assert a == [a[0]] + a[1..] && b == [b[0]] + b[1..];
    } else if a != [] {
      BeforeIsTotal(a[1..], a[1..]);
    }
  }

  /** After `k` equal characters `a` ends, or has a smaller character. */
  ghost predicate DiffersAt(a: string, b: string, k: nat) {
    k <= |a| && k < |b| && a[..k] == b[..k] && (k == |a| || a[k] < b[k])
  }

  lemma {:induction false} BeforeIsLexicographic(a: string, b: string)
    ensures Before(a, b) <==> exists k: nat :: DiffersAt(a, b, k)
  {
    forall k: nat | 0 < k <= |a| && k <= |b| && a[..k] == b[..k] ensures a[0] == b[0] {
      assert a[..k][0] == b[..k][0];
    }
    if a == [] || b == [] || a[0] != b[0] {
      assert Before(a, b) ==> DiffersAt(a, b, 0);
    } else {
      BeforeIsLexicographic(a[1..], b[1..]);
      if k: nat :| DiffersAt(a[1..], b[1..], k) {
        assert a[..k + 1] == [a[0]] + a[1..][..k] && b[..k + 1] == [b[0]] + b[1..][..k];
        assert DiffersAt(a, b, k + 1);
      }
      if k: nat :| DiffersAt(a, b, k) {
        assert k > 0;
        assert a[1..][..k - 1] == a[..k][1..] && b[1..][..k - 1] == b[..k][1..];
        assert DiffersAt(a[1..], b[1..], k - 1);
      }
    }
  }

  lemma {:induction false} BeforeIsTransitive(a: string, b: string, c: string)
    requires Before(a, b) && Before(b, c)
    ensures Before(a, c)
  {
    if a != [] && a[0] == b[0] == c[0] {
      BeforeIsTransitive(a[1..], b[1..], c[1..]);
    }
  }

  function Insert(key: string, value: Value, es: Entries): (r: Entries)
    ensures EntriesSize(r) == 1 + Size(value) + EntriesSize(es)
  {
    match es
    case NoEntries => Entries(StrKey(key), value, NoEntries)
    case Entries(k, v, tail) =>
      if k.StrKey? && Before(k.text, key) then Entries(k, v, Insert(key, value, tail))
      else Entries(StrKey(key), value, es)
  }

  /** The entries with a string key, sorted by it. */
  function Sorted(es: Entries): (r: Entries)
    ensures EntriesSize(r) <= EntriesSize(es)
  {
    match es
    case NoEntries => NoEntries
    case Entries(key, value, tail) =>
      if key.StrKey? then Insert(key.text, value, Sorted(tail)) else Sorted(tail)
  }

  // ----- Sanitizing -----

  function Sanitize(v: Value, depth: nat, maxDepth: nat): Result<Value>
    decreases Size(v)
  {
    if depth > maxDepth then Ok(Null)
    else
      match v
      case Str(text) => if HasNullByte(text) then ValueError else Ok(v)
      case Dict(entries) => AsDict(SanitizeEntries(Sorted(entries), depth + 1, maxDepth))
      case List(items) => AsList(SanitizeItems(items, depth + 1, maxDepth))
      case Tuple(_) => TypeError
      case NonFinite => Ok(Null)
      case Other => Ok(Null)
      case _ => Ok(v)
  }

  function SanitizeItems(vs: Values, depth: nat, maxDepth: nat): Result<Values>
    decreases ValuesSize(vs)
  {
    match vs
    case NoValues => Ok(NoValues)
    case Values(head, tail) =>
      match Sanitize(head, depth, maxDepth)
      case ValueError => ValueError
      case TypeError => TypeError
      case Ok(v) => ConsItem(v, SanitizeItems(tail, depth, maxDepth))
  }

  function SanitizeEntries(es: Entries, depth: nat, maxDepth: nat): Result<Entries>
    decreases EntriesSize(es)
  {
    match es
    case NoEntries => Ok(NoEntries)
    case Entries(key, value, tail) =>
      if key.StrKey? && HasNullByte(key.text) then ValueError
      else
        match Sanitize(value, depth, maxDepth)
        case ValueError => ValueError
        case TypeError => TypeError
        case Ok(v) => ConsEntry(key, v, SanitizeEntries(tail, depth, maxDepth))
  }

  function AsDict(r: Result<Entries>): Result<Value> {
    match r
    case Ok(es) => Ok(Dict(es))
    case ValueError => ValueError
    case TypeError => TypeError
  }

  function AsList(r: Result<Values>): Result<Value> {
    match r
    case Ok(vs) => Ok(List(vs))
    case ValueError => ValueError
    case TypeError => TypeError
  }

  /** Empty values are left out. */
  function ConsItem(v: Value, rest: Result<Values>): Result<Values> {
    if rest.Ok? && !IsEmpty(v) then Ok(Values(v, rest.value)) else rest
  }

  function ConsEntry(key: Key, v: Value, rest: Result<Entries>): Result<Entries> {
    if rest.Ok? && !IsEmpty(v) then Ok(Entries(key, v, rest.value)) else rest
  }

  // ----- The normal form -----

  predicate Above(key: string, es: Entries) {
    es.NoEntries? || (es.key.StrKey? && Before(key, es.key.text))
  }

  /**
   A sanitized value with `room` levels left below it: no null bytes, nothing
   without a JSON form, keys strictly ascending, and no null or empty container
   below the root.
   */
  predicate Normal(v: Value, room: nat) {
    match v
    case Str(text) => !HasNullByte(text)
    case Float(token) => IsFloatToken(token)
    case Dict(entries) => NormalEntries(entries, room)
    case List(items) => NormalItems(items, room)
    case Tuple(_) => false
    case NonFinite => false
    case Other => false
    case _ => true
  }

  predicate NormalItems(vs: Values, room: nat) {
    match vs
    case NoValues => true
    case Values(head, tail) => room > 0 && !IsEmpty(head) && Normal(head, room - 1) && NormalItems(tail, room)
  }

  predicate NormalEntries(es: Entries, room: nat) {
    match es
    case NoEntries => true
    case Entries(key, value, tail) =>
      && room > 0 && key.StrKey? && !HasNullByte(key.text) && Above(key.text, tail)
      && !IsEmpty(value) && Normal(value, room - 1) && NormalEntries(tail, room)
  }

  predicate Unique(es: Entries) {
    es.NoEntries? || (!HasKey(es.tail, es.key) && Unique(es.tail))
  }

  predicate HasKey(es: Entries, key: Key) {
    es.Entries? && (es.key == key || HasKey(es.tail, key))
  }

  /** Only string keys, strictly ascending. */
  predicate Ascends(es: Entries) {
    es.NoEntries? || (es.key.StrKey? && Above(es.key.text, es.tail) && Ascends(es.tail))
  }

  /** A dictionary has each key once, and the token of a float is one. */
  predicate WellFormed(v: Value) {
    match v
    case Float(token) => IsFloatToken(token)
    case Dict(entries) => Unique(entries) && WellFormedEntries(entries)
    case List(items) => WellFormedItems(items)
    case Tuple(items) => WellFormedItems(items)
    case _ => true
  }

  predicate WellFormedItems(vs: Values) {
    vs.NoValues? || (WellFormed(vs.head) && WellFormedItems(vs.tail))
  }

  predicate WellFormedEntries(es: Entries) {
    es.NoEntries? || (WellFormed(es.value) && WellFormedEntries(es.tail))
  }

  lemma {:induction false} InsertKeepsOrder(key: string, value: Value, es: Entries)
    requires Ascends(es) && !HasKey(es, StrKey(key))
    ensures Ascends(Insert(key, value, es))
    ensures forall k :: HasKey(Insert(key, value, es), k) <==> k == StrKey(key) || HasKey(es, k)
    ensures WellFormed(value) && WellFormedEntries(es) ==> WellFormedEntries(Insert(key, value, es))
  {
    if es.Entries? {
      BeforeIsTotal(es.key.text, key);
      if Before(es.key.text, key) {
        InsertKeepsOrder(key, value, es.tail);
      }
    }
  }

  /** Sorting keeps the string keys, in strictly ascending order. */
  lemma {:induction false} SortedAscends(es: Entries)
    requires Unique(es)
    ensures Ascends(Sorted(es))
    ensures forall k :: HasKey(Sorted(es), k) <==> k.StrKey? && HasKey(es, k)
    ensures WellFormedEntries(es) ==> WellFormedEntries(Sorted(es))
  {
    if es.Entries? {
      SortedAscends(es.tail);
      if es.key.StrKey? {
        InsertKeepsOrder(es.key.text, es.value, Sorted(es.tail));
      }
    }
  }

  lemma {:induction false} SortedIsSorted(es: Entries)
    requires Ascends(es)
    ensures Sorted(es) == es
  {
    if es.Entries? {
      SortedIsSorted(es.tail);
      if es.tail.Entries? {
        BeforeIsTotal(es.tail.key.text, es.key.text);
      }
    }
  }

  /** What sanitizing returns is in normal form, with at most `maxDepth` levels. */
  lemma {:induction false} SanitizedIsNormal(v: Value, depth: nat, maxDepth: nat)
    requires WellFormed(v) && Sanitize(v, depth, maxDepth).Ok?
    ensures var r := Sanitize(v, depth, maxDepth).value;
            if depth > maxDepth then r == Null else Normal(r, maxDepth - depth)
    decreases Size(v)
  {
    if depth <= maxDepth {
      match v {
        case Dict(entries) =>
          SortedAscends(entries);
          SanitizedEntriesAreNormal(Sorted(entries), depth + 1, maxDepth);
        case List(items) => SanitizedItemsAreNormal(items, depth + 1, maxDepth);
        case _ =>
      }
    }
  }

  lemma {:induction false} SanitizedItemsAreNormal(vs: Values, depth: nat, maxDepth: nat)
    requires depth <= maxDepth + 1 && depth > 0 && WellFormedItems(vs) && SanitizeItems(vs, depth, maxDepth).Ok?
    ensures NormalItems(SanitizeItems(vs, depth, maxDepth).value, maxDepth + 1 - depth)
    decreases ValuesSize(vs)
  {
    if vs.Values? {
      SanitizedIsNormal(vs.head, depth, maxDepth);
      SanitizedItemsAreNormal(vs.tail, depth, maxDepth);
    }
  }

  lemma {:induction false} SanitizedEntriesAreNormal(es: Entries, depth: nat, maxDepth: nat)
    requires depth <= maxDepth + 1 && depth > 0 && WellFormedEntries(es) && Ascends(es)
        && SanitizeEntries(es, depth, maxDepth).Ok?
    ensures NormalEntries(SanitizeEntries(es, depth, maxDepth).value, maxDepth + 1 - depth)
    ensures forall key :: Above(key, es) ==> Above(key, SanitizeEntries(es, depth, maxDepth).value)
    decreases EntriesSize(es)
  {
    if es.Entries? {
      SanitizedIsNormal(es.value, depth, maxDepth);
      SanitizedEntriesAreNormal(es.tail, depth, maxDepth);
      forall key | Above(key, es) ensures Above(key, es.tail) {
        if es.tail.Entries? {
          BeforeIsTransitive(key, es.key.text, es.tail.key.text);
        }
      }
    }
  }

  /** A value in normal form is left as it is. */
  lemma {:induction false} NormalIsFixed(v: Value, depth: nat, maxDepth: nat)
    requires depth <= maxDepth && Normal(v, maxDepth - depth)
    ensures Sanitize(v, depth, maxDepth) == Ok(v)
    decreases Size(v)
  {
    match v {
      case Dict(entries) =>
        NormalEntriesAreFixed(entries, depth + 1, maxDepth);
        SortedIsSorted(entries);
      case List(items) => NormalItemsAreFixed(items, depth + 1, maxDepth);
      case _ =>
    }
  }

  lemma {:induction false} NormalItemsAreFixed(vs: Values, depth: nat, maxDepth: nat)
    requires 0 < depth <= maxDepth + 1 && NormalItems(vs, maxDepth + 1 - depth)
    ensures SanitizeItems(vs, depth, maxDepth) == Ok(vs)
    decreases ValuesSize(vs)
  {
    if vs.Values? {
      NormalIsFixed(vs.head, depth, maxDepth);
      NormalItemsAreFixed(vs.tail, depth, maxDepth);
    }
  }

  lemma {:induction false} NormalEntriesAreFixed(es: Entries, depth: nat, maxDepth: nat)
    requires 0 < depth <= maxDepth + 1 && NormalEntries(es, maxDepth + 1 - depth)
    ensures SanitizeEntries(es, depth, maxDepth) == Ok(es) && Ascends(es)
    decreases EntriesSize(es)
  {
    if es.Entries? {
      NormalIsFixed(es.value, depth, maxDepth);
      NormalEntriesAreFixed(es.tail, depth, maxDepth);
    }
  }

  /** Sanitizing twice is sanitizing once, and what remains is at most `maxDepth` levels deep. */
  lemma SanitizeIsIdempotent(v: Value, maxDepth: nat)
    requires WellFormed(v) && Sanitize(v, 0, maxDepth).Ok?
    ensures var r := Sanitize(v, 0, maxDepth).value;
            Normal(r, maxDepth) && Sanitize(r, 0, maxDepth) == Ok(r) && Depth(r) <= maxDepth
  {
    SanitizedIsNormal(v, 0, maxDepth);
    NormalIsShallow(Sanitize(v, 0, maxDepth).value, maxDepth);
    NormalIsFixed(Sanitize(v, 0, maxDepth).value, 0, maxDepth);
  }

  /** The levels below a value. */
  function Depth(v: Value): nat {
    match v
    case Dict(entries) => EntriesDepth(entries)
    case List(items) => ItemsDepth(items)
    case Tuple(items) => ItemsDepth(items)
    case _ => 0
  }

  function ItemsDepth(vs: Values): nat {
    match vs
    case NoValues => 0
    case Values(head, tail) => Larger(1 + Depth(head), ItemsDepth(tail))
  }

  function EntriesDepth(es: Entries): nat {
    match es
    case NoEntries => 0
    case Entries(_, value, tail) => Larger(1 + Depth(value), EntriesDepth(tail))
  }

  function Larger(a: nat, b: nat): nat { if a >= b then a else b }

  lemma {:induction false} NormalIsShallow(v: Value, room: nat)
    requires Normal(v, room)
    ensures Depth(v) <= room
  {
    match v {
      case Dict(entries) => NormalEntriesAreShallow(entries, room);
      case List(items) => NormalItemsAreShallow(items, room);
      case _ =>
    }
  }

  lemma {:induction false} NormalItemsAreShallow(vs: Values, room: nat)
    requires NormalItems(vs, room)
    ensures ItemsDepth(vs) <= room
  {
    if vs.Values? {
      NormalIsShallow(vs.head, room - 1);
      NormalItemsAreShallow(vs.tail, room);
    }
  }

  lemma {:induction false} NormalEntriesAreShallow(es: Entries, room: nat)
    requires NormalEntries(es, room)
    ensures EntriesDepth(es) <= room
  {
    if es.Entries? {
      NormalIsShallow(es.value, room - 1);
      NormalEntriesAreShallow(es.tail, room);
    }
  }
}
