/** What a JSON-like Python value means, without order, nulls and empty containers. */
module JsonMeaning {
  import opened Json

  datatype Doc =
    | NullDoc
    | BoolDoc(b: bool)
    | IntDoc(i: int)
    | FloatDoc(token: string)
    | StrDoc(text: string)
    | Object(members: map<string, Doc>)
    | Array(items: seq<Doc>)

  predicate Void(d: Doc) {
    d == NullDoc || d == Object(map[]) || d == Array([])
  }

  function Meaning(v: Value, depth: nat, maxDepth: nat): Doc {
    if depth > maxDepth then NullDoc
    else
      match v
      case Bool(b) => BoolDoc(b)
      case Int(i) => IntDoc(i)
      case Float(token) => FloatDoc(token)
      case Str(text) => StrDoc(text)
      case Dict(entries) => Object(Members(entries, depth + 1, maxDepth))
      case List(items) => Array(Items(items, depth + 1, maxDepth))
      case _ => NullDoc
  }

  function Items(vs: Values, depth: nat, maxDepth: nat): seq<Doc> {
    match vs
    case NoValues => []
    case Values(head, tail) =>
      var d := Meaning(head, depth, maxDepth);
      (if Void(d) then [] else [d]) + Items(tail, depth, maxDepth)
  }

  function Members(es: Entries, depth: nat, maxDepth: nat): map<string, Doc> {
    match es
    case NoEntries => map[]
    case Entries(key, value, tail) =>
      var d := Meaning(value, depth, maxDepth);
      if !key.StrKey? || Void(d) then Members(tail, depth, maxDepth)
      else Members(tail, depth, maxDepth)[key.text := d]
  }

  /** A null byte in reach, or a tuple. */
  predicate Offends(v: Value, depth: nat, maxDepth: nat) {
    depth <= maxDepth &&
    match v
    case Str(text) => HasNullByte(text)
    case Dict(entries) => OffendingEntries(entries, depth + 1, maxDepth)
    case List(items) => OffendingItems(items, depth + 1, maxDepth)
    case Tuple(_) => true
    case _ => false
  }

  predicate OffendingItems(vs: Values, depth: nat, maxDepth: nat) {
    vs.Values? && (Offends(vs.head, depth, maxDepth) || OffendingItems(vs.tail, depth, maxDepth))
  }

  predicate OffendingEntries(es: Entries, depth: nat, maxDepth: nat) {
    es.Entries? &&
    (OffendingEntries(es.tail, depth, maxDepth)
     || (es.key.StrKey? && (HasNullByte(es.key.text) || Offends(es.value, depth, maxDepth))))
  }

  // ----- Errors -----

  lemma {:induction false} InsertOffends(key: string, value: Value, es: Entries, depth: nat, maxDepth: nat)
    ensures OffendingEntries(Insert(key, value, es), depth, maxDepth)
       <==> HasNullByte(key) || Offends(value, depth, maxDepth) || OffendingEntries(es, depth, maxDepth)
  {
    if es.Entries? && es.key.StrKey? && Before(es.key.text, key) {
      InsertOffends(key, value, es.tail, depth, maxDepth);
    }
  }

  lemma {:induction false} SortedOffends(es: Entries, depth: nat, maxDepth: nat)
    ensures OffendingEntries(Sorted(es), depth, maxDepth) <==> OffendingEntries(es, depth, maxDepth)
  {
    if es.Entries? {
      SortedOffends(es.tail, depth, maxDepth);
      if es.key.StrKey? {
        InsertOffends(es.key.text, es.value, Sorted(es.tail), depth, maxDepth);
      }
    }
  }

  lemma {:induction false} AllStringKeys(es: Entries)
    ensures StringKeys(Sorted(es))
  {
    if es.Entries? {
      AllStringKeys(es.tail);
      if es.key.StrKey? {
        InsertStringKey(es.key.text, es.value, Sorted(es.tail));
      }
    }
  }

  predicate StringKeys(es: Entries) {
    es.NoEntries? || (es.key.StrKey? && StringKeys(es.tail))
  }

  lemma {:induction false} InsertStringKey(key: string, value: Value, es: Entries)
    requires StringKeys(es)
    ensures StringKeys(Insert(key, value, es))
  {
    if es.Entries? && Before(es.key.text, key) {
      InsertStringKey(key, value, es.tail);
    }
  }

  /** Sanitizing fails exactly on a null byte or a tuple within reach. */
  lemma {:induction false} FailsExactly(v: Value, depth: nat, maxDepth: nat)
    ensures Sanitize(v, depth, maxDepth).Ok? <==> !Offends(v, depth, maxDepth)
    decreases Size(v)
  {
    match v {
      case Dict(entries) =>
        AllStringKeys(entries);
        SortedOffends(entries, depth + 1, maxDepth);
        EntriesFailExactly(Sorted(entries), depth + 1, maxDepth);
      case List(items) => ItemsFailExactly(items, depth + 1, maxDepth);
      case _ =>
    }
  }

  lemma {:induction false} ItemsFailExactly(vs: Values, depth: nat, maxDepth: nat)
    ensures SanitizeItems(vs, depth, maxDepth).Ok? <==> !OffendingItems(vs, depth, maxDepth)
    decreases ValuesSize(vs)
  {
    if vs.Values? {
      FailsExactly(vs.head, depth, maxDepth);
      ItemsFailExactly(vs.tail, depth, maxDepth);
    }
  }

  lemma {:induction false} EntriesFailExactly(es: Entries, depth: nat, maxDepth: nat)
    requires StringKeys(es)
    ensures SanitizeEntries(es, depth, maxDepth).Ok? <==> !OffendingEntries(es, depth, maxDepth)
    decreases EntriesSize(es)
  {
    if es.Entries? {
      FailsExactly(es.value, depth, maxDepth);
      EntriesFailExactly(es.tail, depth, maxDepth);
    }
  }

  /** A tuple within reach, or a null byte. */
  predicate Faulty(v: Value, tuple: bool, depth: nat, maxDepth: nat) {
    depth <= maxDepth &&
    match v
    case Str(text) => !tuple && HasNullByte(text)
    case Dict(entries) => FaultyEntries(entries, tuple, depth + 1, maxDepth)
    case List(items) => FaultyItems(items, tuple, depth + 1, maxDepth)
    case Tuple(_) => tuple
    case _ => false
  }

  predicate FaultyItems(vs: Values, tuple: bool, depth: nat, maxDepth: nat) {
    vs.Values? && (Faulty(vs.head, tuple, depth, maxDepth) || FaultyItems(vs.tail, tuple, depth, maxDepth))
  }

  predicate FaultyEntries(es: Entries, tuple: bool, depth: nat, maxDepth: nat) {
    es.Entries? &&
    (FaultyEntries(es.tail, tuple, depth, maxDepth)
     || (es.key.StrKey? && ((!tuple && HasNullByte(es.key.text)) || Faulty(es.value, tuple, depth, maxDepth))))
  }

  lemma {:induction false} InsertIsFaulty(key: string, value: Value, es: Entries, tuple: bool, depth: nat,
          maxDepth: nat)
    ensures FaultyEntries(Insert(key, value, es), tuple, depth, maxDepth)
       <==> FaultyEntries(Entries(StrKey(key), value, es), tuple, depth, maxDepth)
  {
    if es.Entries? && es.key.StrKey? && Before(es.key.text, key) {
      InsertIsFaulty(key, value, es.tail, tuple, depth, maxDepth);
    }
  }

  lemma {:induction false} SortedIsFaulty(es: Entries, tuple: bool, depth: nat, maxDepth: nat)
    ensures FaultyEntries(Sorted(es), tuple, depth, maxDepth) <==> FaultyEntries(es, tuple, depth, maxDepth)
  {
    if es.Entries? {
      SortedIsFaulty(es.tail, tuple, depth, maxDepth);
      if es.key.StrKey? {
        InsertIsFaulty(es.key.text, es.value, Sorted(es.tail), tuple, depth, maxDepth);
      }
    }
  }

  /** A type error is due to a tuple, a value error to a null byte. */
  lemma {:induction false} ErrorsAreJustified(v: Value, depth: nat, maxDepth: nat)
    ensures Sanitize(v, depth, maxDepth) == TypeError ==> Faulty(v, true, depth, maxDepth)
    ensures Sanitize(v, depth, maxDepth) == ValueError ==> Faulty(v, false, depth, maxDepth)
    decreases Size(v)
  {
    match v {
      case Dict(entries) =>
        SortedIsFaulty(entries, true, depth + 1, maxDepth);
        SortedIsFaulty(entries, false, depth + 1, maxDepth);
        AllStringKeys(entries);
        EntryErrorsAreJustified(Sorted(entries), depth + 1, maxDepth);
      case List(items) => ItemErrorsAreJustified(items, depth + 1, maxDepth);
      case _ =>
    }
  }

  lemma {:induction false} ItemErrorsAreJustified(vs: Values, depth: nat, maxDepth: nat)
    ensures SanitizeItems(vs, depth, maxDepth) == TypeError ==> FaultyItems(vs, true, depth, maxDepth)
    ensures SanitizeItems(vs, depth, maxDepth) == ValueError ==> FaultyItems(vs, false, depth, maxDepth)
    decreases ValuesSize(vs)
  {
    if vs.Values? {
      ErrorsAreJustified(vs.head, depth, maxDepth);
      ItemErrorsAreJustified(vs.tail, depth, maxDepth);
    }
  }

  lemma {:induction false} EntryErrorsAreJustified(es: Entries, depth: nat, maxDepth: nat)
    requires StringKeys(es)
    ensures SanitizeEntries(es, depth, maxDepth) == TypeError ==> FaultyEntries(es, true, depth, maxDepth)
    ensures SanitizeEntries(es, depth, maxDepth) == ValueError ==> FaultyEntries(es, false, depth, maxDepth)
    decreases EntriesSize(es)
  {
    if es.Entries? {
      ErrorsAreJustified(es.value, depth, maxDepth);
      EntryErrorsAreJustified(es.tail, depth, maxDepth);
    }
  }

  // ----- Sanitizing keeps the meaning -----

  lemma {:induction false} MembersKeys(es: Entries, depth: nat, maxDepth: nat, key: string)
    requires !HasKey(es, StrKey(key))
    ensures key !in Members(es, depth, maxDepth)
  {
    if es.Entries? {
      MembersKeys(es.tail, depth, maxDepth, key);
    }
  }

  lemma {:induction false} InsertMembers(key: string, value: Value, es: Entries, depth: nat, maxDepth: nat)
    requires !HasKey(es, StrKey(key))
    ensures Members(Insert(key, value, es), depth, maxDepth)
         == Members(Entries(StrKey(key), value, es), depth, maxDepth)
  {
    if es.Entries? && es.key.StrKey? && Before(es.key.text, key) {
      InsertMembers(key, value, es.tail, depth, maxDepth);
      assert es.key.text != key;
    }
  }

  /** The members of a dictionary do not depend on the order of its entries. */
  lemma {:induction false} SortedMembers(es: Entries, depth: nat, maxDepth: nat)
    requires Unique(es)
    ensures Members(Sorted(es), depth, maxDepth) == Members(es, depth, maxDepth)
  {
    if es.Entries? {
      SortedMembers(es.tail, depth, maxDepth);
      SortedAscends(es.tail);
      if es.key.StrKey? {
        InsertMembers(es.key.text, es.value, Sorted(es.tail), depth, maxDepth);
      }
    }
  }

  lemma {:induction false} SanitizeKeepsMeaning(v: Value, depth: nat, maxDepth: nat)
    requires WellFormed(v) && Sanitize(v, depth, maxDepth).Ok?
    ensures var r := Sanitize(v, depth, maxDepth).value;
            Meaning(r, depth, maxDepth) == Meaning(v, depth, maxDepth)
                && (Void(Meaning(r, depth, maxDepth)) <==> IsEmpty(r))
    decreases Size(v)
  {
    if depth <= maxDepth {
      match v {
        case Dict(entries) =>
          SortedAscends(entries);
          SortedMembers(entries, depth + 1, maxDepth);
          AllStringKeys(entries);
          SanitizeKeepsMembers(Sorted(entries), depth + 1, maxDepth);
        case List(items) => SanitizeKeepsItems(items, depth + 1, maxDepth);
        case _ =>
      }
    }
  }

  lemma {:induction false} SanitizeKeepsItems(vs: Values, depth: nat, maxDepth: nat)
    requires WellFormedItems(vs) && SanitizeItems(vs, depth, maxDepth).Ok?
    ensures var r := SanitizeItems(vs, depth, maxDepth).value;
            Items(r, depth, maxDepth) == Items(vs, depth, maxDepth)
                && (r == NoValues <==> Items(r, depth, maxDepth) == [])
    decreases ValuesSize(vs)
  {
    if vs.Values? {
      SanitizeKeepsMeaning(vs.head, depth, maxDepth);
      SanitizeKeepsItems(vs.tail, depth, maxDepth);
    }
  }

  lemma {:induction false} SanitizeKeepsMembers(es: Entries, depth: nat, maxDepth: nat)
    requires WellFormedEntries(es) && StringKeys(es) && SanitizeEntries(es, depth, maxDepth).Ok?
    ensures var r := SanitizeEntries(es, depth, maxDepth).value;
            Members(r, depth, maxDepth) == Members(es, depth, maxDepth)
                && (r == NoEntries <==> Members(r, depth, maxDepth) == map[])
    decreases EntriesSize(es)
  {
    if es.Entries? {
      SanitizeKeepsMeaning(es.value, depth, maxDepth);
      SanitizeKeepsMembers(es.tail, depth, maxDepth);
      if !Void(Meaning(es.value, depth, maxDepth)) {
        assert es.key.text in Members(es, depth, maxDepth);
      }
    }
  }

  // ----- In normal form the meaning determines the value -----

  /** A non-empty value in normal form means something, and an empty one nothing. */
  lemma {:induction false} NormalIsVoid(v: Value, depth: nat, maxDepth: nat)
    requires depth <= maxDepth && Normal(v, maxDepth - depth)
    ensures Void(Meaning(v, depth, maxDepth)) <==> IsEmpty(v)
  {
    match v {
      case Dict(entries) =>
        if entries.Entries? {
          NormalIsVoid(entries.value, depth + 1, maxDepth);
          assert entries.key.text in Members(entries, depth + 1, maxDepth);
        }
      case List(items) =>
        if items.Values? {
          NormalIsVoid(items.head, depth + 1, maxDepth);
        }
      case _ =>
    }
  }

  lemma {:induction false} MembersAreAbove(es: Entries, depth: nat, maxDepth: nat, key: string, k: string)
    requires 0 < depth <= maxDepth + 1 && NormalEntries(es, maxDepth + 1 - depth) && Above(key, es)
    requires k in Members(es, depth, maxDepth)
    ensures Before(key, k)
  {
    if es.key.text != k {
      if es.tail.Entries? {
        BeforeIsTransitive(key, es.key.text, es.tail.key.text);
      }
      MembersAreAbove(es.tail, depth, maxDepth, key, k);
    }
  }

  lemma {:induction false} MeaningDetermines(v: Value, w: Value, depth: nat, maxDepth: nat)
    requires depth <= maxDepth && Normal(v, maxDepth - depth) && Normal(w, maxDepth - depth)
    requires Meaning(v, depth, maxDepth) == Meaning(w, depth, maxDepth)
    ensures v == w
  {
    match v {
      case Dict(entries) => MembersDetermine(entries, w.entries, depth + 1, maxDepth);
      case List(items) => ItemsDetermine(items, w.items, depth + 1, maxDepth);
      case _ =>
    }
  }

  lemma {:induction false} ItemsDetermine(vs: Values, ws: Values, depth: nat, maxDepth: nat)
    requires 0 < depth <= maxDepth + 1 && NormalItems(vs, maxDepth + 1 - depth) && NormalItems(ws, maxDepth + 1 - depth)
    requires Items(vs, depth, maxDepth) == Items(ws, depth, maxDepth)
    ensures vs == ws
  {
    if vs.Values? {
      NormalIsVoid(vs.head, depth, maxDepth);
    }
    if ws.Values? {
      NormalIsVoid(ws.head, depth, maxDepth);
    }
    if vs.Values? && ws.Values? {
      var a, b := Items(vs, depth, maxDepth), Items(ws, depth, maxDepth);
      assert a[0] == Meaning(vs.head, depth, maxDepth) && a[1..] == Items(vs.tail, depth, maxDepth);
      assert b[0] == Meaning(ws.head, depth, maxDepth) && b[1..] == Items(ws.tail, depth, maxDepth);
      MeaningDetermines(vs.head, ws.head, depth, maxDepth);
      ItemsDetermine(vs.tail, ws.tail, depth, maxDepth);
    }
  }

  lemma NormalMembers(es: Entries, depth: nat, maxDepth: nat)
    requires 0 < depth <= maxDepth + 1 && NormalEntries(es, maxDepth + 1 - depth) && es.Entries?
    ensures var m := Members(es, depth, maxDepth);
            && es.key.text in m && m[es.key.text] == Meaning(es.value, depth, maxDepth)
            && Members(es.tail, depth, maxDepth) == m - {es.key.text}
            && forall k :: k in m ==> k == es.key.text || Before(es.key.text, k)
  {
    NormalIsVoid(es.value, depth, maxDepth);
    forall k | k in Members(es.tail, depth, maxDepth) ensures Before(es.key.text, k) {
      MembersAreAbove(es.tail, depth, maxDepth, es.key.text, k);
    }
    BeforeIsTotal(es.key.text, es.key.text);
    assert es.key.text !in Members(es.tail, depth, maxDepth);
  }

  lemma {:induction false} MembersDetermine(es: Entries, fs: Entries, depth: nat, maxDepth: nat)
    requires 0 < depth <= maxDepth + 1 && NormalEntries(es, maxDepth + 1 - depth)
        && NormalEntries(fs, maxDepth + 1 - depth)
    requires Members(es, depth, maxDepth) == Members(fs, depth, maxDepth)
    ensures es == fs
  {
    if es.Entries? {
      NormalMembers(es, depth, maxDepth);
    }
    if fs.Entries? {
      NormalMembers(fs, depth, maxDepth);
    }
    if es.Entries? && fs.Entries? {
      BeforeIsTotal(es.key.text, fs.key.text);
      assert es.key == fs.key;
      MeaningDetermines(es.value, fs.value, depth, maxDepth);
      MembersDetermine(es.tail, fs.tail, depth, maxDepth);
    }
  }

  /** The value under a key; null if there is none. */
  function Find(es: Entries, key: Key): Value {
    match es
    case NoEntries => Null
    case Entries(k, value, tail) => if k == key then value else Find(tail, key)
  }

  lemma {:induction false} MembersAreFound(es: Entries, depth: nat, maxDepth: nat, key: string)
    requires Unique(es)
    ensures var m, d := Members(es, depth, maxDepth), Meaning(Find(es, StrKey(key)), depth, maxDepth);
            (key in m <==> !Void(d)) && (key in m ==> m[key] == d)
  {
    if es.Entries? {
      if es.key == StrKey(key) {
        MembersKeys(es.tail, depth, maxDepth, key);
      } else {
        MembersAreFound(es.tail, depth, maxDepth, key);
      }
    }
  }

  /** Neither the order of keys nor a null member nor a key that is not a string matters to the document. */
  lemma OrderAndNullsDoNotMatter(es: Entries, fs: Entries, maxDepth: nat)
    requires WellFormed(Dict(es)) && WellFormed(Dict(fs))
    requires forall key: string :: Find(es, StrKey(key)) == Find(fs, StrKey(key))
    requires Sanitize(Dict(es), 0, maxDepth).Ok? && Sanitize(Dict(fs), 0, maxDepth).Ok?
    ensures Sanitize(Dict(es), 0, maxDepth) == Sanitize(Dict(fs), 0, maxDepth)
  {
    var a, b := Members(es, 1, maxDepth), Members(fs, 1, maxDepth);
    forall key ensures key in a <==> key in b
               ensures key in a ==> a[key] == b[key]
    {
      MembersAreFound(es, 1, maxDepth, key);
      MembersAreFound(fs, 1, maxDepth, key);
    }
    assert a == b;
    SameDocument(Dict(es), Dict(fs), maxDepth);
  }

  /** Two values are sanitized to the same document exactly when they mean the same. */
  lemma SameDocument(v: Value, w: Value, maxDepth: nat)
    requires WellFormed(v) && WellFormed(w) && Sanitize(v, 0, maxDepth).Ok? && Sanitize(w, 0, maxDepth).Ok?
    ensures Sanitize(v, 0, maxDepth) == Sanitize(w, 0, maxDepth) <==> Meaning(v, 0, maxDepth) == Meaning(w, 0, maxDepth)
  {
    var r, s := Sanitize(v, 0, maxDepth).value, Sanitize(w, 0, maxDepth).value;
    SanitizeKeepsMeaning(v, 0, maxDepth);
    SanitizeKeepsMeaning(w, 0, maxDepth);
    SanitizedIsNormal(v, 0, maxDepth);
    SanitizedIsNormal(w, 0, maxDepth);
    if Meaning(r, 0, maxDepth) == Meaning(s, 0, maxDepth) {
      MeaningDetermines(r, s, 0, maxDepth);
    }
  }
}
